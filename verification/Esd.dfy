/** The EsounD driver, which only ever writes blocks of 4096 bytes. */
module Esd {
  import opened Bytes
  import opened Interleave

  const BLOCK := 4096

  /** What the socket answers to a write: it takes some bytes, it is interrupted, or it is gone. */
  datatype Answer = Took(n: nat) | Interrupted | Gone

  /** A stream cut into whole blocks, and what is left over. */
  ghost predicate Chunked(stream: seq<byte>, blocks: seq<seq<byte>>, left: seq<byte>) {
    && (forall i :: 0 <= i < |blocks| ==> |blocks[i]| == BLOCK)
    && |left| < BLOCK
    && stream == Concat(blocks) + left
  }

  /** There is one way to cut a stream: which blocks are written depends on the stream only, not on
      how the client divides it into buffers nor on how the socket divides the writes. */
  lemma ChunkingIsDetermined(stream: seq<byte>, blocks: seq<seq<byte>>, left: seq<byte>)
    requires Chunked(stream, blocks, left)
    ensures |blocks| == |stream| / 4096 && |left| == |stream| % 4096
    ensures Concat(blocks) == stream[..|stream| - |stream| % 4096]
    ensures left == stream[|stream| - |stream| % 4096..]
    ensures forall i :: 0 <= i < |blocks| ==>
              i * 4096 + 4096 <= |stream| && blocks[i] == stream[i * 4096..i * 4096 + 4096]
  {
    hide Concat;
    ConcatLength(blocks, BLOCK);
    DivModUnique(|stream|, |blocks|, |left|, BLOCK);
    forall i | 0 <= i < |blocks|
      ensures i * BLOCK + BLOCK <= |stream| && blocks[i] == stream[i * BLOCK..i * BLOCK + BLOCK]
    {
      BlockAt(blocks, i);
      assert stream[i * BLOCK..i * BLOCK + BLOCK] == Concat(blocks)[i * BLOCK..i * BLOCK + BLOCK];
    }
  }

  lemma Pieces(stream: seq<byte>, wire: seq<byte>, blocks: seq<seq<byte>>, left: seq<byte>)
    requires Chunked(stream, blocks, left) && wire == Concat(blocks)
    ensures |left| == |stream| % 4096 && wire == stream[..|stream| - |left|] && left == stream[|stream| - |left|..]
  {
    ChunkingIsDetermined(stream, blocks, left);
  }

  lemma {:induction false} BlockAt(blocks: seq<seq<byte>>, i: nat)
    requires i < |blocks| && forall k :: 0 <= k < |blocks| ==> |blocks[k]| == BLOCK
    ensures i * BLOCK + BLOCK <= |Concat(blocks)|
    ensures Concat(blocks)[i * BLOCK..i * BLOCK + BLOCK] == blocks[i]
  {
    ConcatLength(blocks, BLOCK);
    if i > 0 {
      BlockAt(blocks[1..], i - 1);
      var tail := Concat(blocks[1..]);
      assert Concat(blocks)[i * BLOCK..i * BLOCK + BLOCK] == tail[(i - 1) * BLOCK..(i - 1) * BLOCK + BLOCK];
    }
  }

  class Device {
    const bugbuffer: array<byte>
    var bugfill: nat
    var bits: nat
    var connected: bool

    /** What the socket will answer; when this runs out it takes everything. */
    var answers: seq<Answer>

    /** The bytes the daemon has received, the complete blocks among them, and all bytes the client
        has submitted. */
    ghost var wire: seq<byte>
    ghost var blocks: seq<seq<byte>>
    ghost var submitted: seq<byte>

    /** Between successful calls the daemon has received whole blocks only, and the rest of what was
        submitted, less than a block, is in the buffer. */
    ghost predicate Valid()
      reads this, bugbuffer
    {
      && bugbuffer.Length == BLOCK && bugfill < BLOCK && connected
      && wire == Concat(blocks) && Chunked(submitted, blocks, bugbuffer[..bugfill])
    }

    /** What also holds after a play that failed: a whole block can be left in the buffer then. */
    ghost predicate Closable()
      reads this
    {
      bugbuffer.Length == BLOCK && bugfill <= BLOCK
    }

    constructor (bits: nat, answers: seq<Answer>)
      ensures Valid() && fresh(bugbuffer) && this.bits == bits && submitted == [] && wire == []
    {
      bugbuffer := new byte[BLOCK](_ => 0);
      bugfill, connected := 0, true;
      this.bits, this.answers := bits, answers;
      wire, blocks, submitted := [], [], [];
    }

    /** `write`: returns the number of bytes taken, which is what the daemon receives, or -1 for an
        interruption, or less when the socket is gone. */
    method Write(data: seq<byte>) returns (ret: int)
      modifies this`answers, this`wire
      ensures -2 <= ret <= |data|
      ensures wire == old(wire) + data[..if ret < 0 then 0 else ret]
      ensures ret == -2 ==> Gone in old(answers)
      ensures old(answers) == [] ==> ret == |data|
      ensures answers == if old(answers) == [] then [] else old(answers)[1..]
    {
      if answers == [] {
        ret := |data|;
      } else {
        match answers[0] {
          case Took(n) => ret := Min(n, |data|);
          case Interrupted => ret := -1;
          case Gone => ret := -2;
        }
        answers := answers[1..];
      }
      wire := wire + data[..if ret < 0 then 0 else ret];
    }

    /** `write4096`: go on until the whole block is written, or the socket is gone. */
    method Write4096(data: seq<byte>) returns (ret: int)
      requires |data| == BLOCK
      modifies this`answers, this`wire
      ensures ret == 0 || ret == -2
      ensures ret == 0 ==> wire == old(wire) + data
      ensures old(wire) <= wire <= old(wire) + data
      ensures ret != 0 ==> Gone in old(answers)
      ensures forall a :: a in answers ==> a in old(answers)
    {
      var pos, numBytes := 0, BLOCK;
      while numBytes > 0
        invariant pos + numBytes == BLOCK && 0 <= pos <= BLOCK
        invariant wire == old(wire) + data[..pos]
        invariant forall a :: a in answers ==> a in old(answers)
        decreases |answers|, numBytes
      {
        ghost var before := wire;
        ret := Write(data[pos..]);
        if ret < 0 {
          assert wire == before;
          if ret != -1 {
            return;
          }
        } else {
          assert data[..pos + ret] == data[..pos] + data[pos..][..ret];
          pos := pos + ret;
          numBytes := numBytes - ret;
        }
      }
      assert data[..pos] == data;
      ret := 0;
    }

    /** The first part of `ao_plugin_play`: add to a partly filled buffer what makes it whole. */
    method TopUp(samples: seq<byte>) returns (pos: nat)
      requires bugbuffer.Length == BLOCK && bugfill < BLOCK
      modifies this`bugfill, bugbuffer
      ensures pos <= |samples| && bugfill <= BLOCK
      ensures bugbuffer[..bugfill] == old(bugbuffer[..bugfill]) + samples[..pos]
      ensures bugfill == 0 || bugfill == BLOCK || pos == |samples|
    {
      pos := 0;
      if bugfill != 0 {
        var addto := bugfill + |samples|;
        if addto > BLOCK {
          addto := BLOCK;
        }
        addto := addto - bugfill;
        if addto != 0 {
          CopyInto(bugbuffer, bugfill, samples[..addto]);
          pos := addto;
          bugfill := bugfill + addto;
        }
      }
    }

    /** Write the buffer once it is whole. */
    method FlushWhole() returns (ok: bool)
      requires bugbuffer.Length == BLOCK && bugfill <= BLOCK
      requires wire == Concat(blocks) && forall i :: 0 <= i < |blocks| ==> |blocks[i]| == BLOCK
      modifies this`bugfill, this`answers, this`wire, this`blocks
      ensures bugfill == if ok && old(bugfill) == BLOCK then 0 else old(bugfill)
      ensures old(wire) <= wire <= old(wire + bugbuffer[..bugfill])
      ensures ok ==> wire + bugbuffer[..bugfill] == old(wire + bugbuffer[..bugfill])
      ensures ok ==> wire == Concat(blocks) && forall i :: 0 <= i < |blocks| ==> |blocks[i]| == BLOCK
      ensures !ok ==> Gone in old(answers)
      ensures forall a :: a in answers ==> a in old(answers)
    {
      hide Concat;
      if bugfill == BLOCK {
        assert bugbuffer[..bugfill] == bugbuffer[..];
        var ret := Write4096(bugbuffer[..]);
        if ret != 0 {
          return false;
        }
        ConcatSnoc(blocks, bugbuffer[..]);
        blocks := blocks + [bugbuffer[..]];
        bugfill := 0;
      }
      return true;
    }

    /** The end of `ao_plugin_play`: keep what is left. */
    method KeepRest(samples: seq<byte>, pos: nat)
      requires pos <= |samples| && |samples| - pos < BLOCK == bugbuffer.Length
      requires bugfill < BLOCK && (pos < |samples| ==> bugfill == 0)
      modifies this`bugfill, bugbuffer
      ensures bugfill < BLOCK
      ensures bugbuffer[..bugfill] == old(bugbuffer[..bugfill]) + samples[pos..]
    {
      if pos < |samples| {
        CopyInto(bugbuffer, 0, samples[pos..]);
        bugfill := |samples| - pos;
      }
    }

    /** `ao_plugin_play` */
    method Play(samples: seq<byte>) returns (ok: bool)
      requires Valid() && |samples| < 0x1_0000_0000
      requires bugfill != 0 ==> bugfill + |samples| < 0x8000_0000
      modifies this`bugfill, this`answers, this`wire, this`blocks, this`submitted, bugbuffer
      ensures submitted == old(submitted) + samples
      ensures Closable() && (ok ==> Valid())
      ensures ok ==>
                && bugfill == |submitted| % 4096 && wire == submitted[..|submitted| - bugfill]
                && bugbuffer[..bugfill] == submitted[|submitted| - bugfill..]
      ensures !ok ==> Gone in old(answers)
      ensures old(wire) <= wire <= submitted
    {
      hide Concat;
      submitted := submitted + samples;
      var pos := TopUp(samples);
      Regroup(wire, old(bugbuffer[..bugfill]), samples, pos);
      ok := FlushWhole();
      if !ok {
        PrefixOfWhole(wire, old(wire) + bugbuffer[..bugfill], samples[pos..]);
        return;
      }
      ok, pos := WriteBlocks(samples, pos);
      if !ok {
        return;
      }
      Append3(wire, bugbuffer[..bugfill], samples[pos..]);
      KeepRest(samples, pos);
      Pieces(submitted, wire, blocks, bugbuffer[..bugfill]);
    }

    /** The loop of `ao_plugin_play`: whole blocks go straight from the client's buffer. */
    method WriteBlocks(samples: seq<byte>, from: nat) returns (ok: bool, pos: nat)
      requires from <= |samples| && bugbuffer.Length == BLOCK
      requires bugfill < BLOCK && (from < |samples| ==> bugfill == 0)
      requires wire == Concat(blocks) && forall i :: 0 <= i < |blocks| ==> |blocks[i]| == BLOCK
      requires submitted == wire + bugbuffer[..bugfill] + samples[from..]
      modifies this`answers, this`wire, this`blocks
      ensures pos <= |samples| && old(wire) <= wire <= submitted
      ensures ok ==> wire == Concat(blocks) && forall i :: 0 <= i < |blocks| ==> |blocks[i]| == BLOCK
      ensures ok ==> |samples| - pos < BLOCK && (pos < |samples| ==> bugfill == 0)
      ensures ok ==> submitted == wire + bugbuffer[..bugfill] + samples[pos..]
      ensures !ok ==> Gone in old(answers)
    {
      hide Concat;
      pos := from;
      while |samples| - pos >= BLOCK
        invariant 0 <= pos <= |samples| && (pos < |samples| ==> bugfill == 0)
        invariant wire == Concat(blocks) && forall i :: 0 <= i < |blocks| ==> |blocks[i]| == BLOCK
        invariant submitted == wire + bugbuffer[..bugfill] + samples[pos..]
        invariant old(wire) <= wire
        invariant forall a :: a in answers ==> a in old(answers)
      {
        var block := samples[pos..pos + BLOCK];
        NextBlock(wire, bugbuffer[..bugfill], samples, pos);
        var ret := Write4096(block);
        if ret != 0 {
          return false, pos;
        }
        ConcatSnoc(blocks, block);
        blocks := blocks + [block];
        pos := pos + BLOCK;
      }
      return true, pos;
    }

    /** `ao_plugin_close`: what is left in the buffer is filled up with silence and written, also when it
        is a whole block that could not be written before. `flushed` says that the socket took it;
        the original does not look. */
    method Close() returns (ghost flushed: bool, ghost padding: seq<byte>)
      requires Closable()
      modifies this`bugfill, this`answers, this`wire, this`connected, bugbuffer
      ensures !connected && submitted == old(submitted)
      ensures bugfill == if old(connected) then 0 else old(bugfill)
      ensures |padding| < 4096 && padding == Fill(|padding|, if bits == 8 then 128 else 0)
      ensures padding == [] <==> old(bugfill) == 0 || old(bugfill) == 4096 || !old(connected)
      ensures flushed && old(connected) ==>
                && wire == old(wire + bugbuffer[..bugfill]) + padding
                && (old(bugfill) + |padding|) % 4096 == 0
      ensures !old(connected) ==> flushed && wire == old(wire)
      ensures old(Valid()) && flushed ==> wire == submitted + padding && |wire| % 4096 == 0
      ensures !flushed ==> Gone in old(answers)
    {
      hide Concat;
      flushed, padding := true, [];
      ghost var wasValid, whole := Valid(), |blocks|;
      if wasValid {
        ConcatLength(blocks, BLOCK);
      }
      if bugfill != 0 && connected {
        if bugfill < BLOCK {
          var v: byte := if bits == 8 then 128 else 0;
          padding := Fill(BLOCK - bugfill, v);
          MemSet(bugbuffer, bugfill, v, BLOCK - bugfill);
        }
        assert bugbuffer[..] == old(bugbuffer[..bugfill]) + padding;
        var ret := Write4096(bugbuffer[..]);
        flushed := ret == 0;
        bugfill := 0;
        WholeBlocks(whole + 1);
      } else {
        assert bugbuffer[..0] == [];
        WholeBlocks(whole);
      }
      connected := false;
    }
  }

  lemma WholeBlocks(n: nat)
    ensures n * BLOCK % BLOCK == 0
  {
    DivModUnique(n * BLOCK, n, 0, BLOCK);
  }

  lemma Regroup(wire: seq<byte>, buffered: seq<byte>, samples: seq<byte>, pos: nat)
    requires pos <= |samples|
    ensures wire + buffered + samples == wire + (buffered + samples[..pos]) + samples[pos..]
    ensures wire + (buffered + samples[..pos]) + samples[pos..] ==
            (wire + (buffered + samples[..pos])) + [] + samples[pos..]
  {
    assert samples == samples[..pos] + samples[pos..];
  }

  lemma PrefixOfWhole(a: seq<byte>, b: seq<byte>, c: seq<byte>)
    requires a <= b
    ensures a <= b + c
  {
  }

  lemma Append3(a: seq<byte>, b: seq<byte>, c: seq<byte>)
    ensures a + b + c == a + (b + c)
  {
  }

  lemma NextBlock(wire: seq<byte>, buffered: seq<byte>, samples: seq<byte>, pos: nat)
    requires pos + BLOCK <= |samples| && buffered == []
    ensures wire + buffered + samples[pos..] ==
            (wire + samples[pos..pos + BLOCK]) + buffered + samples[pos + BLOCK..]
  {
    assert samples[pos..] == samples[pos..pos + BLOCK] + samples[pos + BLOCK..];
  }
}
