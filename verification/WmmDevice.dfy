/** The driver for the Windows wave device: `ao_wmm_play` and its helpers over one big buffer. */
module WmmDevice {
  import opened Bytes
  import opened WmmRing

  function BlockStart(i: nat, length: nat): nat {
    i * length
  }

  /** Block `i` of a buffer that holds blocks of `length` bytes one after the other. */
  function Block(buffer: seq<byte>, i: nat, length: nat): (b: seq<byte>)
    requires BlockStart(i, length) + length <= |buffer|
    ensures |b| == length
  {
    buffer[BlockStart(i, length)..BlockStart(i, length) + length]
  }

  lemma BlockFits(i: nat, n: nat, length: nat)
    requires i < n
    ensures BlockStart(i, length) + length <= n * length
  {
    assert (i + 1) * length <= n * length;
    assert (i + 1) * length == i * length + length;
  }

  function Blocks(buffer: seq<byte>, n: nat, length: nat): (bs: seq<seq<byte>>)
    requires |buffer| == n * length
    ensures |bs| == n
  {
    seq(n, i requires 0 <= i < n => BlockFits(i, n, length); Block(buffer, i, length))
  }

  lemma SliceInside(buffer: seq<byte>, from: nat, length: nat, count: nat, chunk: seq<byte>)
    requires from + length <= |buffer| && count + |chunk| <= length
    ensures Patch(buffer, from + count, chunk)[from..from + length] ==
            Patch(buffer[from..from + length], count, chunk)
  {
  }

  lemma SliceOutside(buffer: seq<byte>, at: nat, chunk: seq<byte>, from: nat, length: nat)
    requires at + |chunk| <= |buffer| && from + length <= |buffer|
    requires from + length <= at || at + |chunk| <= from
    ensures Patch(buffer, at, chunk)[from..from + length] == buffer[from..from + length]
  {
  }

  /** Writing inside a block changes that block and no other. */
  lemma PatchBlock(buffer: seq<byte>, n: nat, length: nat, i: nat, count: nat, chunk: seq<byte>)
    requires |buffer| == n * length && i < n && count + |chunk| <= length
    ensures BlockStart(i, length) + count + |chunk| <= |buffer|
    ensures Blocks(Patch(buffer, BlockStart(i, length) + count, chunk), n, length) ==
            Blocks(buffer, n, length)[i := Patch(Blocks(buffer, n, length)[i], count, chunk)]
  {
    hide BlockStart, Block, Patch;
    BlockFits(i, n, length);
    var after := Patch(buffer, BlockStart(i, length) + count, chunk);
    var was, now := Blocks(buffer, n, length), Blocks(after, n, length);
    forall k | 0 <= k < n ensures now[k] == if k == i then Patch(was[i], count, chunk) else was[k] {
      BlockFits(k, n, length);
      PatchBlockAt(buffer, length, i, count, chunk, k);
    }
  }

  lemma PatchBlockAt(buffer: seq<byte>, length: nat, i: nat, count: nat, chunk: seq<byte>, k: nat)
    requires BlockStart(i, length) + length <= |buffer| && BlockStart(k, length) + length <= |buffer|
    requires count + |chunk| <= length
    ensures Block(Patch(buffer, BlockStart(i, length) + count, chunk), k, length) ==
            if k == i then Patch(Block(buffer, i, length), count, chunk) else Block(buffer, k, length)
  {
    hide BlockStart, Patch;
    if k == i {
      SliceInside(buffer, BlockStart(i, length), length, count, chunk);
    } else {
      BlocksApart(k, i, length);
      SliceOutside(buffer, BlockStart(i, length) + count, chunk, BlockStart(k, length), length);
    }
  }

  lemma BlocksApart(k: nat, i: nat, length: nat)
    requires k != i
    ensures BlockStart(k, length) + length <= BlockStart(i, length) ||
            BlockStart(i, length) + length <= BlockStart(k, length)
  {
    if k < i {
      BlockFits(k, i, length);
    } else {
      BlockFits(i, k, length);
    }
  }

  /** The number of bytes left to play is compared as an int. */
  const INT_LIMIT := 0x8000_0000

  /** What the device does before one pass of a loop: the blocks it marks done, and what it says to a
      write. */
  datatype Tick = Tick(completed: seq<nat>, accepts: bool)

  /** Before this pass the device marks every block it holds. */
  predicate Completing(tick: Tick, blocks: nat) {
    forall i :: 0 <= i < blocks ==> i in tick.completed
  }

  function CompletingTicks(ticks: seq<Tick>, blocks: nat): (n: nat)
    ensures n <= |ticks|
  {
    if ticks == [] then 0
    else
      CompletingTicks(ticks[..|ticks| - 1], blocks) + if Completing(ticks[|ticks| - 1], blocks) then 1 else 0
  }

  class Wmm {
    const blocks: nat
    const length: nat
    const wh: array<Header>
    const spl: array<byte>
    var sentBlocks: int
    var fullBlocks: int
    var widx: nat
    var ridx: nat

    /** What has happened so far. */
    ghost var handed: seq<seq<byte>>
    ghost var lost: Option<seq<byte>>
    ghost var rest: seq<byte>
    ghost var submitted: seq<byte>

    ghost predicate Shape()
      reads this, wh, spl
    {
      wh.Length == blocks && spl.Length == blocks * length
    }

    ghost function View(): Ring
      requires Shape()
      reads this, wh, spl
    {
      Ring(length, wh[..], Blocks(spl[..], blocks, length), widx, ridx, sentBlocks, fullBlocks)
    }

    ghost function History(): Session
      requires Shape()
      reads this, wh, spl
    {
      Session(View(), handed, lost, rest, submitted)
    }

    ghost predicate Valid()
      reads this, wh, spl
    {
      Shape() && SessionInv(History())
    }

    /** The block layout of `_ao_alloc_wave_headers`. */
    constructor (blocks: nat, length: nat)
      requires blocks > 0 && length > 0
      ensures Valid() && fresh(wh) && fresh(spl)
      ensures this.blocks == blocks && this.length == length
      ensures History() == Start(blocks, length)
      ensures wh.Length == blocks && spl.Length == blocks * length
      ensures forall i :: 0 <= i < blocks ==> wh[i] == Header(0, length, 0, false)
      ensures sentBlocks == fullBlocks == widx == ridx == 0 && handed == [] && submitted == []
    {
      this.blocks, this.length := blocks, length;
      wh := new Header[blocks](_ => Header(0, length, 0, false));
      spl := new byte[blocks * length](_ => 0);
      sentBlocks, fullBlocks, widx, ridx := 0, 0, 0, 0;
      handed, lost, rest, submitted := [], None, [], [];
      new;
      EmptyBlocks(spl[..], blocks, length);
      assert History() == Start(blocks, length);
      StartOk(blocks, length);
    }

    /** `_ao_get_free_block`: release the blocks that are done, oldest first, and say which block is
        free, or -1. The branches that mend the counters are never taken. */
    method GetFreeBlock() returns (free: int)
      requires Valid()
      modifies this`ridx, this`sentBlocks, this`fullBlocks, wh
      ensures Shape() && View() == Release(old(View()), lost.Some?)
      ensures free == if View().headers[widx].sent != 0 then -1 else widx
    {
      hide Inv, HeaderOk, SessionInv, Release, FrontDone, Blocks;
      var idx := widx;
      ghost var before := View();
      ghost var failed := lost.Some?;
      while wh[ridx].sent != 0 && wh[ridx].done
        invariant Shape() && ridx < blocks
        invariant Inv(View(), failed) && Release(View(), failed) == Release(before, failed)
        decreases sentBlocks
      {
        ReleaseStep(View(), failed);
        ghost var next := ReleaseOne(View());
        wh[ridx] := wh[ridx].(sent := 0, done := false);
        fullBlocks := fullBlocks - 1;
        fullBlocks := if fullBlocks < 0 then 0 else fullBlocks;
        sentBlocks := sentBlocks - 1;
        sentBlocks := if sentBlocks < 0 then 0 else sentBlocks;
        ridx := ridx + 1;
        if ridx >= blocks {
          ridx := 0;
        }
        assert View() == next;
      }
      NotReleasable(View(), failed);
      free := if wh[idx].sent != 0 then -1 else idx;
    }

    /** `_ao_send_block`, with what the device says to the write. */
    method SendBlock(idx: nat, accepts: bool) returns (ok: bool)
      requires Shape() && idx < blocks
      modifies this`sentBlocks, wh
      ensures Shape() && View() == Send(old(View()), idx, accepts)
      ensures ok <==> SendKind(old(wh[idx]), accepts) in {Pretended, Written(true)}
      ensures forall i :: 0 <= i < blocks && i != idx ==> wh[i] == old(wh[i])
      ensures var h := old(wh[idx]);
              if h.sent != 0 || h.done then !ok && wh[idx] == h && sentBlocks == old(sentBlocks)
              else if h.count == 0 then
                ok && wh[idx] == h.(sent := 2, done := true) && sentBlocks == old(sentBlocks) + 1
              else
                && ok == accepts && sentBlocks == old(sentBlocks) + (if accepts then 1 else 0)
                && wh[idx] == h.(bufferLength := h.count, count := 0, sent := if accepts then 1 else 0)
    {
      if wh[idx].sent != 0 {
        return false;
      }
      if wh[idx].done {
        return false;
      }
      if wh[idx].count <= 0 {
        wh[idx] := wh[idx].(sent := 2);
        wh[idx] := wh[idx].(done := true);
        sentBlocks := sentBlocks + 1;
        return true;
      }
      wh[idx] := wh[idx].(bufferLength := wh[idx].count);
      wh[idx] := wh[idx].(count := 0);
      wh[idx] := wh[idx].(sent := AsInt(accepts));
      sentBlocks := sentBlocks + wh[idx].sent;
      return accepts;
    }

    /** The device marks blocks it was sent as done. */
    method MarkBlocks(completed: seq<nat>)
      requires Valid()
      modifies wh
      ensures Valid() && History() == Run(old(History()), Completions(completed))
    {
      ghost var events := Completions(completed);
      for k := 0 to |completed|
        invariant Valid() && Run(History(), events[k..]) == Run(old(History()), events)
      {
        var i := completed[k];
        ghost var before := History();
        RunStep(before, events, k);
        if i < blocks && wh[i].sent == 1 {
          wh[i] := wh[i].(done := true);
        }
        assert History() == Step(before, events[k]);
        StepKeeps(before, events[k]);
      }
    }

    /** Copy a chunk into the block being filled. */
    method CopyChunk(chunk: seq<byte>)
      requires Shape() && widx < blocks && wh[widx].count + |chunk| <= length
      requires chunk <= rest
      modifies this`rest, wh, spl
      ensures Shape() && |old(View()).data[widx]| == length
      ensures View() == FillBlock(old(View()), chunk)
      ensures rest == old(rest)[|chunk|..]
    {
      hide Patch, Blocks;
      ghost var r := View();
      BlockFits(widx, blocks, length);
      BlockLength(spl[..], blocks, length, widx);
      PatchBlock(spl[..], blocks, length, widx, wh[widx].count, chunk);
      CopyInto(spl, BlockStart(widx, length) + wh[widx].count, chunk);
      rest := rest[|chunk|..];
      wh[widx] := wh[widx].(count := wh[widx].count + |chunk|);
      assert wh[..] == r.headers[widx := wh[widx]];
    }

    /** The block being filled is full: go on to the next one, and send it. */
    method SendFull(accepts: bool) returns (ret: bool)
      requires Shape() && widx < blocks
      requires SendKind(wh[widx], accepts) == Written(accepts)
      modifies this`fullBlocks, this`widx, this`sentBlocks, this`handed, this`lost, wh
      ensures Shape() && View() == Send(Advance(old(View())), old(widx), accepts)
      ensures ret == accepts
      ensures if accepts then lost == old(lost) && handed == old(handed) + [old(View().data[widx])]
              else handed == old(handed) && lost == Some(old(View().data[widx]))
    {
      hide Blocks;
      ghost var r, block := View(), View().data[widx];
      var idx := widx;
      fullBlocks := fullBlocks + 1;
      widx := widx + 1;
      if widx == blocks {
        widx := 0;
      }
      assert View() == Advance(r);
      ret := SendBlock(idx, accepts);
      if accepts {
        handed := handed + [block];
      } else {
        lost := Some(block);
      }
    }

    /** One pass of the loop of `ao_wmm_play`, for the bytes of `samples` from `pos` on: take a free
        block, copy what fits, and send the block once it is full. */
    method PlayPass(samples: seq<byte>, pos: nat, accepts: bool) returns (n: nat, ret: bool)
      requires Valid() && lost.None? && pos < |samples| < INT_LIMIT && rest == samples[pos..]
      modifies this, wh, spl
      ensures Valid() && History() == PlayStep(old(History()), accepts)
      ensures pos + n <= |samples| && rest == samples[pos + n..] && (ret <==> lost.None?)
      ensures submitted == old(submitted)
    {
      hide Inv, HeaderOk, SessionInv, PlayStep, Release, Blocks, FillBlock, Advance, Send;
      ghost var s := History();
      PlayStepKeeps(s, accepts);
      var idx := GetFreeBlock();
      ghost var r := View();
      FreeBlock(r);
      if idx == -1 {
        PlayStepWaits(s, accepts, r);
        return 0, true;
      }
      n := wh[idx].bufferLength - wh[idx].count;
      if n > |samples| - pos {
        n := |samples| - pos;
      }
      ghost var chunk := rest[..n];
      assert samples[pos..pos + n] == chunk && samples[pos + n..] == rest[n..];
      CopyChunk(samples[pos..pos + n]);
      ret := true;
      FilledCount(r, chunk);
      if wh[idx].count == wh[idx].bufferLength {
        PlayStepSends(s, accepts, r, n);
        FillUpOk(r, chunk, accepts);
        FilledHeader(r, chunk);
        ret := SendFull(accepts);
      } else {
        PlayStepFills(s, accepts, r, n);
      }
    }

    /** `ao_wmm_play`, for as many passes as there are ticks; `done` says that the call has returned
        by then. It has when the device has completed all its blocks as often as there are bytes,
        whatever it does in between. */
    method Play(samples: seq<byte>, ticks: seq<Tick>) returns (ret: bool, done: bool, ghost events: seq<Event>)
      requires Valid() && lost.None? && rest == [] && |samples| < 0x8000_0000
      modifies this, wh, spl
      ensures Valid() && History() == Run(old(History()), [Submit(samples)] + events)
      ensures ret <==> lost.None?
      ensures done <==> !ret || rest == []
      ensures CompletingTicks(ticks, blocks) >= |samples| ==> done
      ensures |ticks| >= |samples| && (forall t, i :: 0 <= t < |ticks| && 0 <= i < blocks ==> i in ticks[t].completed) ==>
                done
      ensures submitted == old(submitted) + samples
    {
      hide Inv, HeaderOk, SessionInv, Release, PlayStep, Run, Blocks, Completing, CompletingTicks;
      NoTicks(blocks);
      assert ticks[..0] == [];
      ghost var start := History();
      StepKeeps(start, Submit(samples));
      rest, submitted := samples, submitted + samples;
      RunOne(start, Submit(samples));
      assert History() == Step(start, Submit(samples));
      events := [];
      assert [Submit(samples)] + events == [Submit(samples)];
      var pos, t := 0, 0;
      ret := true;
      while ret && pos < |samples| && t < |ticks|
        invariant t <= |ticks| && 0 <= pos <= |samples| && Valid()
        invariant ret <==> lost.None?
        invariant rest == samples[pos..]
        invariant submitted == old(submitted) + samples
        invariant History() == Run(start, [Submit(samples)] + events)
        invariant pos >= CompletingTicks(ticks[..t], blocks) || !ret
      {
        ghost var before := History();
        OneMoreTick(ticks, t, blocks);
        if Completing(ticks[t], blocks) {
          MarkedProgress(before, ticks[t]);
        }
        MarkBlocks(ticks[t].completed);
        RunAppend(start, [Submit(samples)] + events, Completions(ticks[t].completed));
        ghost var marked := [Submit(samples)] + events + Completions(ticks[t].completed);
        RunKeepsRest(before, Completions(ticks[t].completed));
        var n;
        n, ret := PlayPass(samples, pos, ticks[t].accepts);
        RunAppend(start, marked, [WmmRing.Play(ticks[t].accepts)]);
        RunOne(Run(start, marked), WmmRing.Play(ticks[t].accepts));
        events := events + Completions(ticks[t].completed) + [WmmRing.Play(ticks[t].accepts)];
        assert marked + [WmmRing.Play(ticks[t].accepts)] == [Submit(samples)] + events;
        pos := pos + n;
        t := t + 1;
      }
      assert ticks[..|ticks|] == ticks;
      AllTicks(ticks, blocks);
      done := !ret || pos == |samples|;
    }

    /** `_ao_wait_wave_headers`, for as many passes as there are ticks: `drained` says that the loop
        has ended by then. */
    method WaitWaveHeaders(ticks: seq<Tick>) returns (drained: bool, ghost events: seq<Event>)
      requires Valid()
      modifies this, wh
      ensures Valid() && History() == Run(old(History()), events)
      ensures drained <==> sentBlocks == 0
      ensures |ticks| > 0 && (forall i :: 0 <= i < blocks ==> i in ticks[0].completed) ==> drained
    {
      hide Inv, HeaderOk, SessionInv, Release, Run, Blocks;
      ghost var start := History();
      events := [];
      RunNone(start);
      var t := 0;
      while sentBlocks > 0 && t < |ticks|
        invariant t <= |ticks| && Valid() && History() == Run(start, events)
        invariant t > 0 && (forall i :: 0 <= i < blocks ==> i in ticks[0].completed) ==> sentBlocks == 0
        decreases |ticks| - t
      {
        ghost var before := History();
        MarkBlocks(ticks[t].completed);
        RunAppend(start, events, Completions(ticks[t].completed));
        events := events + Completions(ticks[t].completed);
        ghost var marked := History();
        if forall i :: 0 <= i < blocks ==> i in ticks[t].completed {
          AllMarkedDrains(before, ticks[t].completed);
          RunAppend(before, Completions(ticks[t].completed), [Poll]);
        }
        StepKeeps(marked, Poll);
        var free := GetFreeBlock();
        RunOne(marked, Poll);
        RunAppend(start, events, [Poll]);
        events := events + [Poll];
        t := t + 1;
      }
      drained := sentBlocks == 0;
    }
  }

  ghost function Completions(blocks: seq<nat>): (es: seq<Event>)
    ensures |es| == |blocks| && forall i :: 0 <= i < |blocks| ==> es[i] == Complete(blocks[i])
  {
    seq(|blocks|, i requires 0 <= i < |blocks| => Complete(blocks[i]))
  }

  lemma RunNone(s: Session)
    requires SessionInv(s)
    ensures Run(s, []) == s
  {
  }

  lemma RunOne(s: Session, e: Event)
    requires SessionInv(s)
    ensures Run(s, [e]) == Step(s, e)
  {
    StepKeeps(s, e);
    assert [e][1..] == [];
    assert Run(Step(s, e), []) == Step(s, e);
  }

  lemma RunStep(s: Session, events: seq<Event>, k: nat)
    requires SessionInv(s) && k < |events|
    ensures SessionInv(Step(s, events[k]))
    ensures Run(s, events[k..]) == Run(Step(s, events[k]), events[k + 1..])
  {
    StepKeeps(s, events[k]);
    assert events[k..][1..] == events[k + 1..];
  }

  lemma {:induction false} RunAppend(s: Session, a: seq<Event>, b: seq<Event>)
    requires SessionInv(s)
    ensures Run(s, a + b) == Run(Run(s, a), b)
    decreases |a|
  {
    if a == [] {
      assert a + b == b;
    } else {
      StepKeeps(s, a[0]);
      assert (a + b)[1..] == a[1..] + b;
      RunAppend(Step(s, a[0]), a[1..], b);
    }
  }

  /** Completions by the device change nothing but flags. */
  lemma {:induction false} RunKeepsRest(s: Session, marks: seq<Event>)
    requires SessionInv(s) && forall i :: 0 <= i < |marks| ==> marks[i].Complete?
    ensures var t := Run(s, marks);
            t.rest == s.rest && t.lost == s.lost && t.submitted == s.submitted && t.handed == s.handed
    decreases |marks|
  {
    if marks != [] {
      StepKeeps(s, marks[0]);
      RunKeepsRest(Step(s, marks[0]), marks[1..]);
    }
  }

  /** A mark stays, and marks send nothing back. */
  lemma {:induction false} MarksStay(s: Session, marks: seq<Event>, i: nat)
    requires SessionInv(s) && i < |s.ring.headers|
    requires forall k :: 0 <= k < |marks| ==> marks[k].Complete?
    ensures var t := Run(s, marks);
            && |t.ring.headers| == |s.ring.headers|
            && t.ring.headers[i].sent == s.ring.headers[i].sent
            && (s.ring.headers[i].sent != 0 && (s.ring.headers[i].done || Complete(i) in marks) ==>
                  t.ring.headers[i].done)
    decreases |marks|
  {
    if marks != [] {
      var u := Step(s, marks[0]);
      StepKeeps(s, marks[0]);
      SentIsOne(s, i);
      hide SessionInv, Inv, Run;
      MarksStay(u, marks[1..], i);
      RunStep(s, marks, 0);
      assert marks[0..] == marks;
    } else {
      RunNone(s);
    }
  }

  lemma SentIsOne(s: Session, i: nat)
    requires SessionInv(s) && i < |s.ring.headers|
    ensures s.ring.headers[i].sent <= 1
  {
    assert HeaderOk(s.ring, i);
  }

  lemma AllMarkedDone(s: Session, completed: seq<nat>)
    requires SessionInv(s)
    requires forall i :: 0 <= i < |s.ring.headers| && s.ring.headers[i].sent != 0 ==> i in completed
    ensures var t := Run(s, Completions(completed));
            forall i :: 0 <= i < |t.ring.headers| && t.ring.headers[i].sent != 0 ==> t.ring.headers[i].done
  {
    hide SessionInv, Inv, Run, Release;
    var marks := Completions(completed);
    var t := Run(s, marks);
    RunKeepsShape(s, marks);
    forall i | 0 <= i < |t.ring.headers| && t.ring.headers[i].sent != 0 ensures t.ring.headers[i].done {
      MarksStay(s, marks, i);
      var k :| 0 <= k < |completed| && completed[k] == i;
      assert marks[k] == Complete(i);
    }
  }

  /** Once the device has marked all the blocks it was sent, in whatever order, one pass empties the
      ring; a write that was refused before makes no difference. */
  lemma AllMarkedDrains(s: Session, completed: seq<nat>)
    requires SessionInv(s)
    requires forall i :: 0 <= i < |s.ring.headers| && s.ring.headers[i].sent != 0 ==> i in completed
    ensures Run(s, Completions(completed) + [Poll]).ring.sentBlocks == 0
  {
    hide SessionInv, Inv, Run, Release;
    var t := Run(s, Completions(completed));
    AllMarkedDone(s, completed);
    RunKeepsShape(s, Completions(completed));
    AllDoneDrains(t.ring, t.lost.Some?);
    RunAppend(s, Completions(completed), [Poll]);
    RunOne(t, Poll);
  }

  /** When the device has marked all blocks, the next pass copies something. */
  lemma MarkedProgress(s: Session, tick: Tick)
    requires SessionInv(s) && s.lost.None? && s.rest != []
    requires Completing(tick, |s.ring.headers|)
    ensures var t := Run(s, Completions(tick.completed));
            t.lost.None? && t.rest == s.rest && |PlayStep(t, tick.accepts).rest| < |s.rest|
  {
    hide SessionInv, Inv, Run, Release, PlayStep;
    var t := Run(s, Completions(tick.completed));
    RunKeepsRest(s, Completions(tick.completed));
    RunKeepsShape(s, Completions(tick.completed));
    AllMarkedDone(s, tick.completed);
    AllDoneDrains(t.ring, false);
    SomeBlock(t);
    PlayStepProgress(t, tick.accepts);
  }

  lemma SomeBlock(s: Session)
    requires SessionInv(s)
    ensures |s.ring.headers| > 0
  {
  }

  lemma NoTicks(blocks: nat)
    ensures CompletingTicks([], blocks) == 0
  {
  }

  lemma {:induction false} AllTicks(ticks: seq<Tick>, blocks: nat)
    ensures (forall t, i :: 0 <= t < |ticks| && 0 <= i < blocks ==> i in ticks[t].completed) ==>
              CompletingTicks(ticks, blocks) == |ticks|
  {
    if ticks != [] {
      AllTicks(ticks[..|ticks| - 1], blocks);
    }
  }

  lemma OneMoreTick(ticks: seq<Tick>, t: nat, blocks: nat)
    requires t < |ticks|
    ensures CompletingTicks(ticks[..t + 1], blocks) ==
            CompletingTicks(ticks[..t], blocks) + if Completing(ticks[t], blocks) then 1 else 0
  {
    assert ticks[..t + 1][..t] == ticks[..t];
  }

  lemma BlockLength(buffer: seq<byte>, n: nat, length: nat, i: nat)
    requires |buffer| == n * length && i < n
    ensures |Blocks(buffer, n, length)[i]| == length
  {
  }

  lemma FilledCount(r: Ring, chunk: seq<byte>)
    requires r.widx < |r.headers| == |r.data|
    requires r.headers[r.widx].count + |chunk| <= |r.data[r.widx]|
    ensures var h := FillBlock(r, chunk).headers[r.widx];
            h == r.headers[r.widx].(count := r.headers[r.widx].count + |chunk|)
  {
  }

  lemma FilledHeader(r: Ring, chunk: seq<byte>)
    requires r.widx < |r.headers| == |r.data|
    requires r.headers[r.widx].count + |chunk| <= |r.data[r.widx]|
    ensures Advance(FillBlock(r, chunk)).headers == FillBlock(r, chunk).headers
    ensures Advance(FillBlock(r, chunk)).data == FillBlock(r, chunk).data
    ensures FillBlock(r, chunk).widx == r.widx && |FillBlock(r, chunk).data| == |r.data|
  {
  }

  lemma EmptyBlocks(buffer: seq<byte>, n: nat, length: nat)
    requires |buffer| == n * length && forall i :: 0 <= i < |buffer| ==> buffer[i] == 0
    ensures Blocks(buffer, n, length) == seq(n, _ => Fill(length, 0))
  {
    forall k | 0 <= k < n ensures Blocks(buffer, n, length)[k] == Fill(length, 0) {
      BlockFits(k, n, length);
    }
  }
}
