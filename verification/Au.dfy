/** The AU file writer and a reader for what it writes. */
module Au {
  import opened Bytes
  import opened Files

  const AUDIO_FILE_MAGIC := 0x2e736e64
  const AUDIO_UNKNOWN_SIZE := 0xffffffff
  const ENCODING_LINEAR_8 := 2
  const ENCODING_LINEAR_16 := 3
  const HEADER_LEN := 28

  datatype Header = Header(dataSize: nat, encoding: nat, sampleRate: nat, channels: nat)

  /** The header as it is laid out in the file: big-endian fields, and four bytes of empty text. */
  function Encode(h: Header): (s: seq<byte>)
    ensures |s| == HEADER_LEN
  {
    BigBytes(AUDIO_FILE_MAGIC, 4) + BigBytes(HEADER_LEN, 4) + BigBytes(h.dataSize, 4)
    + BigBytes(h.encoding, 4) + BigBytes(h.sampleRate, 4) + BigBytes(h.channels, 4) + Fill(4, 0)
  }

  datatype Content = Content(header: Header, payload: seq<byte>)

  /** A reader: it checks the magic number, skips the header by the size it states, and accepts a data
      size that is either unknown or what is left of the file. */
  function Parse(f: seq<byte>): Option<Content> {
    if |f| < HEADER_LEN then None
    else
      var h := Header(BigValue(Field(f, 8, 4)), BigValue(Field(f, 12, 4)), BigValue(Field(f, 16, 4)), BigValue(Field(f, 20, 4)));
      if && BigValue(Field(f, 0, 4)) == AUDIO_FILE_MAGIC && BigValue(Field(f, 4, 4)) == HEADER_LEN
         && (h.dataSize == AUDIO_UNKNOWN_SIZE || h.dataSize == |f| - HEADER_LEN)
      then Some(Content(h, f[HEADER_LEN..]))
      else None
  }

  lemma EncodedFields(h: Header, payload: seq<byte>)
    ensures var f := Encode(h) + payload;
            && Field(f, 0, 4) == BigBytes(AUDIO_FILE_MAGIC, 4) && Field(f, 4, 4) == BigBytes(HEADER_LEN, 4)
            && Field(f, 8, 4) == BigBytes(h.dataSize, 4) && Field(f, 12, 4) == BigBytes(h.encoding, 4)
            && Field(f, 16, 4) == BigBytes(h.sampleRate, 4) && Field(f, 20, 4) == BigBytes(h.channels, 4)
            && f[HEADER_LEN..] == payload
  {
    hide BigBytes;
  }

  lemma ParseEncoded(h: Header, payload: seq<byte>)
    requires h.dataSize % U32 == AUDIO_UNKNOWN_SIZE || h.dataSize % U32 == |payload|
    ensures Parse(Encode(h) + payload) ==
            Some(Content(Header(h.dataSize % U32, h.encoding % U32, h.sampleRate % U32, h.channels % U32), payload))
  {
    EncodedFields(h, payload);
    Widths();
    BigBytesValue(AUDIO_FILE_MAGIC, 4);
    BigBytesValue(HEADER_LEN, 4);
    BigBytesValue(h.dataSize, 4);
    BigBytesValue(h.encoding, 4);
    BigBytesValue(h.sampleRate, 4);
    BigBytesValue(h.channels, 4);
    hide Encode, BigBytes, BigValue, Field, Pow256;
  }

  /** The header byte by byte. */
  lemma HeaderLayout(h: Header, payload: seq<byte>)
    ensures var f := Encode(h) + payload;
            && |f| == 28 + |payload| && f[28..] == payload
            && f[0..8] == [0x2e, 0x73, 0x6e, 0x64, 0, 0, 0, 28] && f[24..28] == [0, 0, 0, 0]
            && BigValue(f[8..12]) == h.dataSize % 0x1_0000_0000
            && BigValue(f[12..16]) == h.encoding % 0x1_0000_0000
            && BigValue(f[16..20]) == h.sampleRate % 0x1_0000_0000
            && BigValue(f[20..24]) == h.channels % 0x1_0000_0000
  {
    EncodedFields(h, payload);
    Widths();
    BigBytesValue(h.dataSize, 4);
    BigBytesValue(h.encoding, 4);
    BigBytesValue(h.sampleRate, 4);
    BigBytesValue(h.channels, 4);
    FixedFields();
    var f := Encode(h) + payload;
    assert f[24..28] == Fill(4, 0);
    hide Encode, BigBytes, BigValue, Pow256;
    assert f[0..8] == f[0..4] + f[4..8];
    assert Field(f, 0, 4) == f[0..4] && Field(f, 4, 4) == f[4..8];
  }

  lemma FixedFields()
    ensures BigBytes(AUDIO_FILE_MAGIC, 4) == [0x2e, 0x73, 0x6e, 0x64] && BigBytes(HEADER_LEN, 4) == [0, 0, 0, 28]
  {
    assert BigBytes(0x2e, 1) == [0x2e] && BigBytes(0, 1) == [0];
    assert BigBytes(0x2e73, 2) == [0x2e, 0x73] && BigBytes(0, 2) == [0, 0];
    hide BigBytes;
    LastByte(0x2e736e, 2);
    LastByte(0x2e736e64, 3);
    LastByte(0, 2);
    LastByte(28, 3);
  }

  lemma LastByte(x: nat, n: nat)
    ensures BigBytes(x, n + 1) == BigBytes(x / 256, n) + [x % 256]
  {
  }

  /** Patching the data size changes no other byte. */
  lemma PatchedSize(h: Header, payload: seq<byte>, dataSize: nat)
    ensures Patch(Encode(h) + payload, 8, BigBytes(dataSize, 4)) == Encode(h.(dataSize := dataSize)) + payload
  {
    hide BigBytes;
  }

  // ----- The driver

  function HeaderFor(channels: nat, bits: nat, rate: nat, dataSize: nat): Header {
    Header(dataSize, if bits == 8 then ENCODING_LINEAR_8 else ENCODING_LINEAR_16, Low32(rate), Low32(channels))
  }

  /** The slot names that the driver leaves: "L,R" when there are none, for at most two channels. */
  function Slots(channels: nat, inter: Option<string>): Option<string> {
    if inter.None? && channels <= 2 then Some("L,R") else inter
  }

  /** The file after an open, plays of `buffers` and a close; a pipe keeps the unknown size. */
  function Finished(channels: nat, bits: nat, rate: nat, buffers: seq<seq<byte>>, seekable: bool): seq<byte> {
    var written := Encode(HeaderFor(channels, bits, rate, AUDIO_UNKNOWN_SIZE)) + Concat(buffers);
    if seekable then Patch(written, 8, BigBytes(|written| - HEADER_LEN, 4)) else written
  }

  /** Round trip: a reader recovers the format and the buffers that were played, and, from a file that
      can be positioned, a data size of the file's size less the header. The file can be read if and
      only if that size fits 32 bits, is not known, or looks as if it were not. */
  lemma {:induction false} AuRoundTrip(channels: nat, bits: nat, rate: nat, buffers: seq<seq<byte>>, seekable: bool)
    ensures var n := |Concat(buffers)|;
            Parse(Finished(channels, bits, rate, buffers, seekable)) ==
            if !seekable || n < 0x1_0000_0000 || n % 0x1_0000_0000 == 0xffff_ffff then
              Some(Content(Header(if seekable then n % 0x1_0000_0000 else 0xffff_ffff,
                                  if bits == 8 then 2 else 3, rate % 0x1_0000_0000, channels % 0x1_0000_0000),
                           Concat(buffers)))
            else None
  {
    hide Parse, Encode, Concat, Patch, BigBytes;
    var payload := Concat(buffers);
    var h := HeaderFor(channels, bits, rate, if seekable then |payload| else AUDIO_UNKNOWN_SIZE);
    PatchedSize(HeaderFor(channels, bits, rate, AUDIO_UNKNOWN_SIZE), payload, |payload|);
    if !seekable || |payload| < U32 || |payload| % U32 == AUDIO_UNKNOWN_SIZE {
      ParseEncoded(h, payload);
    } else {
      SizeDoesNotFit(h, payload);
    }
  }

  lemma SizeDoesNotFit(h: Header, payload: seq<byte>)
    requires h.dataSize % U32 != AUDIO_UNKNOWN_SIZE && h.dataSize == |payload| >= U32
    ensures Parse(Encode(h) + payload) == None
  {
    EncodedFields(h, payload);
    Widths();
    BigBytesValue(h.dataSize, 4);
    hide Encode, BigBytes, BigValue, Field, Pow256;
  }

  /** What a close makes of a file: the size is written at its place, as far as there is room, unless
      nothing is there. */
  function Closed(contents: seq<byte>, seekable: bool, capacity: nat): seq<byte> {
    if !seekable || contents == [] then contents
    else Stored(contents, 8, BigBytes(Low32(|contents| - HEADER_LEN), 4), capacity)
  }

  /** A close byte by byte: the size where it goes, as far as there is room; what was there; and zeros in
      between. */
  lemma ClosedBytes(contents: seq<byte>, capacity: nat)
    requires 0 < |contents| <= capacity
    ensures var f, size := Closed(contents, true, capacity), BigBytes(Low32(|contents| - 28), 4);
            && |f| == (if capacity > 8 && |contents| < 12 then Min(12, capacity) else |contents|)
            && forall k :: 0 <= k < |f| ==>
                 f[k] == if 8 <= k < 12 then size[k - 8] else if k < |contents| then contents[k] else 0
  {
    hide BigBytes, Low32;
  }

  /** In a file with a whole header the size is patched. */
  lemma ClosedWhole(contents: seq<byte>, seekable: bool, capacity: nat)
    requires HEADER_LEN <= |contents| <= capacity
    ensures Closed(contents, seekable, capacity) ==
            if seekable then Patch(contents, 8, BigBytes(|contents| - HEADER_LEN, 4)) else contents
  {
    hide BigBytes, Stored, Patch, Low32;
    LowWord(|contents| - HEADER_LEN);
    StoredInside(contents, 8, BigBytes(|contents| - HEADER_LEN, 4), capacity);
  }

  class Writer {
    const file: File
    var au: Header

    ghost predicate Valid()
      reads this, file
    {
      file.Valid() && file.position == |file.contents|
    }

    constructor (file: File)
      requires file.Valid() && file.contents == [] && file.position == 0
      ensures Valid() && this.file == file
    {
      this.file := file;
      au := Header(0, 0, 0, 0);
    }

    static method EncodeHeader(h: Header) returns (s: seq<byte>)
      ensures s == Encode(h)
    {
      hide BigBytes;
      var buf := new byte[HEADER_LEN](_ => 0);
      assert buf[..0] == [];
      Put(buf, 0, BigBytes(AUDIO_FILE_MAGIC, 4));
      Put(buf, 4, BigBytes(HEADER_LEN, 4));
      Put(buf, 8, BigBytes(h.dataSize, 4));
      Put(buf, 12, BigBytes(h.encoding, 4));
      Put(buf, 16, BigBytes(h.sampleRate, 4));
      Put(buf, 20, BigBytes(h.channels, 4));
      Put(buf, 24, Fill(4, 0));
      assert buf[..28] == buf[..];
      s := buf[..];
    }

    /** `ao_au_open`: only 8 and 16 bits are supported. */
    method Open(channels: nat, bits: nat, rate: nat, inter: Option<string>)
      returns (ok: bool, slots: Option<string>)
      requires Valid() && file.contents == []
      modifies this, file
      ensures Valid() && (ok <==> (bits == 8 || bits == 16) && HEADER_LEN <= file.capacity)
      ensures file.contents ==
              if bits == 8 || bits == 16 then
                Clip(Encode(HeaderFor(channels, bits, rate, AUDIO_UNKNOWN_SIZE)), file.capacity)
              else
                []
      ensures slots == if ok then Slots(channels, inter) else inter
      ensures slots == if ok && inter.None? && channels <= 2 then Some("L,R") else inter
    {
      hide Encode, Stored, Clip, Low32;
      slots := inter;
      au := au.(channels := Low32(channels));
      if bits == 8 {
        au := au.(encoding := ENCODING_LINEAR_8);
      } else if bits == 16 {
        au := au.(encoding := ENCODING_LINEAR_16);
      } else {
        return false, inter;
      }
      au := au.(sampleRate := Low32(rate));
      au := au.(dataSize := AUDIO_UNKNOWN_SIZE);
      var buf := EncodeHeader(au);
      var n := file.Write(buf);
      assert [] + buf == buf;
      StoredAtEnd([], buf, file.capacity);
      ok := n == HEADER_LEN;
      if ok && slots.None? {
        if channels <= 2 {
          slots := Some("L,R");
        }
      }
    }

    /** `ao_au_play` */
    method Play(samples: seq<byte>) returns (ok: bool)
      requires Valid()
      modifies file
      ensures Valid()
      ensures ok <==> |old(file.contents)| + |samples| <= file.capacity
      ensures file.contents == Clip(old(file.contents) + samples, file.capacity)
    {
      var n := file.Write(samples);
      StoredAtEnd(old(file.contents), samples, file.capacity);
      ok := n == |samples|;
    }

    /** `ao_au_close`: fill in the length; a file that is empty or cannot be positioned stays as it is. */
    method Close() returns (ok: bool)
      requires Valid()
      modifies this, file
      ensures ok
      ensures file.contents == Closed(old(file.contents), file.seekable, file.capacity)
    {
      hide BigBytes, Overwritten;
      ok := true;
      var size := file.Tell();
      if size > 0 {
        au := au.(dataSize := Low32(size - HEADER_LEN));
        var found := file.Seek(8);
        if !found {
          return;
        }
        var n := file.Write(BigBytes(au.dataSize, 4));
      }
    }
  }
}
