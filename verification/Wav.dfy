/** The WAV file writer and a reader for what it writes. */
module Wav {
  import opened Bytes
  import opened Files

  const HEADER_LEN := 68
  const WAVE_FORMAT_PCM := 0x0001
  const WAVE_FORMAT_EXTENSIBLE := 0xfffe

  const RIFF: seq<byte> := [0x52, 0x49, 0x46, 0x46]
  const WAVE: seq<byte> := [0x57, 0x41, 0x56, 0x45]
  const FMT: seq<byte> := [0x66, 0x6d, 0x74, 0x20]
  const DATA: seq<byte> := [0x64, 0x61, 0x74, 0x61]

  /** What follows the format code in the sub-format identifier. */
  const GUID_TAIL: seq<byte> :=
    [0x00, 0x00, 0x00, 0x00, 0x10, 0x00, 0x80, 0x00, 0x00, 0xAA, 0x00, 0x38, 0x9B, 0x71]

  /** The fields of the header that vary, each as wide as in the file. */
  datatype Header = Header(riffLen: nat, channels: nat, samplesPerSec: nat, avgBytesPerSec: nat,
                           blockAlign: nat, bitsPerSample: nat, validBits: nat, channelMask: nat,
                           dataLen: nat)

  /** The header as it is laid out in the file: 32-bit fields are stored in four bytes and 16-bit
      fields in two, least significant byte first. */
  function Encode(h: Header): (s: seq<byte>)
    ensures |s| == HEADER_LEN
  {
    EncodeRiff(h.riffLen) + EncodeFormat(h) + EncodeData(h.dataLen)
  }

  function EncodeRiff(riffLen: nat): (s: seq<byte>)
    ensures |s| == 12
  {
    RIFF + LittleBytes(riffLen, 4) + WAVE
  }

  function EncodeFormat(h: Header): (s: seq<byte>)
    ensures |s| == 48
  {
    FMT + LittleBytes(40, 4) + LittleBytes(WAVE_FORMAT_EXTENSIBLE, 2) + LittleBytes(h.channels, 2)
    + LittleBytes(h.samplesPerSec, 4) + LittleBytes(h.avgBytesPerSec, 4)
    + LittleBytes(h.blockAlign, 2) + LittleBytes(h.bitsPerSample, 2) + LittleBytes(22, 2)
    + LittleBytes(h.validBits, 2) + LittleBytes(h.channelMask, 4)
    + LittleBytes(WAVE_FORMAT_PCM, 2) + GUID_TAIL
  }

  function EncodeData(dataLen: nat): (s: seq<byte>)
    ensures |s| == 8
  {
    DATA + LittleBytes(dataLen, 4)
  }

  /** What a reader finds in a file. */
  datatype Content = Content(header: Header, payload: seq<byte>)

  /** A reader for the extensible form: it checks the chunk identifiers, the length and the code of the
      format chunk, the sub-format, and both chunk lengths against the length of the file. */
  function Parse(f: seq<byte>): Option<Content> {
    if |f| < HEADER_LEN then None
    else
      var h := Header(LittleValue(Field(f, 4, 4)), LittleValue(Field(f, 22, 2)),
                      LittleValue(Field(f, 24, 4)), LittleValue(Field(f, 28, 4)),
                      LittleValue(Field(f, 32, 2)), LittleValue(Field(f, 34, 2)),
                      LittleValue(Field(f, 38, 2)), LittleValue(Field(f, 40, 4)),
                      LittleValue(Field(f, 64, 4)));
      if && Field(f, 0, 4) == RIFF && Field(f, 8, 4) == WAVE && Field(f, 12, 4) == FMT
         && LittleValue(Field(f, 16, 4)) == 40
         && LittleValue(Field(f, 20, 2)) == WAVE_FORMAT_EXTENSIBLE
         && LittleValue(Field(f, 36, 2)) == 22
         && LittleValue(Field(f, 44, 2)) == WAVE_FORMAT_PCM && Field(f, 46, 14) == GUID_TAIL
         && Field(f, 60, 4) == DATA
         && h.riffLen == |f| - 8 && h.dataLen == |f| - HEADER_LEN
      then Some(Content(h, f[HEADER_LEN..]))
      else None
  }

  /** The fields as the file can hold them. */
  function Truncated(h: Header): Header {
    Header(h.riffLen % U32, h.channels % U16, h.samplesPerSec % U32, h.avgBytesPerSec % U32,
           h.blockAlign % U16, h.bitsPerSample % U16, h.validBits % U16, h.channelMask % U32,
           h.dataLen % U32)
  }

  /** Every field of an encoded header is where the reader looks for it. */
  lemma EncodedFields(h: Header, payload: seq<byte>)
    ensures var f := Encode(h) + payload;
            && Field(f, 0, 4) == RIFF && Field(f, 4, 4) == LittleBytes(h.riffLen, 4)
            && Field(f, 8, 4) == WAVE && Field(f, 12, 4) == FMT
            && Field(f, 16, 4) == LittleBytes(40, 4)
            && Field(f, 20, 2) == LittleBytes(WAVE_FORMAT_EXTENSIBLE, 2)
            && Field(f, 22, 2) == LittleBytes(h.channels, 2)
            && Field(f, 24, 4) == LittleBytes(h.samplesPerSec, 4)
            && Field(f, 28, 4) == LittleBytes(h.avgBytesPerSec, 4)
            && Field(f, 32, 2) == LittleBytes(h.blockAlign, 2)
            && Field(f, 34, 2) == LittleBytes(h.bitsPerSample, 2)
            && Field(f, 36, 2) == LittleBytes(22, 2)
            && Field(f, 38, 2) == LittleBytes(h.validBits, 2)
            && Field(f, 40, 4) == LittleBytes(h.channelMask, 4)
            && Field(f, 44, 2) == LittleBytes(WAVE_FORMAT_PCM, 2)
            && Field(f, 46, 14) == GUID_TAIL && Field(f, 60, 4) == DATA
            && Field(f, 64, 4) == LittleBytes(h.dataLen, 4)
            && f[HEADER_LEN..] == payload
  {
    hide LittleBytes;
  }

  /** The header byte by byte: the chunk identifiers and fixed fields. */
  lemma HeaderLayout(h: Header, payload: seq<byte>)
    ensures var f := Encode(h) + payload;
            && |f| == 68 + |payload| && f[68..] == payload
            && f[0..4] == [0x52, 0x49, 0x46, 0x46] && f[8..12] == [0x57, 0x41, 0x56, 0x45]
            && f[12..16] == [0x66, 0x6d, 0x74, 0x20] && f[16..20] == [40, 0, 0, 0]
            && f[20..22] == [0xfe, 0xff] && f[36..38] == [22, 0]
            && f[44..46] == [0x01, 0x00]
            && f[46..60] == [0x00, 0x00, 0x00, 0x00, 0x10, 0x00, 0x80, 0x00, 0x00, 0xaa, 0x00, 0x38, 0x9b, 0x71]
            && f[60..64] == [0x64, 0x61, 0x74, 0x61]
  {
    EncodedFields(h, payload);
    FixedFields();
    hide Encode, LittleBytes;
    FieldIsSlice(Encode(h) + payload);
  }

  lemma FieldIsSlice(f: seq<byte>)
    ensures forall from: nat, n: nat :: from + n <= |f| ==> Field(f, from, n) == f[from..from + n]
  {
  }

  /** Where the other fields are, and what they hold. */
  lemma HeaderFieldsAt(h: Header, payload: seq<byte>)
    ensures var f := Encode(h) + payload;
            && LittleValue(f[4..8]) == h.riffLen % 0x1_0000_0000
            && LittleValue(f[22..24]) == h.channels % 0x1_0000
            && LittleValue(f[24..28]) == h.samplesPerSec % 0x1_0000_0000
            && LittleValue(f[28..32]) == h.avgBytesPerSec % 0x1_0000_0000
            && LittleValue(f[32..34]) == h.blockAlign % 0x1_0000
            && LittleValue(f[34..36]) == h.bitsPerSample % 0x1_0000
            && LittleValue(f[38..40]) == h.validBits % 0x1_0000
            && LittleValue(f[40..44]) == h.channelMask % 0x1_0000_0000
            && LittleValue(f[64..68]) == h.dataLen % 0x1_0000_0000
  {
    EncodedFields(h, payload);
    Widths();
    LittleBytesValue(h.riffLen, 4);
    LittleBytesValue(h.channels, 2);
    LittleBytesValue(h.samplesPerSec, 4);
    LittleBytesValue(h.avgBytesPerSec, 4);
    LittleBytesValue(h.blockAlign, 2);
    LittleBytesValue(h.bitsPerSample, 2);
    LittleBytesValue(h.validBits, 2);
    LittleBytesValue(h.channelMask, 4);
    LittleBytesValue(h.dataLen, 4);
    hide Encode, LittleBytes, LittleValue, Pow256, Field;
    FieldIsSlice(Encode(h) + payload);
  }

  lemma FixedFields()
    ensures LittleBytes(40, 4) == [40, 0, 0, 0] && LittleBytes(22, 2) == [22, 0]
    ensures LittleBytes(WAVE_FORMAT_EXTENSIBLE, 2) == [0xfe, 0xff] && LittleBytes(WAVE_FORMAT_PCM, 2) == [1, 0]
  {
    NoMoreBytes();
    assert LittleBytes(0xff, 1) == [0xff];
    hide LittleBytes;
    FirstByte(40, 3);
    FirstByte(22, 1);
    FirstByte(0xfffe, 1);
    FirstByte(1, 1);
  }

  lemma NoMoreBytes()
    ensures LittleBytes(0, 1) == [0] && LittleBytes(0, 3) == [0, 0, 0]
  {
    assert LittleBytes(0, 2) == [0, 0];
  }

  lemma FirstByte(x: nat, n: nat)
    ensures LittleBytes(x, n + 1) == [x % 256] + LittleBytes(x / 256, n)
  {
  }

  /** A reader recovers the fields of a header whose lengths fit the file, and the payload. */
  lemma ParseEncoded(h: Header, payload: seq<byte>)
    requires h.riffLen % U32 == HEADER_LEN + |payload| - 8 && h.dataLen % U32 == |payload|
    ensures Parse(Encode(h) + payload) == Some(Content(Truncated(h), payload))
  {
    EncodedFields(h, payload);
    Widths();
    LittleBytesValue(h.riffLen, 4);
    LittleBytesValue(40, 4);
    LittleBytesValue(WAVE_FORMAT_EXTENSIBLE, 2);
    LittleBytesValue(h.channels, 2);
    LittleBytesValue(h.samplesPerSec, 4);
    LittleBytesValue(h.avgBytesPerSec, 4);
    LittleBytesValue(h.blockAlign, 2);
    LittleBytesValue(h.bitsPerSample, 2);
    LittleBytesValue(22, 2);
    LittleBytesValue(h.validBits, 2);
    LittleBytesValue(h.channelMask, 4);
    LittleBytesValue(WAVE_FORMAT_PCM, 2);
    LittleBytesValue(h.dataLen, 4);
    hide Encode, LittleBytes, LittleValue, Field, Pow256;
  }

  lemma PatchMiddle(a: seq<byte>, was: seq<byte>, now: seq<byte>, b: seq<byte>)
    requires |was| == |now|
    ensures Patch(a + was + b, |a|, now) == a + now + b
  {
  }

  /** Patching the two lengths into a file gives the file with the header that has these lengths; no
      other byte changes. */
  lemma PatchedLengths(h: Header, payload: seq<byte>, riffLen: nat, dataLen: nat)
    ensures Patch(Patch(Encode(h) + payload, 4, LittleBytes(riffLen, 4)), 64, LittleBytes(dataLen, 4)) ==
            Encode(h.(riffLen := riffLen, dataLen := dataLen)) + payload
  {
    hide LittleBytes, EncodeFormat, Patch;
    var format := EncodeFormat(h);
    assert format == EncodeFormat(h.(riffLen := riffLen, dataLen := dataLen)) by {
      SameFormat(h, riffLen, dataLen);
    }
    var middle := WAVE + format + DATA;
    assert Encode(h) + payload ==
           RIFF + LittleBytes(h.riffLen, 4) + (middle + LittleBytes(h.dataLen, 4) + payload);
    PatchMiddle(RIFF, LittleBytes(h.riffLen, 4), LittleBytes(riffLen, 4),
                middle + LittleBytes(h.dataLen, 4) + payload);
    var front := RIFF + LittleBytes(riffLen, 4) + middle;
    assert RIFF + LittleBytes(riffLen, 4) + (middle + LittleBytes(h.dataLen, 4) + payload) ==
           front + LittleBytes(h.dataLen, 4) + payload;
    PatchMiddle(front, LittleBytes(h.dataLen, 4), LittleBytes(dataLen, 4), payload);
  }

  lemma SameFormat(h: Header, riffLen: nat, dataLen: nat)
    ensures EncodeFormat(h) == EncodeFormat(h.(riffLen := riffLen, dataLen := dataLen))
  {
  }

  // ----- The driver

  /** The header for a format: derived fields as the 16-bit and 32-bit fields of the original hold
      them. */
  function HeaderFor(channels: nat, bits: nat, rate: nat, mask: nat, size: nat): Header
    requires size >= HEADER_LEN
  {
    var wChannels, wBits := Low16(channels), Low16((bits + 7) / 8 * 8);
    Header(size - 8, wChannels, Low32(rate), Low32(wChannels * Low32(rate) * (wBits / 8)),
           Low16(wChannels * (wBits / 8)), wBits, Low16(bits), Low32(mask), size - HEADER_LEN)
  }

  /** A length written to its place in the header. */
  function SetLength(f: seq<byte>, at: nat, x: nat): (r: seq<byte>)
    requires at + 4 <= |f|
    ensures |r| == |f|
  {
    Patch(f, at, LittleBytes(x, 4))
  }

  /** The file with both its lengths in the header. */
  function WithLengths(f: seq<byte>): (r: seq<byte>)
    requires HEADER_LEN <= |f|
    ensures |r| == |f|
  {
    SetLength(SetLength(f, 4, |f| - 8), 64, |f| - HEADER_LEN)
  }

  /** The file after an open, plays of `buffers` and a close. */
  function Finished(channels: nat, bits: nat, rate: nat, mask: nat, buffers: seq<seq<byte>>): seq<byte> {
    var written := Encode(HeaderFor(channels, bits, rate, mask, 0x7fffffff)) + Concat(buffers);
    WithLengths(written)
  }

  lemma FinishedIs(channels: nat, bits: nat, rate: nat, mask: nat, buffers: seq<seq<byte>>)
    ensures var payload := Concat(buffers);
            Finished(channels, bits, rate, mask, buffers) ==
            Encode(HeaderFor(channels, bits, rate, mask, HEADER_LEN + |payload|)) + payload
  {
    hide Encode, Concat, Patch, LittleBytes;
    var payload := Concat(buffers);
    var size := HEADER_LEN + |payload|;
    PatchedLengths(HeaderFor(channels, bits, rate, mask, 0x7fffffff), payload, size - 8, size - HEADER_LEN);
    OtherLengths(channels, bits, rate, mask, size);
    hide HeaderFor;
  }

  lemma OtherLengths(channels: nat, bits: nat, rate: nat, mask: nat, size: nat)
    requires HEADER_LEN <= size
    ensures HeaderFor(channels, bits, rate, mask, size) ==
            HeaderFor(channels, bits, rate, mask, 0x7fffffff).(riffLen := size - 8, dataLen := size - HEADER_LEN)
  {
    hide Low16, Low32;
  }

  /** Round trip: a reader recovers the format, a RIFF length of the size less 8, a data length of the
      size less the header, and the buffers that were played. The file can be read if and only if
      its RIFF length fits 32 bits. */
  lemma {:induction false} WavRoundTrip(channels: nat, bits: nat, rate: nat, mask: nat, buffers: seq<seq<byte>>)
    ensures Parse(Finished(channels, bits, rate, mask, buffers)) ==
            if HEADER_LEN + |Concat(buffers)| - 8 < U32 then
              Some(Content(HeaderFor(channels, bits, rate, mask, HEADER_LEN + |Concat(buffers)|), Concat(buffers)))
            else None
  {
    hide Parse, Encode, Concat, Finished, HeaderFor, Truncated;
    var payload := Concat(buffers);
    var size := HEADER_LEN + |payload|;
    FinishedIs(channels, bits, rate, mask, buffers);
    if size - 8 < U32 {
      HeaderFits(channels, bits, rate, mask, size);
      ParseEncoded(HeaderFor(channels, bits, rate, mask, size), payload);
    } else {
      HeaderLengths(channels, bits, rate, mask, size);
      LengthDoesNotFit(HeaderFor(channels, bits, rate, mask, size), payload);
    }
  }

  lemma HeaderLengths(channels: nat, bits: nat, rate: nat, mask: nat, size: nat)
    requires HEADER_LEN <= size
    ensures var h := HeaderFor(channels, bits, rate, mask, size);
            h.riffLen == size - 8 && h.dataLen == size - HEADER_LEN
  {
  }

  lemma LengthDoesNotFit(h: Header, payload: seq<byte>)
    requires h.riffLen == HEADER_LEN + |payload| - 8 >= U32
    ensures Parse(Encode(h) + payload) == None
  {
    EncodedFields(h, payload);
    Widths();
    LittleBytesValue(h.riffLen, 4);
    hide Encode, LittleBytes, LittleValue, Field, Pow256;
  }

  lemma HeaderFits(channels: nat, bits: nat, rate: nat, mask: nat, size: nat)
    requires HEADER_LEN <= size < U32 + 8
    ensures var h := HeaderFor(channels, bits, rate, mask, size);
            Truncated(h) == h && h.riffLen == size - 8 && h.dataLen == size - HEADER_LEN
  {
    hide Low16, Low32;
  }

  // ----- Conformance

  /** Chunks follow one another from `at` to the end of the file, each with a byte of zero after its data
      if the length of these is odd: the rule for chunks of the resource interchange file format. */
  predicate Chunks(f: seq<byte>, at: nat)
    requires at <= |f|
    decreases |f| - at
  {
    at == |f|
    || (at + 8 <= |f|
        && var n := LittleValue(Field(f, at + 4, 4));
        && at + 8 + n + n % 2 <= |f|
        && (n % 2 == 1 ==> f[at + 8 + n] == 0)
        && Chunks(f, at + 8 + n + n % 2))
  }

  /** A WAVE form: the RIFF length is that of what follows it, and what follows consists of chunks. */
  predicate Conforms(f: seq<byte>) {
    && |f| >= 12 && Field(f, 0, 4) == RIFF && Field(f, 8, 4) == WAVE
    && LittleValue(Field(f, 4, 4)) == |f| - 8
    && Chunks(f, 12)
  }

  lemma ChunkStep(f: seq<byte>, at: nat, n: nat)
    requires at + 8 <= |f| && n == LittleValue(Field(f, at + 4, 4))
    ensures Chunks(f, at) <==>
            && at + 8 + n + n % 2 <= |f|
            && (n % 2 == 1 ==> f[at + 8 + n] == 0)
            && Chunks(f, at + 8 + n + n % 2)
  {
  }

  /** A finished file conforms if and only if the payload has an even number of bytes (and the RIFF length
      fits 32 bits): the writer adds no padding. */
  lemma WavConforms(channels: nat, bits: nat, rate: nat, mask: nat, buffers: seq<seq<byte>>)
    ensures Conforms(Finished(channels, bits, rate, mask, buffers)) <==>
            |Concat(buffers)| % 2 == 0 && HEADER_LEN + |Concat(buffers)| - 8 < U32
  {
    hide Encode, Concat, Finished, HeaderFor, Chunks;
    var payload := Concat(buffers);
    FinishedIs(channels, bits, rate, mask, buffers);
    HeaderLengths(channels, bits, rate, mask, HEADER_LEN + |payload|);
    EncodedConforms(HeaderFor(channels, bits, rate, mask, HEADER_LEN + |payload|), payload);
  }

  lemma EncodedConforms(h: Header, payload: seq<byte>)
    requires h.riffLen == HEADER_LEN + |payload| - 8 && h.dataLen == |payload|
    ensures Conforms(Encode(h) + payload) <==> |payload| % 2 == 0 && h.riffLen < U32
  {
    EncodedLengths(h, payload);
    hide Encode, LittleValue, Field, Chunks;
    if h.riffLen < U32 {
      FormChunks(Encode(h) + payload, |payload|);
    }
  }

  lemma EncodedLengths(h: Header, payload: seq<byte>)
    ensures var f := Encode(h) + payload;
            && Field(f, 0, 4) == RIFF && Field(f, 8, 4) == WAVE
            && LittleValue(Field(f, 4, 4)) == h.riffLen % U32
            && LittleValue(Field(f, 16, 4)) == 40 && LittleValue(Field(f, 64, 4)) == h.dataLen % U32
  {
    EncodedFields(h, payload);
    Widths();
    LittleBytesValue(h.riffLen, 4);
    LittleBytesValue(40, 4);
    LittleBytesValue(h.dataLen, 4);
    hide Encode, LittleBytes, LittleValue, Field, Pow256;
  }

  /** The format chunk has an even length, so all hangs on the data chunk. */
  lemma FormChunks(f: seq<byte>, n: nat)
    requires |f| == HEADER_LEN + n
    requires LittleValue(Field(f, 16, 4)) == 40 && LittleValue(Field(f, 64, 4)) == n
    ensures Chunks(f, 12) <==> n % 2 == 0
  {
    hide LittleValue, Field, Chunks;
    ChunkStep(f, 12, 40);
    ChunkStep(f, 60, n);
    ChunksEnd(f);
  }

  lemma ChunksEnd(f: seq<byte>)
    ensures Chunks(f, |f|)
  {
  }

  /** One frame of 8-bit mono can be read but does not conform. */
  lemma OneByteDoesNotConform(rate: nat, mask: nat, sample: byte)
    ensures Parse(Finished(1, 8, rate, mask, [[sample]])).Some?
    ensures !Conforms(Finished(1, 8, rate, mask, [[sample]]))
  {
    assert Concat([[sample]]) == [sample] + Concat([]) == [sample];
    hide *;
    WavRoundTrip(1, 8, rate, mask, [[sample]]);
    WavConforms(1, 8, rate, mask, [[sample]]);
  }

  // ----- Closing

  /** What a close makes of a file: the lengths are written at their places, as far as there is room, and
      however little is there. */
  function Closed(contents: seq<byte>, seekable: bool, capacity: nat): seq<byte> {
    if !seekable then contents
    else
      var first := Stored(contents, 4, LittleBytes(Low32(|contents| - 8), 4), capacity);
      if capacity < 8 then first
      else Stored(first, 64, LittleBytes(Low32(|contents| - HEADER_LEN), 4), capacity)
  }

  /** In a file with a whole header the lengths are patched. */
  lemma ClosedWhole(contents: seq<byte>, capacity: nat)
    requires HEADER_LEN <= |contents| <= capacity
    ensures Closed(contents, true, capacity) == WithLengths(contents)
  {
    hide SetLength, Closed, Stored, LittleBytes, Low32;
    var first := SetLength(contents, 4, |contents| - 8);
    StoredLength(contents, 4, |contents| - 8, capacity);
    StoredLength(first, 64, |contents| - HEADER_LEN, capacity);
    ClosedInSteps(contents, first, capacity);
  }

  lemma ClosedInSteps(contents: seq<byte>, first: seq<byte>, capacity: nat)
    requires 8 <= capacity
    requires first == Stored(contents, 4, LittleBytes(Low32(|contents| - 8), 4), capacity)
    ensures Closed(contents, true, capacity) ==
            Stored(first, 64, LittleBytes(Low32(|contents| - HEADER_LEN), 4), capacity)
  {
    hide LittleBytes, Stored, Low32;
  }

  lemma StoredLength(contents: seq<byte>, at: nat, x: nat, capacity: nat)
    requires at + 4 <= |contents| <= capacity
    ensures Stored(contents, at, LittleBytes(Low32(x), 4), capacity) == SetLength(contents, at, x)
  {
    hide LittleBytes, Stored, Patch, Low32;
    LowWord(x);
    StoredInside(contents, at, LittleBytes(x, 4), capacity);
  }

  /** Closing a file that nothing was written to leaves it empty if and only if it cannot be positioned, or
      has no room where the first length goes. */
  lemma ClosedEmpty(seekable: bool, capacity: nat)
    ensures Closed([], seekable, capacity) == [] <==> !seekable || capacity <= 4
  {
    hide LittleBytes;
  }

  /** A close byte by byte: the two lengths where they go, as far as there is room; what was there; and
      zeros in between. */
  lemma ClosedBytes(contents: seq<byte>, capacity: nat)
    requires |contents| <= capacity
    ensures var f := Closed(contents, true, capacity);
            var riff, data := LittleBytes(Low32(|contents| - 8), 4), LittleBytes(Low32(|contents| - 68), 4);
            && |f| == (if capacity > 64 && |contents| < 68 then Min(68, capacity)
                       else if capacity > 4 && |contents| < 8 then Min(8, capacity) else |contents|)
            && forall k :: 0 <= k < |f| ==>
                 f[k] == if 4 <= k < 8 then riff[k - 4]
                         else if 64 <= k < 68 then data[k - 64]
                         else if k < |contents| then contents[k] else 0
  {
    hide LittleBytes, Low32;
  }

  lemma ClosedKeeps(contents: seq<byte>, seekable: bool, capacity: nat)
    requires |contents| <= capacity
    ensures |contents| <= |Closed(contents, seekable, capacity)| <= capacity
  {
    hide LittleBytes;
  }

  /** Otherwise, if there is room, zeros and the lengths of a file shorter than its header are in it, and
      no reader takes it. */
  lemma ClosedEmptyFile(capacity: nat)
    requires HEADER_LEN <= capacity
    ensures Closed([], true, capacity) ==
            Fill(4, 0) + [0xf8, 0xff, 0xff, 0xff] + Fill(56, 0) + [0xbc, 0xff, 0xff, 0xff]
    ensures Parse(Closed([], true, capacity)) == None
  {
    BogusLengths();
    hide LittleBytes;
    var f := Closed([], true, capacity);
    assert Field(f, 0, 4)[0] != RIFF[0];
  }

  lemma BogusLengths()
    ensures LittleBytes(Low32(-8), 4) == [0xf8, 0xff, 0xff, 0xff]
    ensures LittleBytes(Low32(-HEADER_LEN), 4) == [0xbc, 0xff, 0xff, 0xff]
  {
    assert Low32(-8) == 0xfffffff8 && Low32(-HEADER_LEN) == 0xffffffbc;
    AllOnes();
    OnesAbove(0xf8);
    OnesAbove(0xbc);
  }

  lemma AllOnes()
    ensures LittleBytes(0xffffff, 3) == [0xff, 0xff, 0xff]
  {
    assert LittleBytes(0xff, 1) == [0xff];
    assert LittleBytes(0xffff, 2) == [0xff, 0xff];
  }

  lemma OnesAbove(x: byte)
    requires LittleBytes(0xffffff, 3) == [0xff, 0xff, 0xff]
    ensures LittleBytes(0xffffff00 + x, 4) == [x, 0xff, 0xff, 0xff]
  {
    assert (0xffffff00 + x) / 256 == 0xffffff && (0xffffff00 + x) % 256 == x;
  }

  // ----- The writer

  class Writer {
    const file: File
    var wave: Header

    ghost predicate Valid()
      reads this, file
    {
      file.Valid() && file.position == |file.contents|
    }

    constructor (file: File)
      requires file.Valid() && file.contents == [] && file.position == 0
      ensures Valid() && this.file == file
    {
      this.file := file;
      wave := Header(0, 0, 0, 0, 0, 0, 0, 0, 0);
    }

    /** The fields of the header for a format, with a bogus size. */
    method SetHeader(channels: nat, bits: nat, rate: nat, mask: nat)
      modifies this
      ensures wave == HeaderFor(channels, bits, rate, mask, 0x7fffffff)
    {
      hide Low16, Low32;
      var size := 0x7fffffff;
      wave := wave.(channels := Low16(channels), bitsPerSample := Low16((bits + 7) / 8 * 8),
                    validBits := Low16(bits), samplesPerSec := Low32(rate));
      wave := wave.(riffLen := size - 8);
      wave := wave.(avgBytesPerSec := Low32(wave.channels * wave.samplesPerSec * (wave.bitsPerSample / 8)));
      wave := wave.(blockAlign := Low16(wave.channels * (wave.bitsPerSample / 8)));
      wave := wave.(channelMask := Low32(mask), dataLen := size - HEADER_LEN);
    }

    /** `ao_wav_open`: write a header with a bogus size. */
    method Open(channels: nat, bits: nat, rate: nat, mask: nat) returns (ok: bool)
      requires Valid() && file.contents == []
      modifies this, file
      ensures Valid() && (ok <==> HEADER_LEN <= file.capacity)
      ensures wave == HeaderFor(channels, bits, rate, mask, 0x7fffffff)
      ensures file.contents == Clip(Encode(wave), file.capacity)
    {
      hide HeaderFor, Encode, Stored, Clip;
      SetHeader(channels, bits, rate, mask);
      var buf := EncodeHeader(wave);
      var n := file.Write(buf);
      assert [] + buf == buf;
      StoredAtEnd([], buf, file.capacity);
      ok := n == HEADER_LEN;
    }

    /** The three chunk headers are written to the buffer one after the other. */
    static method EncodeHeader(h: Header) returns (s: seq<byte>)
      ensures s == Encode(h)
    {
      hide EncodeRiff, EncodeFormat, EncodeData;
      var buf := new byte[HEADER_LEN](_ => 0);
      PutRiff(buf, h.riffLen);
      PutFormat(buf, h);
      PutData(buf, h.dataLen);
      s := buf[..];
    }

    static method PutRiff(buf: array<byte>, riffLen: nat)
      requires buf.Length == HEADER_LEN
      modifies buf
      ensures buf[..12] == EncodeRiff(riffLen)
    {
      hide LittleBytes;
      Put(buf, 0, RIFF);
      Put(buf, 4, LittleBytes(riffLen, 4));
      Put(buf, 8, WAVE);
    }

    static method PutFormat(buf: array<byte>, h: Header)
      requires buf.Length == HEADER_LEN
      modifies buf
      ensures buf[..60] == old(buf[..12]) + EncodeFormat(h)
    {
      hide LittleBytes;
      PutFormatFront(buf, h);
      Put(buf, 34, LittleBytes(h.bitsPerSample, 2));
      Put(buf, 36, LittleBytes(22, 2));
      Put(buf, 38, LittleBytes(h.validBits, 2));
      Put(buf, 40, LittleBytes(h.channelMask, 4));
      Put(buf, 44, LittleBytes(WAVE_FORMAT_PCM, 2));
      Put(buf, 46, GUID_TAIL);
    }

    static method PutFormatFront(buf: array<byte>, h: Header)
      requires buf.Length == HEADER_LEN
      modifies buf
      ensures buf[..34] == old(buf[..12]) + (
                FMT + LittleBytes(40, 4) + LittleBytes(WAVE_FORMAT_EXTENSIBLE, 2) + LittleBytes(h.channels, 2)
                + LittleBytes(h.samplesPerSec, 4) + LittleBytes(h.avgBytesPerSec, 4)
                + LittleBytes(h.blockAlign, 2))
    {
      hide LittleBytes;
      Put(buf, 12, FMT);
      Put(buf, 16, LittleBytes(40, 4));
      Put(buf, 20, LittleBytes(WAVE_FORMAT_EXTENSIBLE, 2));
      Put(buf, 22, LittleBytes(h.channels, 2));
      Put(buf, 24, LittleBytes(h.samplesPerSec, 4));
      Put(buf, 28, LittleBytes(h.avgBytesPerSec, 4));
      Put(buf, 32, LittleBytes(h.blockAlign, 2));
    }

    static method PutData(buf: array<byte>, dataLen: nat)
      requires buf.Length == HEADER_LEN
      modifies buf
      ensures buf[..] == old(buf[..60]) + EncodeData(dataLen)
    {
      hide LittleBytes;
      Put(buf, 60, DATA);
      Put(buf, 64, LittleBytes(dataLen, 4));
      assert buf[..68] == buf[..];
    }

    /** `ao_wav_play` */
    method Play(samples: seq<byte>) returns (ok: bool)
      requires Valid()
      modifies file
      ensures Valid()
      ensures ok <==> |old(file.contents)| + |samples| <= file.capacity
      ensures file.contents == Clip(old(file.contents) + samples, file.capacity)
    {
      var n := file.Write(samples);
      StoredAtEnd(old(file.contents), samples, file.capacity);
      ok := n == |samples|;
    }

    /** `ao_wav_close`: go back and set the lengths, of whatever has been written. */
    method Close() returns (ok: bool)
      requires Valid()
      modifies this, file
      ensures ok <==> file.seekable && HEADER_LEN <= file.capacity
      ensures file.contents == Closed(old(file.contents), file.seekable, file.capacity)
    {
      hide LittleBytes, Overwritten;
      var size := file.Tell();
      if size < 0 {
        return false;
      }
      wave := wave.(riffLen := Low32(size - 8), dataLen := Low32(size - HEADER_LEN));
      ok := file.Seek(4);
      if !ok {
        return;
      }
      var n := file.Write(LittleBytes(wave.riffLen, 4));
      if n < 4 {
        return false;
      }
      ok := file.Seek(64);
      if !ok {
        return;
      }
      n := file.Write(LittleBytes(wave.dataLen, 4));
      ok := n == 4;
    }
  }
}
