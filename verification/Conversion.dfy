/** Rewriting interleaved PCM between two channel layouts and byte orders. */
module Conversion {
  import opened Bytes
  import opened Interleave

  /** How a device turns a client buffer into a driver buffer: the width of a sample, the number of
      channels on both sides, for each output channel the input channel it comes from (-1 for
      none), and whether the bytes of each sample are reversed. */
  datatype Wiring = Wiring(bytewidth: nat, inputChannels: nat, outputChannels: nat,
                           permute: Option<seq<int>>, swap: bool)
  {
    /** Without a permutation output channel `j` is input channel `j`, so there must be one. */
    ghost predicate Valid() {
      && 1 <= bytewidth <= 4
      && inputChannels > 0
      && (swap ==> bytewidth > 1)
      && match permute
         case None => outputChannels <= inputChannels
         case Some(p) =>
           |p| == outputChannels && forall j :: 0 <= j < |p| ==> -1 <= p[j] < inputChannels
    }

    function Source(j: nat): int
      requires permute.Some? ==> j < |permute.value|
    {
      if permute.Some? then permute.value[j] else j
    }

    /** The number of frames in a client buffer of `n` bytes. */
    function Frames(n: nat): nat
      requires bytewidth > 0 && inputChannels > 0
    {
      Quotient(Quotient(n, bytewidth), inputChannels)
    }

    /** A client buffer of `n` bytes holds whole frames only. */
    ghost predicate Whole(n: nat)
      requires bytewidth > 0 && inputChannels > 0
    {
      n == Size(Frames(n), inputChannels, bytewidth)
    }

    /** Byte `b` of the sample that output channel `j` plays in frame `f`. */
    ghost function OutByte(samples: seq<byte>, f: nat, j: nat, b: nat): byte
      requires Valid() && Whole(|samples|)
      requires f < Frames(|samples|) && j < outputChannels && b < bytewidth
    {
      var c := Source(j);
      if c < 0 then SilenceByte(bytewidth)
      else
        var at := if swap then bytewidth - 1 - b else b;
        IndexInRange(f, c, at, Frames(|samples|), inputChannels, bytewidth);
        samples[Index(f, c, at, inputChannels, bytewidth)]
    }

    /** The driver buffer that a client buffer is converted to. */
    ghost function Convert(samples: seq<byte>): (out: seq<byte>)
      requires Valid() && Whole(|samples|)
      ensures |out| == Size(Frames(|samples|), outputChannels, bytewidth)
    {
      seq(Size(Frames(|samples|), outputChannels, bytewidth),
          k requires 0 <= k < Size(Frames(|samples|), outputChannels, bytewidth) =>
            SomeChannel(k, Frames(|samples|), outputChannels, bytewidth);
            PartsIndex(k, Frames(|samples|), outputChannels, bytewidth);
            OutByte(samples, FrameOf(k, outputChannels, bytewidth), ChannelAt(k, outputChannels, bytewidth),
                    PlaceOf(k, bytewidth)))
    }
  }

  /** The bytes of the sample of channel `ch` in frame `f`. */
  function SampleBytes(buf: seq<byte>, f: nat, ch: nat, nch: nat, bw: nat): (s: seq<byte>)
    requires Index(f, ch, 0, nch, bw) + bw <= |buf|
    ensures |s| == bw
    ensures forall b :: 0 <= b < bw ==> s[b] == buf[Index(f, ch, b, nch, bw)]
  {
    buf[Index(f, ch, 0, nch, bw)..Index(f, ch, 0, nch, bw) + bw]
  }

  lemma ConvertAt(w: Wiring, samples: seq<byte>, f: nat, j: nat, b: nat)
    requires w.Valid() && w.Whole(|samples|)
    requires f < w.Frames(|samples|) && j < w.outputChannels && b < w.bytewidth
    ensures Index(f, j, b, w.outputChannels, w.bytewidth) < |w.Convert(samples)|
    ensures w.Convert(samples)[Index(f, j, b, w.outputChannels, w.bytewidth)] ==
            w.OutByte(samples, f, j, b)
  {
    IndexInRange(f, j, b, w.Frames(|samples|), w.outputChannels, w.bytewidth);
    IndexParts(f, j, b, w.outputChannels, w.bytewidth);
  }

  /** A buffer is the conversion if it has its length and its byte at every frame, channel and
      place: these cover the buffer. */
  lemma ConvertIs(w: Wiring, samples: seq<byte>, out: seq<byte>)
    requires w.Valid() && w.Whole(|samples|)
    requires |out| == Size(w.Frames(|samples|), w.outputChannels, w.bytewidth)
    requires forall f, j, b | 0 <= f < w.Frames(|samples|) && 0 <= j < w.outputChannels && 0 <= b < w.bytewidth ::
               Index(f, j, b, w.outputChannels, w.bytewidth) < |out| &&
               out[Index(f, j, b, w.outputChannels, w.bytewidth)] == w.OutByte(samples, f, j, b)
    ensures out == w.Convert(samples)
  {
    hide Index, Size;
    hide Wiring.OutByte, Wiring.Convert;
    forall k | 0 <= k < |out| ensures out[k] == w.Convert(samples)[k] {
      SomeChannel(k, w.Frames(|samples|), w.outputChannels, w.bytewidth);
      PartsIndex(k, w.Frames(|samples|), w.outputChannels, w.bytewidth);
      var f, j := FrameOf(k, w.outputChannels, w.bytewidth), ChannelAt(k, w.outputChannels, w.bytewidth);
      var b := PlaceOf(k, w.bytewidth);
      ConvertAt(w, samples, f, j, b);
      assert out[Index(f, j, b, w.outputChannels, w.bytewidth)] == w.OutByte(samples, f, j, b);
    }
  }

  // ----- One channel's pass over the buffer

  /** Byte `b` of sample `f` stands in channel `ch`. */
  ghost predicate Stands(after: seq<byte>, vals: seq<seq<byte>>, f: nat, b: nat, ch: nat, nch: nat, bw: nat)
    requires f < |vals| && b < bw
  {
    && |vals[f]| == bw
    && Index(f, ch, b, nch, bw) < |after|
    && after[Index(f, ch, b, nch, bw)] == vals[f][b]
  }

  /** The samples `vals` stand in channel `ch`, one a frame. */
  ghost predicate Written(after: seq<byte>, vals: seq<seq<byte>>, ch: nat, nch: nat, bw: nat) {
    forall f, b | 0 <= f < |vals| && 0 <= b < bw :: Stands(after, vals, f, b, ch, nch, bw)
  }

  /** Nothing but the first `n` samples of channel `ch` differs. */
  ghost predicate OnlyChannel(before: seq<byte>, after: seq<byte>, n: nat, ch: nat, nch: nat, bw: nat)
    requires bw > 0 && ch < nch
  {
    && |after| == |before|
    && forall k | 0 <= k < |after| ::
         after[k] == before[k] || (ChannelAt(k, nch, bw) == ch && FrameOf(k, nch, bw) < n)
  }

  /** `after` is `before` with the samples `vals` written to channel `ch`, one a frame, and with
      nothing else touched. */
  ghost predicate Passed(before: seq<byte>, after: seq<byte>, vals: seq<seq<byte>>,
                         ch: nat, nch: nat, bw: nat)
    requires bw > 0 && ch < nch
  {
    && |after| == |before|
    && Written(after, vals, ch, nch, bw)
    && OnlyChannel(before, after, |vals|, ch, nch, bw)
  }

  lemma PassStart(before: seq<byte>, ch: nat, nch: nat, bw: nat)
    requires bw > 0 && ch < nch
    ensures Passed(before, before, [], ch, nch, bw)
  {
  }

  /** Writing the sample of the next frame leaves those of the frames before alone. */
  lemma PassStep(before: seq<byte>, cur: seq<byte>, vals: seq<seq<byte>>, next: seq<byte>,
                 ch: nat, nch: nat, bw: nat)
    requires bw > 0 && ch < nch && |next| == bw
    requires Passed(before, cur, vals, ch, nch, bw)
    requires Index(|vals|, ch, 0, nch, bw) + bw <= |cur|
    ensures Passed(before, Patch(cur, Index(|vals|, ch, 0, nch, bw), next), vals + [next], ch, nch, bw)
  {
    hide Index, Written, OnlyChannel, Patch;
    WriteNext(cur, vals, next, ch, nch, bw);
    OnlyNext(before, cur, |vals|, next, ch, nch, bw);
  }

  lemma WriteNext(cur: seq<byte>, vals: seq<seq<byte>>, next: seq<byte>, ch: nat, nch: nat, bw: nat)
    requires bw > 0 && ch < nch && |next| == bw && Written(cur, vals, ch, nch, bw)
    requires Index(|vals|, ch, 0, nch, bw) + bw <= |cur|
    ensures Written(Patch(cur, Index(|vals|, ch, 0, nch, bw), next), vals + [next], ch, nch, bw)
  {
    hide Index;
    var n := |vals|;
    var after, all := Patch(cur, Index(n, ch, 0, nch, bw), next), vals + [next];
    forall f, b | 0 <= f < |all| && 0 <= b < bw ensures Stands(after, all, f, b, ch, nch, bw) {
      if f < n {
        assert Stands(cur, vals, f, b, ch, nch, bw);
        FramesApart(n, f, ch, b, nch, bw);
      } else {
        SampleStart(n, ch, b, nch, bw);
      }
    }
  }

  lemma OnlyNext(before: seq<byte>, cur: seq<byte>, n: nat, next: seq<byte>, ch: nat, nch: nat, bw: nat)
    requires bw > 0 && ch < nch && |next| == bw && OnlyChannel(before, cur, n, ch, nch, bw)
    requires Index(n, ch, 0, nch, bw) + bw <= |cur|
    ensures OnlyChannel(before, Patch(cur, Index(n, ch, 0, nch, bw), next), n + 1, ch, nch, bw)
  {
    hide FrameOf, ChannelAt, Index;
    var i := Index(n, ch, 0, nch, bw);
    var after := Patch(cur, i, next);
    forall k | 0 <= k < |after|
      ensures after[k] == before[k] || (ChannelAt(k, nch, bw) == ch && FrameOf(k, nch, bw) < n + 1)
    {
      if i <= k < i + bw {
        SampleStart(n, ch, k - i, nch, bw);
        IndexParts(n, ch, k - i, nch, bw);
      }
    }
  }

  // ----- The strided loops. The switch on the sample width stands inside the loops.

  /** One silent sample at `i`; 8-bit PCM is unsigned. */
  method WriteSilence(target: array<byte>, i: nat, bytewidth: nat)
    requires 1 <= bytewidth <= 4 && i + bytewidth <= target.Length
    modifies target
    ensures target[..] == Patch(old(target[..]), i, Fill(bytewidth, SilenceByte(bytewidth)))
  {
    match bytewidth {
      case 1 =>
        target[i] := 128;
      case 2 =>
        target[i] := 0;
        target[i + 1] := 0;
      case 3 =>
        target[i] := 0;
        target[i + 1] := 0;
        target[i + 2] := 0;
      case _ =>
        target[i] := 0;
        target[i + 1] := 0;
        target[i + 2] := 0;
        target[i + 3] := 0;
    }
  }

  /** One sample, from `i` in the source to `o` in the target. */
  method CopySample(target: array<byte>, o: nat, source: seq<byte>, i: nat, bytewidth: nat)
    requires 1 <= bytewidth <= 4 && o + bytewidth <= target.Length && i + bytewidth <= |source|
    modifies target
    ensures target[..] == Patch(old(target[..]), o, source[i..i + bytewidth])
  {
    match bytewidth {
      case 1 =>
        target[o] := source[i];
      case 2 =>
        target[o] := source[i];
        target[o + 1] := source[i + 1];
      case 3 =>
        target[o] := source[i];
        target[o + 1] := source[i + 1];
        target[o + 2] := source[i + 2];
      case _ =>
        target[o] := source[i];
        target[o + 1] := source[i + 1];
        target[o + 2] := source[i + 2];
        target[o + 3] := source[i + 3];
    }
  }

  /** One sample with its bytes reversed; there is no case for a width of one. */
  method CopySampleSwapped(target: array<byte>, o: nat, source: seq<byte>, i: nat, bytewidth: nat)
    requires 2 <= bytewidth <= 4 && o + bytewidth <= target.Length && i + bytewidth <= |source|
    modifies target
    ensures target[..] == Patch(old(target[..]), o, Reverse(source[i..i + bytewidth]))
  {
    match bytewidth {
      case 2 =>
        target[o] := source[i + 1];
        target[o + 1] := source[i];
      case 3 =>
        target[o] := source[i + 2];
        target[o + 1] := source[i + 1];
        target[o + 2] := source[i];
      case _ =>
        target[o] := source[i + 3];
        target[o + 1] := source[i + 2];
        target[o + 2] := source[i + 1];
        target[o + 3] := source[i];
    }
  }

  /** The samples of one channel. */
  ghost function ChannelSamples(buf: seq<byte>, frames: nat, ch: nat, nch: nat, bw: nat): (s: seq<seq<byte>>)
    requires ch < nch && bw > 0 && |buf| == Size(frames, nch, bw)
    ensures |s| == frames
  {
    seq(frames, f requires 0 <= f < frames =>
          SampleFits(f, ch, frames, nch, bw);
          SampleBytes(buf, f, ch, nch, bw))
  }

  lemma SampleFits(f: nat, ch: nat, frames: nat, nch: nat, bw: nat)
    requires ch < nch && f < frames
    ensures Index(f, ch, 0, nch, bw) + bw <= Size(frames, nch, bw)
  {
    SlotInRange(f, ch, frames, nch);
    if bw > 0 {
      ByteInRange(Slot(f, ch, nch), 0, frames * nch, bw);
    }
  }

  lemma ChannelSampleByte(buf: seq<byte>, frames: nat, ch: nat, nch: nat, bw: nat, f: nat, b: nat)
    requires ch < nch && |buf| == Size(frames, nch, bw) && f < frames && b < bw
    ensures Index(f, ch, b, nch, bw) < |buf|
    ensures var s := ChannelSamples(buf, frames, ch, nch, bw)[f];
            |s| == bw && s[b] == buf[Index(f, ch, b, nch, bw)]
  {
    hide Size, Index;
    SampleFits(f, ch, frames, nch, bw);
    SampleStart(f, ch, b, nch, bw);
  }

  /** The place of a channel's sample in the next frame is one stride further on. */
  lemma NextFrame(f: nat, ch: nat, nch: nat, bw: nat)
    ensures Index(f + 1, ch, 0, nch, bw) == Index(f, ch, 0, nch, bw) + bw * nch
  {
    assert (f + 1) * nch == f * nch + nch;
    assert (f * nch + ch + nch) * bw == (f * nch + ch) * bw + nch * bw;
  }

  function Silences(frames: nat, bw: nat): (s: seq<seq<byte>>)
    ensures |s| == frames && forall f :: 0 <= f < frames ==> s[f] == Fill(bw, SilenceByte(bw))
  {
    seq(frames, _ => Fill(bw, SilenceByte(bw)))
  }

  /** `_buffer_zero` */
  method BufferZero(target: array<byte>, och: nat, bytewidth: nat, ochannels: nat, bytes: nat,
                    ghost frames: nat)
    requires 1 <= bytewidth <= 4 && och < ochannels
    requires bytes == Size(frames, ochannels, bytewidth) <= target.Length
    modifies target
    ensures Passed(old(target[..]), target[..], Silences(frames, bytewidth), och, ochannels, bytewidth)
  {
    hide Passed, Index, Size, Patch, Silences, Fill;
    var i := och * bytewidth;
    var stride := bytewidth * ochannels;
    ghost var f, vals := 0, [];
    ghost var sample := Fill(bytewidth, SilenceByte(bytewidth));
    FirstFrame(och, ochannels, bytewidth);
    IndexInRange(0, och, 0, frames, ochannels, bytewidth);
    PassStart(target[..], och, ochannels, bytewidth);
    while i < bytes
      invariant f <= frames && i == Index(f, och, 0, ochannels, bytewidth)
      invariant i < bytes <==> f < frames
      invariant |vals| == f && forall k :: 0 <= k < f ==> vals[k] == sample
      invariant Passed(old(target[..]), target[..], vals, och, ochannels, bytewidth)
    {
      SampleFits(f, och, frames, ochannels, bytewidth);
      PassStep(old(target[..]), target[..], vals, sample, och, ochannels, bytewidth);
      WriteSilence(target, i, bytewidth);
      NextFrame(f, och, ochannels, bytewidth);
      i := i + stride;
      f, vals := f + 1, vals + [sample];
      IndexInRange(f, och, 0, frames, ochannels, bytewidth);
    }
    assert vals == Silences(frames, bytewidth);
  }

  lemma FirstFrame(ch: nat, nch: nat, bw: nat)
    ensures Index(0, ch, 0, nch, bw) == ch * bw
  {
  }

  /** `_buffer_permute` */
  method BufferPermute(target: array<byte>, och: nat, bytewidth: nat, ochannels: nat, bytes: nat,
                       source: seq<byte>, ich: nat, ichannels: nat, ghost frames: nat)
    requires 1 <= bytewidth <= 4 && och < ochannels && ich < ichannels
    requires bytes == Size(frames, ochannels, bytewidth) <= target.Length
    requires |source| == Size(frames, ichannels, bytewidth)
    modifies target
    ensures Passed(old(target[..]), target[..], ChannelSamples(source, frames, ich, ichannels, bytewidth),
                   och, ochannels, bytewidth)
  {
    hide Passed, Index, Size, Patch;
    var o := och * bytewidth;
    var i := ich * bytewidth;
    var ostride := bytewidth * ochannels;
    var istride := bytewidth * ichannels;
    ghost var f, vals := 0, [];
    ghost var samples := ChannelSamples(source, frames, ich, ichannels, bytewidth);
    FirstFrame(och, ochannels, bytewidth);
    FirstFrame(ich, ichannels, bytewidth);
    IndexInRange(0, och, 0, frames, ochannels, bytewidth);
    PassStart(target[..], och, ochannels, bytewidth);
    while o < bytes
      invariant f <= frames && o == Index(f, och, 0, ochannels, bytewidth)
      invariant i == Index(f, ich, 0, ichannels, bytewidth)
      invariant o < bytes <==> f < frames
      invariant vals == samples[..f]
      invariant Passed(old(target[..]), target[..], vals, och, ochannels, bytewidth)
    {
      SampleFits(f, och, frames, ochannels, bytewidth);
      SampleFits(f, ich, frames, ichannels, bytewidth);
      PassStep(old(target[..]), target[..], vals, samples[f], och, ochannels, bytewidth);
      CopySample(target, o, source, i, bytewidth);
      NextFrame(f, och, ochannels, bytewidth);
      NextFrame(f, ich, ichannels, bytewidth);
      o := o + ostride;
      i := i + istride;
      f, vals := f + 1, vals + [samples[f]];
      IndexInRange(f, och, 0, frames, ochannels, bytewidth);
    }
    assert vals == samples;
  }

  ghost function Reversed(samples: seq<seq<byte>>): (r: seq<seq<byte>>)
    ensures |r| == |samples| && forall f :: 0 <= f < |r| ==> r[f] == Reverse(samples[f])
  {
    seq(|samples|, f requires 0 <= f < |samples| => Reverse(samples[f]))
  }

  /** `_buffer_permute_swap` */
  method BufferPermuteSwap(target: array<byte>, och: nat, bytewidth: nat, ochannels: nat, bytes: nat,
                           source: seq<byte>, ich: nat, ichannels: nat, ghost frames: nat)
    requires 2 <= bytewidth <= 4 && och < ochannels && ich < ichannels
    requires bytes == Size(frames, ochannels, bytewidth) <= target.Length
    requires |source| == Size(frames, ichannels, bytewidth)
    modifies target
    ensures Passed(old(target[..]), target[..],
                   Reversed(ChannelSamples(source, frames, ich, ichannels, bytewidth)),
                   och, ochannels, bytewidth)
  {
    hide Passed, Index, Size, Patch, Reverse;
    var o := och * bytewidth;
    var i := ich * bytewidth;
    var ostride := bytewidth * ochannels;
    var istride := bytewidth * ichannels;
    ghost var f, vals := 0, [];
    ghost var samples := Reversed(ChannelSamples(source, frames, ich, ichannels, bytewidth));
    FirstFrame(och, ochannels, bytewidth);
    FirstFrame(ich, ichannels, bytewidth);
    IndexInRange(0, och, 0, frames, ochannels, bytewidth);
    PassStart(target[..], och, ochannels, bytewidth);
    while o < bytes
      invariant f <= frames && o == Index(f, och, 0, ochannels, bytewidth)
      invariant i == Index(f, ich, 0, ichannels, bytewidth)
      invariant o < bytes <==> f < frames
      invariant vals == samples[..f]
      invariant Passed(old(target[..]), target[..], vals, och, ochannels, bytewidth)
    {
      SampleFits(f, och, frames, ochannels, bytewidth);
      SampleFits(f, ich, frames, ichannels, bytewidth);
      PassStep(old(target[..]), target[..], vals, samples[f], och, ochannels, bytewidth);
      CopySampleSwapped(target, o, source, i, bytewidth);
      NextFrame(f, och, ochannels, bytewidth);
      NextFrame(f, ich, ichannels, bytewidth);
      o := o + ostride;
      i := i + istride;
      f, vals := f + 1, vals + [samples[f]];
      IndexInRange(f, och, 0, frames, ochannels, bytewidth);
    }
    assert vals == samples;
  }

  // ----- What the conversion means

  /** Output channel `j` plays, frame by frame, the sample of the input channel it is wired to, its
      bytes reversed if the wiring says so; a channel wired to nothing plays silence. */
  lemma ConvertSample(w: Wiring, samples: seq<byte>, f: nat, j: nat)
    requires w.Valid() && w.Whole(|samples|)
    requires f < w.Frames(|samples|) && j < w.outputChannels
    ensures Index(f, j, 0, w.outputChannels, w.bytewidth) + w.bytewidth <= |w.Convert(samples)|
    ensures w.Source(j) >= 0 ==>
              Index(f, w.Source(j), 0, w.inputChannels, w.bytewidth) + w.bytewidth <= |samples|
    ensures SampleBytes(w.Convert(samples), f, j, w.outputChannels, w.bytewidth) ==
            if w.Source(j) < 0 then Fill(w.bytewidth, SilenceByte(w.bytewidth))
            else
              var s := SampleBytes(samples, f, w.Source(j), w.inputChannels, w.bytewidth);
              if w.swap then Reverse(s) else s
  {
    hide Wiring.Convert, Index, Size, SampleBytes;
    var bw, c := w.bytewidth, w.Source(j);
    SampleFits(f, j, w.Frames(|samples|), w.outputChannels, bw);
    var out := SampleBytes(w.Convert(samples), f, j, w.outputChannels, bw);
    forall b | 0 <= b < bw ensures out[b] == w.OutByte(samples, f, j, b) {
      ConvertAt(w, samples, f, j, b);
    }
    if c < 0 {
      assert out == Fill(bw, SilenceByte(bw));
    } else {
      SampleFits(f, c, w.Frames(|samples|), w.inputChannels, bw);
      var s := SampleBytes(samples, f, c, w.inputChannels, bw);
      assert out == if w.swap then Reverse(s) else s;
    }
  }

  /** Swapping is decided by comparing the byte orders of the two sides. */
  predicate SwapNeeded(bytewidth: nat, client: Endian, driver: Endian) {
    bytewidth > 1 && client != driver
  }

  /** Meaning is preserved: the integer that the driver reads from a sample is the integer the
      client wrote to the channel it is wired to, or silence. */
  lemma ConvertPreservesValues(w: Wiring, samples: seq<byte>, client: Endian, driver: Endian, f: nat, j: nat)
    requires w.Valid() && w.Whole(|samples|) && w.swap == SwapNeeded(w.bytewidth, client, driver)
    requires f < w.Frames(|samples|) && j < w.outputChannels
    ensures Index(f, j, 0, w.outputChannels, w.bytewidth) + w.bytewidth <= |w.Convert(samples)|
    ensures w.Source(j) >= 0 ==>
              Index(f, w.Source(j), 0, w.inputChannels, w.bytewidth) + w.bytewidth <= |samples|
    ensures SampleValue(driver, SampleBytes(w.Convert(samples), f, j, w.outputChannels, w.bytewidth)) ==
            if w.Source(j) < 0 then SilenceValue(w.bytewidth)
            else SampleValue(client, SampleBytes(samples, f, w.Source(j), w.inputChannels, w.bytewidth))
  {
    hide Wiring.Convert, Index, Size, SampleValue;
    ConvertSample(w, samples, f, j);
    if w.Source(j) < 0 {
      SilenceIsSilent(driver, w.bytewidth);
    } else {
      var s := SampleBytes(samples, f, w.Source(j), w.inputChannels, w.bytewidth);
      SampleReverse(s);
      if |s| == 1 {
        OneByteSample(s, client, driver);
      }
    }
  }

  lemma OneByteSample(s: seq<byte>, client: Endian, driver: Endian)
    requires |s| == 1
    ensures SampleValue(client, s) == SampleValue(driver, s)
  {
  }

  /** The wiring leaves every byte where it is. */
  predicate Straight(w: Wiring) {
    && !w.swap && w.inputChannels == w.outputChannels
    && (w.permute.Some? ==>
          |w.permute.value| == w.outputChannels &&
          forall j :: 0 <= j < w.outputChannels ==> w.permute.value[j] == j)
  }

  /** Passing the client buffer on unchanged is what the general conversion would do. */
  lemma StraightConversion(w: Wiring, samples: seq<byte>)
    requires w.Valid() && w.Whole(|samples|) && Straight(w)
    ensures w.Convert(samples) == samples
  {
    forall f, j, b | 0 <= f < w.Frames(|samples|) && 0 <= j < w.outputChannels && 0 <= b < w.bytewidth
      ensures Index(f, j, b, w.outputChannels, w.bytewidth) < |samples|
      ensures samples[Index(f, j, b, w.outputChannels, w.bytewidth)] == w.OutByte(samples, f, j, b)
    {
      IndexInRange(f, j, b, w.Frames(|samples|), w.outputChannels, w.bytewidth);
    }
    ConvertIs(w, samples, samples);
  }

  /** An identity permutation can be dropped. */
  lemma IdentityPermutation(w: Wiring, samples: seq<byte>)
    requires w.Valid() && w.Whole(|samples|) && w.permute.Some?
    requires w.inputChannels == w.outputChannels
    requires forall j :: 0 <= j < w.outputChannels ==> w.permute.value[j] == j
    ensures w.(permute := None).Valid() && w.(permute := None).Whole(|samples|)
    ensures w.Convert(samples) == w.(permute := None).Convert(samples)
  {
    hide Wiring.Convert, Index, Size;
    var v := w.(permute := None);
    forall f, j, b | 0 <= f < w.Frames(|samples|) && 0 <= j < w.outputChannels && 0 <= b < w.bytewidth
      ensures Index(f, j, b, w.outputChannels, w.bytewidth) < |w.Convert(samples)|
      ensures w.Convert(samples)[Index(f, j, b, w.outputChannels, w.bytewidth)] == v.OutByte(samples, f, j, b)
    {
      ConvertAt(w, samples, f, j, b);
      assert w.OutByte(samples, f, j, b) == v.OutByte(samples, f, j, b);
    }
    ConvertIs(v, samples, w.Convert(samples));
  }

  lemma FramesOfSize(w: Wiring, frames: nat)
    requires w.Valid()
    ensures w.Frames(Size(frames, w.inputChannels, w.bytewidth)) == frames
    ensures w.Whole(Size(frames, w.inputChannels, w.bytewidth))
  {
    DivModUnique(Size(frames, w.inputChannels, w.bytewidth), frames * w.inputChannels, 0, w.bytewidth);
    DivModUnique(frames * w.inputChannels, frames, 0, w.inputChannels);
  }

  /** Frame `f` of the second of two buffers is frame `n + f` of both together. */
  lemma ShiftFrames(n: nat, f: nat, ch: nat, b: nat, nch: nat, bw: nat)
    ensures Index(n + f, ch, b, nch, bw) == Size(n, nch, bw) + Index(f, ch, b, nch, bw)
  {
    assert (n + f) * nch + ch == n * nch + (f * nch + ch);
    assert (n * nch + (f * nch + ch)) * bw == n * nch * bw + (f * nch + ch) * bw;
  }

  lemma SizeAdds(m: nat, n: nat, nch: nat, bw: nat)
    ensures Size(m + n, nch, bw) == Size(m, nch, bw) + Size(n, nch, bw)
  {
    assert (m + n) * nch == m * nch + n * nch;
    assert (m * nch + n * nch) * bw == m * nch * bw + n * nch * bw;
  }

  lemma WholeAdds(w: Wiring, m: nat, n: nat)
    requires w.Valid() && w.Whole(m) && w.Whole(n)
    ensures w.Whole(m + n) && w.Frames(m + n) == w.Frames(m) + w.Frames(n)
  {
    SizeAdds(w.Frames(m), w.Frames(n), w.inputChannels, w.bytewidth);
    FramesOfSize(w, w.Frames(m) + w.Frames(n));
  }

  /** How a client cuts its stream into buffers of whole frames does not matter. */
  lemma ConvertAppend(w: Wiring, a: seq<byte>, b: seq<byte>)
    requires w.Valid() && w.Whole(|a|) && w.Whole(|b|)
    ensures w.Whole(|a + b|)
    ensures w.Convert(a + b) == w.Convert(a) + w.Convert(b)
  {
    WholeAdds(w, |a|, |b|);
    var m, n := w.Frames(|a|), w.Frames(|b|);
    var out := w.Convert(a) + w.Convert(b);
    SizeAdds(m, n, w.outputChannels, w.bytewidth);
    hide Wiring.Convert, Index, Size;
    forall f, j, k | 0 <= f < m + n && 0 <= j < w.outputChannels && 0 <= k < w.bytewidth
      ensures Index(f, j, k, w.outputChannels, w.bytewidth) < |out|
      ensures out[Index(f, j, k, w.outputChannels, w.bytewidth)] == w.OutByte(a + b, f, j, k)
    {
      AppendedByte(w, a, b, f, j, k);
    }
    ConvertIs(w, a + b, out);
  }

  lemma AppendedByte(w: Wiring, a: seq<byte>, b: seq<byte>, f: nat, j: nat, k: nat)
    requires w.Valid() && w.Whole(|a|) && w.Whole(|b|) && w.Whole(|a + b|)
    requires w.Frames(|a + b|) == w.Frames(|a|) + w.Frames(|b|)
    requires f < w.Frames(|a + b|) && j < w.outputChannels && k < w.bytewidth
    ensures Index(f, j, k, w.outputChannels, w.bytewidth) < |w.Convert(a)| + |w.Convert(b)|
    ensures (w.Convert(a) + w.Convert(b))[Index(f, j, k, w.outputChannels, w.bytewidth)] ==
            w.OutByte(a + b, f, j, k)
  {
    var m, c := w.Frames(|a|), w.Source(j);
    var at := if w.swap then w.bytewidth - 1 - k else k;
    hide Wiring.Convert, Index, Size;
    if f < m {
      ConvertAt(w, a, f, j, k);
      if c >= 0 {
        IndexInRange(f, c, at, m, w.inputChannels, w.bytewidth);
      }
    } else {
      ConvertAt(w, b, f - m, j, k);
      ShiftFrames(m, f - m, j, k, w.outputChannels, w.bytewidth);
      if c >= 0 {
        ShiftFrames(m, f - m, c, at, w.inputChannels, w.bytewidth);
        IndexInRange(f - m, c, at, w.Frames(|b|), w.inputChannels, w.bytewidth);
      }
    }
  }
}
