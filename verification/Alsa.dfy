/** The ALSA driver: widening samples through a scratch buffer, and writing frames until the device
    has taken them all. */
module Alsa {
  import opened Bytes
  import opened Interleave

  const PAD_SIZE := 4096

  /** The frames to be padded, and the bytes that one transfer takes, are counted as ints. */
  const INT_LIMIT := 0x8000_0000

  /** Byte `b` of padded sample `i`: the sample's own bytes are its most significant ones, which come
      first on a big-endian machine and last on a little-endian one. */
  function PadByte(samples: seq<byte>, i: nat, b: nat, ibw: nat, obw: nat, machine: Endian): byte
    requires ibw <= obw && b < obw && At(i, 0, ibw) + ibw <= |samples|
  {
    match machine
    case Big => if b < ibw then samples[At(i, b, ibw)] else 0
    case Little => if b >= obw - ibw then samples[At(i, b - (obw - ibw), ibw)] else 0
  }

  /** The first `n` samples, padded from `ibw` to `obw` bytes each. */
  ghost function Padded(samples: seq<byte>, n: nat, ibw: nat, obw: nat, machine: Endian): (out: seq<byte>)
    requires 0 < ibw <= obw && n * ibw <= |samples|
    ensures |out| == n * obw
  {
    seq(n * obw, k requires 0 <= k < n * obw =>
          SampleOf(k, n, ibw, obw);
          PadByte(samples, Quotient(k, obw), Remainder(k, obw), ibw, obw, machine))
  }

  lemma SampleOf(k: nat, n: nat, ibw: nat, obw: nat)
    requires 0 < ibw <= obw && k < n * obw
    ensures Quotient(k, obw) < n && At(Quotient(k, obw), 0, ibw) + ibw <= n * ibw
    ensures k == At(Quotient(k, obw), Remainder(k, obw), obw)
  {
    Divided(k, obw);
    hide Quotient, Remainder;
    ByteInRange(Quotient(k, obw), Remainder(k, obw), n, obw);
    ByteInRange(Quotient(k, obw), 0, n, ibw);
  }

  lemma PaddedAt(samples: seq<byte>, n: nat, ibw: nat, obw: nat, machine: Endian, i: nat, b: nat)
    requires 0 < ibw <= obw && n * ibw <= |samples| && i < n && b < obw
    ensures At(i, b, obw) < n * obw && At(i, 0, ibw) + ibw <= |samples|
    ensures Padded(samples, n, ibw, obw, machine)[At(i, b, obw)] == PadByte(samples, i, b, ibw, obw, machine)
  {
    ByteInRange(i, b, n, obw);
    ByteInRange(i, 0, n, ibw);
    DivModUnique(At(i, b, obw), i, b, obw);
  }

  /** Sample `i` of a buffer of `w`-byte samples. */
  function Sample(buf: seq<byte>, i: nat, w: nat): (s: seq<byte>)
    requires At(i, 0, w) + w <= |buf|
    ensures |s| == w && forall b :: 0 <= b < w ==> s[b] == buf[At(i, b, w)]
  {
    buf[At(i, 0, w)..At(i, 0, w) + w]
  }

  /** A padded sample is the sample and zeros, on the side of its least significant bytes. */
  lemma PaddedSample(samples: seq<byte>, n: nat, ibw: nat, obw: nat, machine: Endian, i: nat)
    requires 0 < ibw <= obw && n * ibw <= |samples| && i < n
    ensures At(i, 0, obw) + obw <= n * obw && At(i, 0, ibw) + ibw <= |samples|
    ensures Sample(Padded(samples, n, ibw, obw, machine), i, obw) ==
            if machine == Big then Sample(samples, i, ibw) + Fill(obw - ibw, 0)
            else Fill(obw - ibw, 0) + Sample(samples, i, ibw)
  {
    ByteInRange(i, 0, n, obw);
    ByteInRange(i, 0, n, ibw);
    var p := Sample(Padded(samples, n, ibw, obw, machine), i, obw);
    hide Padded, Sample;
    forall b | 0 <= b < obw ensures p[b] == PadByte(samples, i, b, ibw, obw, machine) {
      PaddedAt(samples, n, ibw, obw, machine, i, b);
    }
  }

  /** Padding multiplies a sample by 256 to the power of the bytes added, in the machine's byte order
      and read with or without a sign. */
  lemma PaddedValue(samples: seq<byte>, n: nat, ibw: nat, obw: nat, machine: Endian, i: nat)
    requires 0 < ibw <= obw && n * ibw <= |samples| && i < n
    ensures At(i, 0, obw) + obw <= n * obw && At(i, 0, ibw) + ibw <= |samples|
    ensures var was := Value(machine, Sample(samples, i, ibw));
            var now := Value(machine, Sample(Padded(samples, n, ibw, obw, machine), i, obw));
            && now == was * Pow256(obw - ibw)
            && Signed(now, obw) == Signed(was, ibw) * Pow256(obw - ibw)
  {
    hide Padded, Sample, Signed, Value, Pow256, At, Fill;
    PaddedSample(samples, n, ibw, obw, machine, i);
    ScaledSample(machine, Sample(samples, i, ibw), obw - ibw);
  }

  lemma ScaledSample(machine: Endian, s: seq<byte>, more: nat)
    ensures var now := Value(machine, if machine == Big then s + Fill(more, 0) else Fill(more, 0) + s);
            && now == Value(machine, s) * Pow256(more)
            && Signed(now, |s| + more) == Signed(Value(machine, s), |s|) * Pow256(more)
  {
    hide Signed, Value, Pow256, Fill;
    ScaledValue(machine, s, more);
    SignedScales(Value(machine, s), |s|, more);
  }

  lemma ScaledValue(machine: Endian, s: seq<byte>, more: nat)
    ensures Value(machine, if machine == Big then s + Fill(more, 0) else Fill(more, 0) + s) ==
            Value(machine, s) * Pow256(more)
  {
    hide BigValue, LittleValue, Pow256, Fill;
    var zeros := Fill(more, 0);
    ZeroValue(machine, more);
    if machine == Big {
      BigAppend(s, zeros);
    } else {
      LittleAppend(zeros, s);
    }
  }

  lemma {:induction false} Pow256Adds(m: nat, n: nat)
    ensures Pow256(m + n) == Pow256(m) * Pow256(n)
  {
    if m > 0 {
      Pow256Adds(m - 1, n);
      MulAssoc(256, Pow256(m - 1), Pow256(n));
    }
  }

  lemma ScaledOrder(v: int, p: int, q: int)
    requires q > 0
    ensures 2 * (v * q) >= p * q <==> 2 * v >= p
    ensures (v - p) * q == v * q - p * q
  {
    assert 2 * (v * q) == (2 * v) * q;
    if 2 * v >= p {
      MulMono(p, 2 * v, q);
    } else {
      MulMono(2 * v + 1, p, q);
    }
  }

  lemma SignedScales(v: nat, width: nat, more: nat)
    ensures Signed(v * Pow256(more), width + more) == Signed(v, width) * Pow256(more)
  {
    Pow256Adds(width, more);
    ScaledOrder(v, Pow256(width), Pow256(more));
    hide Pow256;
  }

  /** Padding in chunks is padding all at once. */
  lemma PaddedSplit(samples: seq<byte>, m: nat, n: nat, ibw: nat, obw: nat, machine: Endian)
    requires 0 < ibw <= obw && n * ibw <= |samples| && m <= n
    ensures m * ibw <= n * ibw && (n - m) * ibw <= |samples[m * ibw..]|
    ensures Padded(samples, n, ibw, obw, machine) ==
            Padded(samples, m, ibw, obw, machine) + Padded(samples[m * ibw..], n - m, ibw, obw, machine)
  {
    FramesLeft(n, m, ibw);
    FramesLeft(n, m, obw);
    var rest := samples[m * ibw..];
    var whole, first, second := Padded(samples, n, ibw, obw, machine),
        Padded(samples, m, ibw, obw, machine), Padded(rest, n - m, ibw, obw, machine);
    hide Padded, PadByte, At, Quotient, Remainder;
    forall k | 0 <= k < n * obw ensures whole[k] == (first + second)[k] {
      SampleOf(k, n, ibw, obw);
      var i, b := Quotient(k, obw), Remainder(k, obw);
      PaddedAt(samples, n, ibw, obw, machine, i, b);
      if i < m {
        PaddedAt(samples, m, ibw, obw, machine, i, b);
      } else {
        ByteInRange(i, b, m, obw);
        PaddedAt(rest, n - m, ibw, obw, machine, i - m, b);
        ShiftSamples(m, i, b, obw);
        ShiftedPadByte(samples, m, i, b, ibw, obw, machine);
      }
    }
  }

  lemma ShiftSamples(m: nat, i: nat, b: nat, w: nat)
    requires m <= i
    ensures At(i, b, w) == m * w + At(i - m, b, w)
  {
    assert i * w == m * w + (i - m) * w;
  }

  lemma ShiftedPadByte(samples: seq<byte>, m: nat, i: nat, b: nat, ibw: nat, obw: nat, machine: Endian)
    requires m <= i && ibw <= obw && b < obw && At(i, 0, ibw) + ibw <= |samples| && m * ibw <= |samples|
    ensures At(i - m, 0, ibw) + ibw <= |samples[m * ibw..]|
    ensures PadByte(samples[m * ibw..], i - m, b, ibw, obw, machine) == PadByte(samples, i, b, ibw, obw, machine)
  {
    ShiftSamples(m, i, 0, ibw);
    if machine == Big && b < ibw {
      ShiftSamples(m, i, b, ibw);
    } else if machine == Little && b >= obw - ibw {
      ShiftSamples(m, i, b - (obw - ibw), ibw);
    }
  }

  /** The first `frames` frames, padded. */
  ghost function PaddedFrames(samples: seq<byte>, frames: nat, channels: nat, ibw: nat, obw: nat, machine: Endian): (out: seq<byte>)
    requires 0 < ibw <= obw && Size(frames, channels, ibw) <= |samples|
    ensures |out| == Size(frames, channels, obw)
  {
    Padded(samples, frames * channels, ibw, obw, machine)
  }

  lemma PaddedFramesSplit(samples: seq<byte>, f: nat, g: nat, channels: nat, ibw: nat, obw: nat, machine: Endian)
    requires 0 < ibw <= obw && Size(f + g, channels, ibw) <= |samples|
    ensures Size(f + g, channels, ibw) == Size(f, channels, ibw) + Size(g, channels, ibw)
    ensures PaddedFrames(samples, f + g, channels, ibw, obw, machine) ==
            PaddedFrames(samples, f, channels, ibw, obw, machine) +
            PaddedFrames(samples[Size(f, channels, ibw)..], g, channels, ibw, obw, machine)
  {
    hide Padded;
    assert (f + g) * channels == f * channels + g * channels;
    assert (f * channels + g * channels) * ibw == f * channels * ibw + g * channels * ibw;
    PaddedSplit(samples, f * channels, f * channels + g * channels, ibw, obw, machine);
  }

  // ----- The scratch buffer, filled column by column

  /** The byte of a padded sample that is written in round `j`. */
  function Column(j: nat, ibw: nat, obw: nat, machine: Endian): nat
    requires ibw <= obw && j < obw
  {
    match machine
    case Big => j
    case Little => if j < ibw then obw - ibw + j else j - ibw
  }

  /** The rounds before `j` are done. */
  ghost predicate ColumnsDone(buf: seq<byte>, samples: seq<byte>, n: nat, ibw: nat, obw: nat, machine: Endian, j: nat)
    requires 0 < ibw <= obw && j <= obw && n * ibw <= |samples|
  {
    forall i, c {:trigger At(i, Column(c, ibw, obw, machine), obw)} | 0 <= i < n && 0 <= c < j ::
      && At(i, Column(c, ibw, obw, machine), obw) < |buf| && At(i, 0, ibw) + ibw <= |samples|
      && buf[At(i, Column(c, ibw, obw, machine), obw)] ==
         PadByte(samples, i, Column(c, ibw, obw, machine), ibw, obw, machine)
  }

  /** Only bytes of column `b` of the first `n` samples differ. */
  ghost predicate OnlyColumn(before: seq<byte>, after: seq<byte>, n: nat, b: nat, w: nat)
    requires w > 0
  {
    && |before| == |after|
    && forall k :: 0 <= k < |after| ==> after[k] == before[k] || (k < n * w && k % w == b)
  }

  /** One round writes one column and leaves the others. */
  lemma RoundDone(before: seq<byte>, after: seq<byte>, samples: seq<byte>, n: nat, ibw: nat, obw: nat, machine: Endian, j: nat)
    requires 0 < ibw <= obw && j < obw && n * ibw <= |samples|
    requires ColumnsDone(before, samples, n, ibw, obw, machine, j)
    requires OnlyColumn(before, after, n, Column(j, ibw, obw, machine), obw)
    requires forall i | 0 <= i < n ::
               At(i, Column(j, ibw, obw, machine), obw) < |after| && At(i, 0, ibw) + ibw <= |samples| &&
               after[At(i, Column(j, ibw, obw, machine), obw)] ==
               PadByte(samples, i, Column(j, ibw, obw, machine), ibw, obw, machine)
    ensures ColumnsDone(after, samples, n, ibw, obw, machine, j + 1)
  {
    hide PadByte, At;
    forall i, c | 0 <= i < n && 0 <= c < j + 1
      ensures At(i, Column(c, ibw, obw, machine), obw) < |after| && At(i, 0, ibw) + ibw <= |samples|
      ensures after[At(i, Column(c, ibw, obw, machine), obw)] ==
              PadByte(samples, i, Column(c, ibw, obw, machine), ibw, obw, machine)
    {
      if c < j {
        ColumnOf(i, Column(c, ibw, obw, machine), obw);
      }
    }
  }

  lemma ColumnOf(i: nat, b: nat, w: nat)
    requires b < w
    ensures At(i, b, w) % w == b && At(i, b, w) / w == i
  {
    DivModUnique(At(i, b, w), i, b, w);
  }

  /** When all rounds are done the buffer holds the padded samples. */
  lemma AllColumnsDone(buf: seq<byte>, samples: seq<byte>, n: nat, ibw: nat, obw: nat, machine: Endian)
    requires 0 < ibw <= obw && n * ibw <= |samples| && n * obw <= |buf|
    requires ColumnsDone(buf, samples, n, ibw, obw, machine, obw)
    ensures buf[..n * obw] == Padded(samples, n, ibw, obw, machine)
  {
    hide PadByte, Padded;
    forall k | 0 <= k < n * obw ensures buf[k] == Padded(samples, n, ibw, obw, machine)[k] {
      SampleOf(k, n, ibw, obw);
      var i, b := Quotient(k, obw), Remainder(k, obw);
      PaddedAt(samples, n, ibw, obw, machine, i, b);
      var c := if machine == Big then b else if b >= obw - ibw then b - (obw - ibw) else b + ibw;
      assert Column(c, ibw, obw, machine) == b;
      assert buf[At(i, Column(c, ibw, obw, machine), obw)] == PadByte(samples, i, b, ibw, obw, machine);
    }
  }

  /** One round of the copy: byte `s0` of every sample becomes byte `d0` of every padded sample. */
  method CopyColumn(target: array<byte>, d0: nat, obw: nat, source: seq<byte>, s0: nat, ibw: nat, n: nat)
    requires d0 < obw && s0 < ibw && n * obw <= target.Length && n * ibw <= |source|
    modifies target
    ensures OnlyColumn(old(target[..]), target[..], n, d0, obw)
    ensures forall i | 0 <= i < n ::
              At(i, d0, obw) < target.Length && At(i, s0, ibw) < |source| &&
              target[At(i, d0, obw)] == source[At(i, s0, ibw)]
  {
    var d, s := d0, s0;
    AtStart(d0, obw);
    AtStart(s0, ibw);
    hide At;
    for i := 0 to n
      invariant d == At(i, d0, obw) && s == At(i, s0, ibw)
      invariant OnlyColumn(old(target[..]), target[..], n, d0, obw)
      invariant forall k | 0 <= k < i ::
                  At(k, d0, obw) < target.Length && At(k, s0, ibw) < |source| &&
                  target[At(k, d0, obw)] == source[At(k, s0, ibw)]
    {
      ByteInRange(i, d0, n, obw);
      ByteInRange(i, s0, n, ibw);
      ColumnOf(i, d0, obw);
      forall k | 0 <= k < i ensures At(k, d0, obw) != d {
        ColumnOf(k, d0, obw);
      }
      target[d] := source[s];
      AtNext(i, d0, obw);
      AtNext(i, s0, ibw);
      s := s + ibw;
      d := d + obw;
    }
  }

  /** One round of the padding: byte `d0` of every padded sample becomes zero. */
  method ZeroColumn(target: array<byte>, d0: nat, obw: nat, n: nat)
    requires d0 < obw && n * obw <= target.Length
    modifies target
    ensures OnlyColumn(old(target[..]), target[..], n, d0, obw)
    ensures forall i | 0 <= i < n :: At(i, d0, obw) < target.Length && target[At(i, d0, obw)] == 0
  {
    var d := d0;
    AtStart(d0, obw);
    hide At;
    for i := 0 to n
      invariant d == At(i, d0, obw)
      invariant OnlyColumn(old(target[..]), target[..], n, d0, obw)
      invariant forall k | 0 <= k < i :: At(k, d0, obw) < target.Length && target[At(k, d0, obw)] == 0
    {
      ByteInRange(i, d0, n, obw);
      ColumnOf(i, d0, obw);
      forall k | 0 <= k < i ensures At(k, d0, obw) != d {
        ColumnOf(k, d0, obw);
      }
      target[d] := 0;
      AtNext(i, d0, obw);
      d := d + obw;
    }
  }

  lemma AtStart(b: nat, w: nat)
    ensures At(0, b, w) == b
  {
  }

  lemma AtNext(i: nat, b: nat, w: nat)
    ensures At(i + 1, b, w) == At(i, b, w) + w
  {
    assert (i + 1) * w == i * w + w;
  }

  /** Fill the scratch buffer with `n` padded samples. */
  method Pad(target: array<byte>, source: seq<byte>, n: nat, ibw: nat, obw: nat, machine: Endian)
    requires 0 < ibw <= obw && n * obw <= target.Length && n * ibw <= |source|
    modifies target
    ensures target[..n * obw] == Padded(source, n, ibw, obw, machine)
  {
    hide ColumnsDone, OnlyColumn;
    var endianp := machine == Big;
    NothingDone(target[..], source, n, ibw, obw, machine);
    var j := 0;
    while j < ibw
      invariant 0 <= j <= ibw && ColumnsDone(target[..], source, n, ibw, obw, machine, j)
    {
      ghost var before := target[..];
      CopyColumn(target, if endianp then j else obw - ibw + j, obw, source, j, ibw, n);
      CopiedColumn(before, target[..], source, n, ibw, obw, machine, j);
      j := j + 1;
    }
    while j < obw
      invariant ibw <= j <= obw && ColumnsDone(target[..], source, n, ibw, obw, machine, j)
    {
      ghost var before := target[..];
      ZeroColumn(target, if endianp then j else j - ibw, obw, n);
      ZeroedColumn(before, target[..], source, n, ibw, obw, machine, j);
      j := j + 1;
    }
    AllColumnsDone(target[..], source, n, ibw, obw, machine);
    assert target[..][..n * obw] == target[..n * obw];
  }

  lemma NothingDone(buf: seq<byte>, samples: seq<byte>, n: nat, ibw: nat, obw: nat, machine: Endian)
    requires 0 < ibw <= obw && n * ibw <= |samples|
    ensures ColumnsDone(buf, samples, n, ibw, obw, machine, 0)
  {
  }

  lemma CopiedColumn(before: seq<byte>, after: seq<byte>, samples: seq<byte>, n: nat, ibw: nat, obw: nat, machine: Endian, j: nat)
    requires 0 < ibw <= obw && j < ibw && n * ibw <= |samples|
    requires ColumnsDone(before, samples, n, ibw, obw, machine, j)
    requires OnlyColumn(before, after, n, Column(j, ibw, obw, machine), obw)
    requires forall i | 0 <= i < n ::
               At(i, Column(j, ibw, obw, machine), obw) < |after| && At(i, j, ibw) < |samples| &&
               after[At(i, Column(j, ibw, obw, machine), obw)] == samples[At(i, j, ibw)]
    ensures ColumnsDone(after, samples, n, ibw, obw, machine, j + 1)
  {
    var b := Column(j, ibw, obw, machine);
    forall i | 0 <= i < n
      ensures At(i, b, obw) < |after| && At(i, 0, ibw) + ibw <= |samples|
      ensures after[At(i, b, obw)] == PadByte(samples, i, b, ibw, obw, machine)
    {
      ByteInRange(i, 0, n, ibw);
      assert At(i, b, obw) < |after| && after[At(i, b, obw)] == samples[At(i, j, ibw)];
    }
    hide At, PadByte, ColumnsDone, OnlyColumn, Column;
    RoundDone(before, after, samples, n, ibw, obw, machine, j);
  }

  lemma ZeroedColumn(before: seq<byte>, after: seq<byte>, samples: seq<byte>, n: nat, ibw: nat, obw: nat, machine: Endian, j: nat)
    requires 0 < ibw <= j < obw && n * ibw <= |samples|
    requires ColumnsDone(before, samples, n, ibw, obw, machine, j)
    requires OnlyColumn(before, after, n, Column(j, ibw, obw, machine), obw)
    requires forall i | 0 <= i < n ::
               At(i, Column(j, ibw, obw, machine), obw) < |after| &&
               after[At(i, Column(j, ibw, obw, machine), obw)] == 0
    ensures ColumnsDone(after, samples, n, ibw, obw, machine, j + 1)
  {
    var b := Column(j, ibw, obw, machine);
    forall i | 0 <= i < n
      ensures At(i, b, obw) < |after| && At(i, 0, ibw) + ibw <= |samples|
      ensures after[At(i, b, obw)] == PadByte(samples, i, b, ibw, obw, machine)
    {
      ByteInRange(i, 0, n, ibw);
      assert At(i, b, obw) < |after| && after[At(i, b, obw)] == 0;
    }
    hide At, PadByte, ColumnsDone, OnlyColumn, Column;
    RoundDone(before, after, samples, n, ibw, obw, machine, j);
  }

  // ----- The device

  /** What `writei` answers: it takes some frames, it is interrupted or not ready, it fails and the
      failure is recovered from, or it fails for good. */
  datatype Transfer = Took(frames: nat) | NotReady | Recovered | Broken

  /** The frames of `n` bytes, as bytes. */
  function WholeBytes(n: nat, frameSize: nat): (m: nat)
    requires frameSize > 0
    ensures m <= n
  {
    n / frameSize * frameSize
  }

  /** All of the `n` bytes but a fraction of a frame. */
  lemma WholeBytesLaw(n: nat, frameSize: nat)
    requires frameSize > 0
    ensures n - WholeBytes(n, frameSize) < frameSize && WholeBytes(n, frameSize) % frameSize == 0
  {
    var m := n / frameSize * frameSize;
    assert n == m + n % frameSize;
    DivModUnique(m, n / frameSize, 0, frameSize);
  }

  /** Sample `i` of `sent` is sample `i` of the client times 256 to the power of the bytes added. */
  ghost predicate Scaled(samples: seq<byte>, sent: seq<byte>, i: nat, ibw: nat, obw: nat, machine: Endian)
    requires ibw <= obw
  {
    && i * ibw + ibw <= |samples| && i * obw + obw <= |sent|
    && Value(machine, sent[i * obw..i * obw + obw]) ==
       Value(machine, samples[i * ibw..i * ibw + ibw]) * Pow256(obw - ibw)
  }

  lemma PaddedIsScaled(samples: seq<byte>, n: nat, ibw: nat, obw: nat, machine: Endian, i: nat)
    requires 0 < ibw <= obw && n * ibw <= |samples| && i < n
    ensures Scaled(samples, Padded(samples, n, ibw, obw, machine), i, ibw, obw, machine)
  {
    hide Padded, Value, Pow256;
    PaddedValue(samples, n, ibw, obw, machine, i);
  }

  class Device {
    const machine: Endian
    const channels: nat
    /** The width of a sample as the client has it, and as the device wants it. */
    const ibytewidth: nat
    const padoutw: nat
    const padbuffer: array<byte>
    const padding: bool

    /** What the device will answer; when this runs out it takes everything. */
    var transfers: seq<Transfer>

    /** The bytes the device has taken. */
    ghost var wire: seq<byte>

    /** At least one padded frame fits in the scratch buffer. */
    ghost predicate Valid() {
      && channels > 0 && 0 < ibytewidth
      && (padding ==> ibytewidth <= padoutw && padbuffer.Length == PAD_SIZE && padoutw * channels <= PAD_SIZE)
    }

    constructor (machine: Endian, channels: nat, ibytewidth: nat, padding: bool, padoutw: nat, transfers: seq<Transfer>)
      requires channels > 0 && 0 < ibytewidth
      requires padding ==> ibytewidth <= padoutw && padoutw * channels <= 4096
      ensures Valid() && fresh(padbuffer) && padbuffer.Length == 4096 && wire == []
    {
      this.machine, this.channels, this.ibytewidth := machine, channels, ibytewidth;
      this.padding, this.padoutw, this.transfers := padding, padoutw, transfers;
      padbuffer := new byte[PAD_SIZE](_ => 0);
      wire := [];
    }

    /** `writei` of `len` frames of `frameSize` bytes; -1 when the call is to be repeated, less when the
        device is broken. */
    method Writei(data: seq<byte>, len: nat, frameSize: nat) returns (ret: int)
      requires frameSize > 0 && len * frameSize <= |data|
      modifies this`transfers, this`wire
      ensures -2 <= ret <= len
      ensures ret >= 0 ==> ret * frameSize <= |data| && wire == old(wire) + data[..ret * frameSize]
      ensures ret < 0 ==> wire == old(wire)
      ensures ret == -2 ==> Broken in old(transfers)
      ensures old(transfers) == [] ==> ret == len
      ensures transfers == if old(transfers) == [] then [] else old(transfers)[1..]
    {
      if transfers == [] {
        ret := len;
      } else {
        match transfers[0] {
          case Took(n) => ret := Min(n, len);
          case NotReady => ret := -1;
          case Recovered => ret := -1;
          case Broken => ret := -2;
        }
        transfers := transfers[1..];
      }
      if ret >= 0 {
        MulMono(ret, len, frameSize);
        wire := wire + data[..ret * frameSize];
      }
    }

    /** `ao_plugin_playi`: go on until all frames are taken, or the device is broken. */
    method PlayInner(data: seq<byte>, frameSize: nat) returns (ok: bool)
      requires frameSize > 0 && |data| < INT_LIMIT
      modifies this`transfers, this`wire
      ensures ok ==> wire == old(wire) + data[..WholeBytes(|data|, frameSize)]
      ensures old(wire) <= wire <= old(wire) + data[..WholeBytes(|data|, frameSize)]
      ensures !ok ==> Broken in old(transfers)
      ensures forall a :: a in transfers ==> a in old(transfers)
    {
      var len := |data| / frameSize;
      var ptr := 0;
      ghost var all := WholeBytes(|data|, frameSize);
      while len > 0
        invariant 0 <= len && 0 <= ptr && ptr + len * frameSize == all
        invariant wire == old(wire) + data[..ptr]
        invariant forall a :: a in transfers ==> a in old(transfers)
        decreases |transfers|, len
      {
        var err := Writei(data[ptr..], len, frameSize);
        if err == -1 {
          continue;
        }
        if err < 0 {
          return false;
        }
        FramesLeft(len, err, frameSize);
        assert data[..ptr + err * frameSize] == data[..ptr] + data[ptr..][..err * frameSize];
        len := len - err;
        ptr := ptr + err * frameSize;
      }
      return true;
    }

    /** The bytes of one client frame. */
    function SampleSize(): (n: nat)
      ensures ibytewidth > 0 && channels > 0 ==> n > 0
    {
      ibytewidth * channels
    }

    /** What the device is to get for a client buffer: its whole frames, padded if need be. */
    ghost function Output(samples: seq<byte>): seq<byte>
      requires Valid()
    {
      FrameArithmetic(|samples|, ibytewidth, channels);
      if padding then
        PaddedFrames(samples, |samples| / SampleSize(), channels, ibytewidth, padoutw, machine)
      else
        samples[..WholeBytes(|samples|, SampleSize())]
    }

    /** Without padding, the output is the buffer up to a fraction of a frame; with padding it is a
        scaled sample for each sample of each whole frame. */
    lemma OutputLaw(samples: seq<byte>)
      requires Valid()
      ensures ibytewidth * channels > 0
      ensures !padding ==>
                && Output(samples) <= samples && |Output(samples)| % (ibytewidth * channels) == 0
                && |samples| - |Output(samples)| < ibytewidth * channels
      ensures padding ==>
                && |Output(samples)| == |samples| / (ibytewidth * channels) * channels * padoutw
                && forall i :: 0 <= i < |samples| / (ibytewidth * channels) * channels ==>
                     Scaled(samples, Output(samples), i, ibytewidth, padoutw, machine)
    {
      FrameArithmetic(|samples|, ibytewidth, channels);
      WholeBytesLaw(|samples|, ibytewidth * channels);
      hide WholeBytes;
      if padding {
        var n := |samples| / (ibytewidth * channels) * channels;
        hide Scaled, Padded;
        forall i | 0 <= i < n ensures Scaled(samples, Output(samples), i, ibytewidth, padoutw, machine) {
          PaddedIsScaled(samples, n, ibytewidth, padoutw, machine, i);
        }
      }
    }

    /** `ao_plugin_play`. A fraction of a frame at the end is dropped, and nothing else. */
    method Play(samples: seq<byte>) returns (ok: bool)
      requires Valid() && |samples| < 0x1_0000_0000
      requires if padding then |samples| / SampleSize() < 0x8000_0000 else |samples| < 0x8000_0000
      modifies this`transfers, this`wire, padbuffer
      ensures ok ==> wire == old(wire) + Output(samples)
      ensures ibytewidth * channels > 0 && old(wire) <= wire
      ensures ok && !padding ==>
                var sent := wire[|old(wire)|..];
                && sent <= samples && |sent| % (ibytewidth * channels) == 0
                && |samples| - |sent| < ibytewidth * channels
      ensures ok && padding ==>
                var sent := wire[|old(wire)|..];
                && |sent| == |samples| / (ibytewidth * channels) * channels * padoutw
                && forall i :: 0 <= i < |samples| / (ibytewidth * channels) * channels ==>
                     Scaled(samples, sent, i, ibytewidth, padoutw, machine)
      ensures old(wire) <= wire <= old(wire) + Output(samples)
      ensures !ok ==> Broken in old(transfers)
    {
      FrameArithmetic(|samples|, ibytewidth, channels);
      if padding {
        ok := PlayPadded(samples);
      } else {
        ok := PlayInner(samples, SampleSize());
      }
      OutputLaw(samples);
      hide Output, Scaled, SampleSize;
      if ok {
        Sent(old(wire), Output(samples), wire);
      }
    }

    /** One chunk of the padding loop, of `frames` frames. */
    method PlayChunk(samples: seq<byte>, frames: nat) returns (ok: bool)
      requires Valid() && padding
      requires Size(frames, channels, ibytewidth) <= |samples| && Size(frames, channels, padoutw) <= PAD_SIZE
      modifies this`transfers, this`wire, padbuffer
      ensures ok ==> wire == old(wire) + PaddedFrames(samples, frames, channels, ibytewidth, padoutw, machine)
      ensures old(wire) <= wire <= old(wire) + PaddedFrames(samples, frames, channels, ibytewidth, padoutw, machine)
      ensures !ok ==> Broken in old(transfers)
      ensures forall a :: a in transfers ==> a in old(transfers)
    {
      hide Padded;
      var obytes := frames * padoutw * channels;
      ObytesAre(frames, padoutw, channels);
      Pad(padbuffer, samples, frames * channels, ibytewidth, padoutw, machine);
      ok := PlayInner(padbuffer[..obytes], padoutw * channels);
    }

    /** The next chunk, after `f` of `all` frames: as many frames as fit in the scratch buffer. */
    method PlayNextChunk(samples: seq<byte>, pos: nat, ghost f: nat, ghost all: nat) returns (ok: bool, frames: nat)
      requires Valid() && padding && ibytewidth * channels > 0 && |samples| / (ibytewidth * channels) < INT_LIMIT
      requires f < all == |samples| / (ibytewidth * channels)
      requires pos == Size(f, channels, ibytewidth) <= |samples|
      modifies this`transfers, this`wire, padbuffer
      ensures f + frames <= all && 0 < frames
      ensures pos + frames * (ibytewidth * channels) == Size(f + frames, channels, ibytewidth) <= |samples|
      ensures Size(all, channels, ibytewidth) <= |samples|
      ensures var before := PaddedFrames(samples, f, channels, ibytewidth, padoutw, machine);
              var after := PaddedFrames(samples, f + frames, channels, ibytewidth, padoutw, machine);
              && before <= after <= PaddedFrames(samples, all, channels, ibytewidth, padoutw, machine)
              && (ok ==> wire == old(wire) + after[|before|..])
              && old(wire) <= wire <= old(wire) + after[|before|..]
      ensures !ok ==> Broken in old(transfers)
      ensures forall a :: a in transfers ==> a in old(transfers)
    {
      ObytesAre(0, padoutw, channels);
      OneFrameFits(padoutw, channels);
      FramesRemaining(|samples|, f, ibytewidth, channels);
      var oframes: nat := PAD_SIZE / (padoutw * channels);
      var iframes: nat := (|samples| - pos) / (ibytewidth * channels);
      frames := if oframes < iframes then oframes else iframes;
      ChunkFits(frames, padoutw, channels);
      ChunkStep(samples, f, frames, all, channels, ibytewidth, padoutw, machine);
      hide PaddedFrames, Size;
      ok := PlayChunk(samples[pos..], frames);
    }

    /** The padding loop: a page of padded frames at a time. */
    method PlayPadded(samples: seq<byte>) returns (ok: bool)
      requires Valid() && padding && |samples| / SampleSize() < INT_LIMIT
      modifies this`transfers, this`wire, padbuffer
      ensures ok ==> wire == old(wire) + Output(samples)
      ensures old(wire) <= wire <= old(wire) + Output(samples)
      ensures !ok ==> Broken in old(transfers)
    {
      FrameArithmetic(|samples|, ibytewidth, channels);
      var sampleSize := SampleSize();
      ghost var all := |samples| / sampleSize;
      ghost var output := PaddedFrames(samples, all, channels, ibytewidth, padoutw, machine);
      FramesRemaining(|samples|, 0, ibytewidth, channels);
      var pos := 0;
      ghost var f: nat := 0;
      assert PaddedFrames(samples, 0, channels, ibytewidth, padoutw, machine) == [];
      assert output == Output(samples) && sampleSize == ibytewidth * channels;
      hide PaddedFrames, Size, Output, SampleSize;
      while |samples| - pos >= sampleSize
        invariant f <= all && pos == Size(f, channels, ibytewidth) <= |samples|
        invariant PaddedFrames(samples, f, channels, ibytewidth, padoutw, machine) <= output
        invariant wire == old(wire) + PaddedFrames(samples, f, channels, ibytewidth, padoutw, machine)
        invariant forall a :: a in transfers ==> a in old(transfers)
        decreases |samples| - pos
      {
        FramesRemaining(|samples|, f, ibytewidth, channels);
        var frames;
        ghost var before := PaddedFrames(samples, f, channels, ibytewidth, padoutw, machine);
        ok, frames := PlayNextChunk(samples, pos, f, all);
        ghost var after := PaddedFrames(samples, f + frames, channels, ibytewidth, padoutw, machine);
        PrefixThrough(old(wire), before, after[|before|..], wire, output);
        if !ok {
          return;
        }
        MulMono(1, frames, sampleSize);
        f := f + frames;
        pos := pos + frames * sampleSize;
      }
      FramesRemaining(|samples|, f, ibytewidth, channels);
      ok := true;
    }
  }

  lemma Sent(before: seq<byte>, output: seq<byte>, wire: seq<byte>)
    requires wire == before + output
    ensures before <= wire && wire[|before|..] == output
  {
  }

  lemma PrefixThrough(a: seq<byte>, b: seq<byte>, c: seq<byte>, wire: seq<byte>, output: seq<byte>)
    requires a + b <= wire <= (a + b) + c && b + c <= output
    ensures a <= wire <= a + output
  {
    assert a + b + c == a + (b + c);
    assert a + (b + c) <= a + output;
  }

  lemma OneFrameFits(obw: nat, channels: nat)
    requires 0 < obw * channels <= PAD_SIZE
    ensures PAD_SIZE / (obw * channels) > 0
  {
    var w := obw * channels;
    var q := PAD_SIZE / w;
    assert q * w + PAD_SIZE % w == PAD_SIZE;
    assert q == 0 ==> q * w == 0;
  }

  lemma FramesLeft(len: nat, n: nat, w: nat)
    requires n <= len
    ensures n * w <= len * w && len * w == n * w + (len - n) * w
  {
    MulMono(n, len, w);
  }

  lemma FrameArithmetic(n: nat, ibw: nat, channels: nat)
    requires ibw > 0 && channels > 0
    ensures ibw * channels > 0
    ensures n / (ibw * channels) * channels * ibw == WholeBytes(n, ibw * channels) <= n
  {
    MulMono(1, ibw, channels);
    MulAssoc(n / (ibw * channels), channels, ibw);
  }

  lemma ObytesAre(frames: nat, obw: nat, channels: nat)
    requires obw > 0 && channels > 0
    ensures obw * channels > 0
    ensures frames * obw * channels == frames * channels * obw == WholeBytes(frames * obw * channels, obw * channels)
  {
    MulMono(1, obw, channels);
    MulAssoc(frames, obw, channels);
    MulAssoc(frames, channels, obw);
    DivModUnique(frames * (obw * channels), frames, 0, obw * channels);
  }

  /** After `f` frames, what is left holds the other frames and the same fraction of one. */
  lemma FramesRemaining(n: nat, f: nat, ibw: nat, channels: nat)
    requires ibw * channels > 0 && f <= n / (ibw * channels)
    ensures Size(f, channels, ibw) == f * (ibw * channels) <= n
    ensures (n - Size(f, channels, ibw)) / (ibw * channels) == n / (ibw * channels) - f
    ensures n - Size(f, channels, ibw) >= ibw * channels <==> f < n / (ibw * channels)
  {
    var w := ibw * channels;
    var all, left := n / w, n / w - f;
    assert n == all * w + n % w;
    FramesLeft(all, f, w);
    MulAssoc(f, channels, ibw);
    DivModUnique(n - f * w, left, n % w, w);
    if left > 0 {
      MulMono(1, left, w);
    }
  }

  lemma ChunkFits(frames: nat, obw: nat, channels: nat)
    requires obw * channels > 0 && frames <= PAD_SIZE / (obw * channels)
    ensures Size(frames, channels, obw) <= PAD_SIZE
  {
    MulMono(frames, PAD_SIZE / (obw * channels), obw * channels);
    MulAssoc(frames, channels, obw);
  }

  /** The padding of `g` more frames follows that of the first `f`, and is followed by the others. */
  lemma ChunkStep(samples: seq<byte>, f: nat, g: nat, all: nat, channels: nat, ibw: nat, obw: nat, machine: Endian)
    requires 0 < ibw <= obw && ibw * channels > 0
    requires f + g <= all == |samples| / (ibw * channels)
    ensures Size(f, channels, ibw) + Size(g, channels, ibw) == Size(f + g, channels, ibw) <= |samples|
    ensures Size(g, channels, ibw) == g * (ibw * channels)
    ensures g > 0 ==> Size(g, channels, ibw) > 0
    ensures Size(all, channels, ibw) <= |samples|
    ensures PaddedFrames(samples, f + g, channels, ibw, obw, machine) ==
            PaddedFrames(samples, f, channels, ibw, obw, machine) +
            PaddedFrames(samples[Size(f, channels, ibw)..], g, channels, ibw, obw, machine)
    ensures PaddedFrames(samples, f + g, channels, ibw, obw, machine) <=
            PaddedFrames(samples, all, channels, ibw, obw, machine)
  {
    FramesRemaining(|samples|, f + g, ibw, channels);
    FramesRemaining(|samples|, all, ibw, channels);
    FramesRemaining(|samples|, f, ibw, channels);
    FramesRemaining(|samples|, g, ibw, channels);
    MulMono(if g > 0 then 1 else 0, g, ibw * channels);
    hide PaddedFrames, Size;
    PaddedFramesSplit(samples, f, g, channels, ibw, obw, machine);
    PaddedFramesSplit(samples, f + g, all - (f + g), channels, ibw, obw, machine);
  }
}
