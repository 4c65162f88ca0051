/** Index arithmetic of interleaved samples: byte `b` of channel `ch` in frame `f`, where a frame
    has `nch` channels of `bw` bytes each. */
module Interleave {

  /** The number of the sample within the buffer. */
  function Slot(f: nat, ch: nat, nch: nat): nat {
    f * nch + ch
  }

  function At(slot: nat, b: nat, bw: nat): nat {
    slot * bw + b
  }

  function Index(f: nat, ch: nat, b: nat, nch: nat, bw: nat): nat {
    At(Slot(f, ch, nch), b, bw)
  }

  /** The bytes that `frames` frames take. */
  function Size(frames: nat, nch: nat, bw: nat): nat {
    frames * nch * bw
  }

  lemma MulMono(a: int, b: int, c: nat)
    requires a <= b
    ensures a * c <= b * c
  {
  }

  /** Samples of different frames or channels have different numbers. */
  lemma SlotInjective(f: nat, ch: nat, f': nat, ch': nat, nch: nat)
    requires ch < nch && ch' < nch
    ensures Slot(f, ch, nch) == Slot(f', ch', nch) <==> f == f' && ch == ch'
    ensures f < f' ==> Slot(f, ch, nch) < Slot(f', ch', nch)
  {
    if f < f' {
      MulMono(f + 1, f', nch);
      assert (f + 1) * nch == f * nch + nch;
    } else if f' < f {
      MulMono(f' + 1, f, nch);
      assert (f' + 1) * nch == f' * nch + nch;
    }
  }

  lemma SlotInRange(f: nat, ch: nat, frames: nat, nch: nat)
    requires ch < nch
    ensures Slot(f, ch, nch) < frames * nch <==> f < frames
  {
    if f < frames {
      MulMono(f + 1, frames, nch);
      assert (f + 1) * nch == f * nch + nch;
    } else {
      MulMono(frames, f, nch);
    }
  }

  /** The bytes of different samples are apart. */
  lemma BytesApart(s: nat, s': nat, b': nat, bw: nat)
    requires b' < bw && s != s'
    ensures At(s', b', bw) < At(s, 0, bw) || At(s', b', bw) >= At(s, 0, bw) + bw
  {
    if s < s' {
      MulMono(s + 1, s', bw);
      assert (s + 1) * bw == s * bw + bw;
    } else {
      MulMono(s' + 1, s, bw);
      assert (s' + 1) * bw == s' * bw + bw;
    }
  }

  lemma SampleStart(f: nat, ch: nat, b: nat, nch: nat, bw: nat)
    ensures Index(f, ch, b, nch, bw) == Index(f, ch, 0, nch, bw) + b
  {
  }

  /** The bytes of one channel's samples in different frames are apart. */
  lemma FramesApart(n: nat, f: nat, ch: nat, b: nat, nch: nat, bw: nat)
    requires ch < nch && b < bw && f != n
    ensures var i := Index(n, ch, 0, nch, bw);
            Index(f, ch, b, nch, bw) < i || Index(f, ch, b, nch, bw) >= i + bw
  {
    SlotInjective(f, ch, n, ch, nch);
    BytesApart(Slot(n, ch, nch), Slot(f, ch, nch), b, bw);
  }

  lemma ByteInRange(s: nat, b: nat, n: nat, bw: nat)
    requires b < bw
    ensures At(s, b, bw) < n * bw <==> s < n
    ensures s < n ==> At(s, 0, bw) + bw <= n * bw
  {
    if s < n {
      MulMono(s + 1, n, bw);
      assert (s + 1) * bw == s * bw + bw;
    } else {
      MulMono(n, s, bw);
    }
  }

  /** Every byte of a frame lies inside the buffer exactly when the frame does. */
  lemma IndexInRange(f: nat, ch: nat, b: nat, frames: nat, nch: nat, bw: nat)
    requires ch < nch && b < bw
    ensures Index(f, ch, b, nch, bw) < Size(frames, nch, bw) <==> f < frames
  {
    SlotInRange(f, ch, frames, nch);
    ByteInRange(Slot(f, ch, nch), b, frames * nch, bw);
  }

  /** Quotient and remainder are determined by their defining equation. */
  lemma DivModUnique(k: nat, q: nat, r: nat, n: nat)
    requires n > 0 && r < n && k == q * n + r
    ensures k / n == q && k % n == r
  {
    var d := k / n - q;
    assert d * n == r - k % n;
    if d > 0 {
      MulMono(1, d, n);
    } else if d < 0 {
      MulMono(1, -d, n);
    }
  }

  function Quotient(k: nat, n: nat): nat
    requires n > 0
  {
    k / n
  }

  function Remainder(k: nat, n: nat): (r: nat)
    requires n > 0
    ensures r < n
  {
    k % n
  }

  /** The frame that byte `k` of the buffer belongs to, its channel, and its place in the sample. */
  function FrameOf(k: nat, nch: nat, bw: nat): nat
    requires nch > 0 && bw > 0
  {
    Quotient(Quotient(k, bw), nch)
  }

  function ChannelAt(k: nat, nch: nat, bw: nat): (ch: nat)
    requires nch > 0 && bw > 0
    ensures ch < nch
  {
    Remainder(Quotient(k, bw), nch)
  }

  function PlaceOf(k: nat, bw: nat): (b: nat)
    requires bw > 0
    ensures b < bw
  {
    Remainder(k, bw)
  }

  /** Different frames, channels and places have different bytes. */
  lemma IndexParts(f: nat, ch: nat, b: nat, nch: nat, bw: nat)
    requires ch < nch && b < bw
    ensures var k := Index(f, ch, b, nch, bw);
            PlaceOf(k, bw) == b && FrameOf(k, nch, bw) == f && ChannelAt(k, nch, bw) == ch
  {
    DivModUnique(Index(f, ch, b, nch, bw), Slot(f, ch, nch), b, bw);
    DivModUnique(Slot(f, ch, nch), f, ch, nch);
  }

  lemma Divided(k: nat, n: nat)
    requires n > 0
    ensures k == Quotient(k, n) * n + Remainder(k, n)
  {
  }

  /** Every byte of a buffer of whole frames belongs to one of its frames. */
  lemma PartsIndex(k: nat, frames: nat, nch: nat, bw: nat)
    requires nch > 0 && bw > 0 && k < Size(frames, nch, bw)
    ensures FrameOf(k, nch, bw) < frames
    ensures Index(FrameOf(k, nch, bw), ChannelAt(k, nch, bw), PlaceOf(k, bw), nch, bw) == k
  {
    var s := Quotient(k, bw);
    Divided(k, bw);
    Divided(s, nch);
    ByteInRange(s, PlaceOf(k, bw), frames * nch, bw);
    SlotInRange(FrameOf(k, nch, bw), ChannelAt(k, nch, bw), frames, nch);
    hide Quotient, Remainder;
  }

  /** A buffer with a byte in it has channels. */
  lemma SomeChannel(k: nat, frames: nat, nch: nat, bw: nat)
    requires k < Size(frames, nch, bw)
    ensures nch > 0
  {
    assert nch == 0 ==> frames * nch == 0;
  }
}
