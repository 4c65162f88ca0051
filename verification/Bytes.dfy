/** Bytes, byte strings and the integer values of PCM samples. */
module Bytes {

  type byte = x: int | 0 <= x < 256

  /** The byte orders a sample can be stored in, once "native" has been resolved. */
  datatype Endian = Little | Big

  datatype Option<+T> = None | Some(value: T)

  function Min(a: int, b: int): int {
    if a < b then a else b
  }

  /** `n` copies of `v`, as `memset` writes them. */
  function Fill(n: nat, v: byte): (s: seq<byte>)
    ensures |s| == n && forall i :: 0 <= i < n ==> s[i] == v
  {
    seq(n, _ => v)
  }

  /** `s` with the bytes from `i` on overwritten by `b`. */
  function Patch(s: seq<byte>, i: nat, b: seq<byte>): (r: seq<byte>)
    requires i + |b| <= |s|
    ensures |r| == |s|
    ensures forall k :: 0 <= k < |s| ==> r[k] == if i <= k < i + |b| then b[k - i] else s[k]
  {
    s[..i] + b + s[i + |b|..]
  }

  /** `memcpy` */
  method CopyInto(target: array<byte>, at: nat, source: seq<byte>)
    requires at + |source| <= target.Length
    modifies target
    ensures target[..] == Patch(old(target[..]), at, source)
  {
    for i := 0 to |source|
      invariant forall k :: 0 <= k < target.Length ==>
                  target[k] == if at <= k < at + i then source[k - at] else old(target[k])
    {
      target[at + i] := source[i];
    }
  }

  /** `memset` */
  method MemSet(target: array<byte>, at: nat, v: byte, n: nat)
    requires at + n <= target.Length
    modifies target
    ensures target[..] == Patch(old(target[..]), at, Fill(n, v))
  {
    for i := 0 to n
      invariant forall k :: 0 <= k < target.Length ==>
                  target[k] == if at <= k < at + i then v else old(target[k])
    {
      target[at + i] := v;
    }
  }

  /** The byte strings of a list, one after the other. */
  function Concat(parts: seq<seq<byte>>): seq<byte> {
    if parts == [] then [] else parts[0] + Concat(parts[1..])
  }

  lemma {:induction false} ConcatSnoc(parts: seq<seq<byte>>, last: seq<byte>)
    ensures Concat(parts + [last]) == Concat(parts) + last
  {
    if parts == [] {
      assert parts + [last] == [last];
      assert Concat([last]) == last + Concat([]);
    } else {
      assert (parts + [last])[1..] == parts[1..] + [last];
      ConcatSnoc(parts[1..], last);
    }
  }

  lemma {:induction false} ConcatAppend(a: seq<seq<byte>>, b: seq<seq<byte>>)
    ensures Concat(a + b) == Concat(a) + Concat(b)
  {
    if a == [] {
      assert a + b == b;
    } else {
      assert (a + b)[1..] == a[1..] + b;
      ConcatAppend(a[1..], b);
    }
  }

  lemma ConcatNothing(parts: seq<seq<byte>>)
    ensures Concat(parts[..0]) == []
  {
  }

  lemma {:induction false} ConcatGrows(parts: seq<seq<byte>>, i: nat)
    requires i < |parts|
    ensures Concat(parts[..i + 1]) == Concat(parts[..i]) + parts[i]
    ensures |Concat(parts[..i + 1])| <= |Concat(parts)|
  {
    assert parts[..i + 1] == parts[..i] + [parts[i]];
    assert parts == parts[..i + 1] + parts[i + 1..];
    ConcatSnoc(parts[..i], parts[i]);
    ConcatAppend(parts[..i + 1], parts[i + 1..]);
  }

  /** When every part has `n` bytes, so have `|parts|` times as many all together. */
  lemma {:induction false} ConcatLength(parts: seq<seq<byte>>, n: nat)
    requires forall i :: 0 <= i < |parts| ==> |parts[i]| == n
    ensures |Concat(parts)| == |parts| * n
  {
    if parts != [] {
      ConcatLength(parts[1..], n);
      assert |parts| * n == n + (|parts| - 1) * n;
    }
  }

  function Reverse(s: seq<byte>): (r: seq<byte>)
    ensures |r| == |s| && forall i :: 0 <= i < |s| ==> r[i] == s[|s| - 1 - i]
  {
    seq(|s|, i requires 0 <= i < |s| => s[|s| - 1 - i])
  }

  /** 256 to the power `n`. */
  function Pow256(n: nat): (p: nat)
    ensures p > 0
  {
    if n == 0 then 1 else 256 * Pow256(n - 1)
  }

  /** The unsigned integer stored in `s`, most significant byte last. */
  function LittleValue(s: seq<byte>): nat {
    if s == [] then 0 else s[0] + 256 * LittleValue(s[1..])
  }

  /** The unsigned integer stored in `s`, most significant byte first. */
  function BigValue(s: seq<byte>): nat {
    if s == [] then 0 else 256 * BigValue(s[..|s| - 1]) + s[|s| - 1]
  }

  function Value(e: Endian, s: seq<byte>): nat {
    match e
    case Little => LittleValue(s)
    case Big => BigValue(s)
  }

  /** Reversing the bytes of a number exchanges the two byte orders. */
  lemma {:induction false} ReverseSwapsOrder(s: seq<byte>)
    ensures BigValue(Reverse(s)) == LittleValue(s)
    ensures LittleValue(Reverse(s)) == BigValue(s)
  {
    if s != [] {
      var n := |s| - 1;
      var r := Reverse(s);
      assert r[..n] == Reverse(s[1..]);
      assert r[n] == s[0];
      ReverseSwapsOrder(s[1..]);
      assert r[1..] == Reverse(s[..n]);
      assert r[0] == s[n];
      ReverseSwapsOrder(s[..n]);
    }
  }

  lemma {:induction false} ValueBound(e: Endian, s: seq<byte>)
    ensures Value(e, s) < Pow256(|s|)
  {
    if s != [] {
      match e {
        case Little => ValueBound(Little, s[1..]);
        case Big => ValueBound(Big, s[..|s| - 1]);
      }
    }
  }

  lemma LittleCons(x: byte, s: seq<byte>)
    ensures LittleValue([x] + s) == x + 256 * LittleValue(s)
  {
    assert ([x] + s)[1..] == s;
  }

  lemma BigSnoc(s: seq<byte>, x: byte)
    ensures BigValue(s + [x]) == 256 * BigValue(s) + x
  {
    assert (s + [x])[..|s|] == s;
  }

  lemma MulAssoc(a: int, b: int, c: int)
    ensures a * (b * c) == (a * b) * c && b * c == c * b
  {
  }

  lemma {:induction false} LittleAppend(a: seq<byte>, b: seq<byte>)
    ensures LittleValue(a + b) == LittleValue(a) + Pow256(|a|) * LittleValue(b)
  {
    hide LittleValue;
    if a == [] {
      assert a + b == b;
      assert LittleValue([]) == 0 by { EmptyValue(); }
    } else {
      assert a == [a[0]] + a[1..];
      assert a + b == [a[0]] + (a[1..] + b);
      LittleCons(a[0], a[1..] + b);
      LittleCons(a[0], a[1..]);
      LittleAppend(a[1..], b);
      MulAssoc(256, Pow256(|a| - 1), LittleValue(b));
    }
  }

  lemma EmptyValue()
    ensures LittleValue([]) == BigValue([]) == 0
  {
  }

  lemma {:induction false} BigAppend(a: seq<byte>, b: seq<byte>)
    ensures BigValue(a + b) == BigValue(a) * Pow256(|b|) + BigValue(b)
  {
    hide BigValue;
    if b == [] {
      assert a + b == a;
      assert BigValue([]) == 0 by { EmptyValue(); }
    } else {
      var n := |b| - 1;
      assert b == b[..n] + [b[n]];
      assert a + b == (a + b[..n]) + [b[n]];
      BigSnoc(a + b[..n], b[n]);
      BigSnoc(b[..n], b[n]);
      BigAppend(a, b[..n]);
      MulAssoc(256, Pow256(n), BigValue(a));
    }
  }

  lemma {:induction false} ZeroValue(e: Endian, n: nat)
    ensures Value(e, Fill(n, 0)) == 0
  {
    if n > 0 {
      assert Fill(n, 0)[1..] == Fill(n - 1, 0);
      assert Fill(n, 0)[..n - 1] == Fill(n - 1, 0);
      ZeroValue(e, n - 1);
    }
  }

  /** The integer a PCM sample stands for: 8-bit samples are unsigned, wider ones are two's
      complement. */
  function SampleValue(e: Endian, s: seq<byte>): int
    requires |s| > 0
  {
    if |s| == 1 then s[0]
    else Signed(Value(e, s), |s|)
  }

  function Signed(v: nat, width: nat): int {
    if 2 * v >= Pow256(width) then v - Pow256(width) else v
  }

  /** A sample of one byte is that byte; of more, it is the number in its bytes or that less 256 to the
      power of its width, whichever lies between minus and plus half that power. */
  lemma SampleValueLaw(e: Endian, s: seq<byte>)
    requires |s| > 0
    ensures |s| == 1 ==> SampleValue(e, s) == s[0]
    ensures |s| > 1 ==>
              var power: int := Pow256(|s|);
              && -power <= 2 * SampleValue(e, s) < power
              && SampleValue(e, s) in [Value(e, s), Value(e, s) - power]
  {
    ValueBound(e, s);
    hide Value, Pow256;
  }

  /** The number in two bytes. */
  lemma TwoByteValue(x: byte, y: byte)
    ensures var lower: int, upper: int := x, y;
            Value(Little, [x, y]) == lower + 256 * upper && Value(Big, [y, x]) == 256 * upper + lower
  {
    hide LittleValue, BigValue;
    assert [x, y] == [x] + [y] && [y] + [] == [y] && [y, x] == [y] + [x] && [] + [y] == [y];
    LittleCons(x, [y]);
    LittleCons(y, []);
    BigSnoc([y], x);
    BigSnoc([], y);
    EmptyValue();
  }

  /** The sample value that is heard as silence. */
  function SilenceValue(width: nat): int {
    if width == 1 then 128 else 0
  }

  function SilenceByte(width: nat): byte {
    if width == 1 then 128 else 0
  }

  lemma SilenceIsSilent(e: Endian, width: nat)
    requires width > 0
    ensures SampleValue(e, Fill(width, SilenceByte(width))) == SilenceValue(width)
  {
    if width > 1 {
      ZeroValue(e, width);
    }
  }

  /** A sample read in the one byte order and its reversal read in the other agree. */
  lemma SampleReverse(s: seq<byte>)
    requires |s| > 0
    ensures SampleValue(Big, Reverse(s)) == SampleValue(Little, s)
    ensures SampleValue(Little, Reverse(s)) == SampleValue(Big, s)
  {
    ReverseSwapsOrder(s);
  }
}
