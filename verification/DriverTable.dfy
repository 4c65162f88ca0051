/** The list of output drivers: sorting it by priority, and looking drivers up. */
module DriverTable {
  import opened Bytes
  import opened Files

  datatype Kind = Live | ToFile

  /** What a driver says about itself; `usable` is the answer of its test. */
  datatype Info = Info(kind: Kind, shortName: string, priority: int, usable: bool)

  // ----- The comparator

  /** A C int as it lies in memory: four bytes in the byte order of the machine. */
  function IntBytes(p: int, machine: Endian): (s: seq<byte>)
    ensures |s| == 4
  {
    match machine
    case Little => LittleBytes(p % U32, 4)
    case Big => BigBytes(p % U32, 4)
  }

  /** `memcmp` of two strings of the same length. */
  function MemCmp(a: seq<byte>, b: seq<byte>): int
    requires |a| == |b|
  {
    if a == [] then 0 else if a[0] != b[0] then a[0] - b[0] else MemCmp(a[1..], b[1..])
  }

  /** `_compar_driver_priority` */
  function Compare(a: Info, b: Info, machine: Endian): int {
    MemCmp(IntBytes(b.priority, machine), IntBytes(a.priority, machine))
  }

  /** What the comparator really compares: the bytes in memory order, read as one number. */
  function Key(p: int, machine: Endian): nat {
    BigValue(IntBytes(p, machine))
  }

  lemma BigCons(x: byte, s: seq<byte>)
    ensures BigValue([x] + s) == x * Pow256(|s|) + BigValue(s)
  {
    hide BigValue;
    BigAppend([x], s);
    BigSnoc([], x);
    EmptyValue();
    assert [] + [x] == [x];
  }

  /** Comparing bytes from the front is comparing big-endian numbers. */
  lemma {:induction false} MemCmpIsBigOrder(a: seq<byte>, b: seq<byte>)
    requires |a| == |b|
    ensures MemCmp(a, b) < 0 <==> BigValue(a) < BigValue(b)
    ensures MemCmp(a, b) == 0 <==> a == b
    ensures BigValue(a) == BigValue(b) <==> a == b
  {
    if a != [] {
      var x, y, s, t := a[0], b[0], a[1..], b[1..];
      assert a == [x] + s && b == [y] + t;
      BigCons(x, s);
      BigCons(y, t);
      ValueBound(Big, s);
      ValueBound(Big, t);
      MemCmpIsBigOrder(s, t);
      LeadingByte(x, y, BigValue(s), BigValue(t), Pow256(|s|));
    }
  }

  lemma LeadingByte(x: int, y: int, s: int, t: int, p: int)
    requires 0 <= s < p && 0 <= t < p
    ensures x < y ==> x * p + s < y * p + t
    ensures x > y ==> x * p + s > y * p + t
  {
    if x < y {
      assert (x + 1) * p <= y * p;
    } else if x > y {
      assert (y + 1) * p <= x * p;
    }
  }

  lemma CompareIsKeyOrder(a: Info, b: Info, machine: Endian)
    ensures Compare(a, b, machine) <= 0 <==> Key(a.priority, machine) >= Key(b.priority, machine)
  {
    MemCmpIsBigOrder(IntBytes(b.priority, machine), IntBytes(a.priority, machine));
  }

  /** For priorities from 0 to 255 the comparator puts the higher priority first, whatever the byte
      order of the machine. */
  lemma ComparatorAgrees(a: Info, b: Info, machine: Endian)
    requires 0 <= a.priority <= 255 && 0 <= b.priority <= 255
    ensures Compare(a, b, machine) <= 0 <==> a.priority >= b.priority
  {
    CompareIsKeyOrder(a, b, machine);
    SmallKey(a.priority, machine);
    SmallKey(b.priority, machine);
  }

  lemma SmallKey(p: nat, machine: Endian)
    requires p <= 255
    ensures Key(p, machine) == if machine == Big then p else p * Pow256(3)
  {
    if machine == Big {
      BigBytesValue(p, 4);
      Widths();
    } else {
      var s := IntBytes(p, Little);
      assert s == [p] + LittleBytes(0, 3);
      assert LittleBytes(0, 3) == Fill(3, 0) by {
        assert LittleBytes(0, 2) == [0, 0] by {
          assert LittleBytes(0, 1) == [0];
        }
      }
      BigCons(p, Fill(3, 0));
      ZeroValue(Big, 3);
    }
  }

  /** On a big-endian machine the comparator is right about two priorities exactly when they have the
      same sign. */
  lemma BigEndianComparator(a: Info, b: Info)
    requires IsInt(a.priority) && IsInt(b.priority)
    ensures (Compare(a, b, Big) <= 0 <==> a.priority >= b.priority) <==>
            (a.priority >= 0) == (b.priority >= 0)
  {
    CompareIsKeyOrder(a, b, Big);
    BigEndianKey(a.priority);
    BigEndianKey(b.priority);
    hide Key, Compare;
  }

  lemma BigEndianKey(p: int)
    requires IsInt(p)
    ensures Key(p, Big) == if p >= 0 then p else p + U32
  {
    hide BigValue, BigBytes, Pow256;
    BigBytesValue(p % U32, 4);
    Widths();
    assert p % U32 == if p >= 0 then p else p + U32;
  }

  /** The first position at which two strings of the same length differ. */
  function LowestDifference(s: seq<byte>, t: seq<byte>): (i: nat)
    requires |s| == |t| && s != t
    ensures i < |s| && s[i] != t[i]
    ensures forall k :: 0 <= k < i ==> s[k] == t[k]
  {
    if s[0] != t[0] then 0 else 1 + LowestDifference(s[1..], t[1..])
  }

  /** The last one. */
  function HighestDifference(s: seq<byte>, t: seq<byte>): (j: nat)
    requires |s| == |t| && s != t
    ensures j < |s| && s[j] != t[j]
    ensures forall k :: j < k < |s| ==> s[k] == t[k]
    decreases |s|
  {
    var n := |s| - 1;
    if s[n] != t[n] then n
    else
      assert s == s[..n] + [s[n]] && t == t[..n] + [t[n]];
      HighestDifference(s[..n], t[..n])
  }

  /** `memcmp` is decided by the first byte that differs. */
  lemma {:induction false} LowestDecides(s: seq<byte>, t: seq<byte>)
    requires |s| == |t| && s != t
    ensures MemCmp(s, t) < 0 <==> s[LowestDifference(s, t)] < t[LowestDifference(s, t)]
    ensures MemCmp(s, t) != 0
  {
    if s[0] == t[0] {
      LowestDecides(s[1..], t[1..]);
    }
  }

  /** A number stored with its least significant byte first is decided by the last one. */
  lemma {:induction false} HighestDecides(s: seq<byte>, t: seq<byte>)
    requires |s| == |t| && s != t
    ensures LittleValue(s) < LittleValue(t) <==> s[HighestDifference(s, t)] < t[HighestDifference(s, t)]
    ensures LittleValue(s) != LittleValue(t)
    decreases |s|
  {
    var n := |s| - 1;
    assert s == s[..n] + [s[n]] && t == t[..n] + [t[n]];
    LittleSnoc(s[..n], s[n]);
    LittleSnoc(t[..n], t[n]);
    ValueBound(Little, s[..n]);
    ValueBound(Little, t[..n]);
    if s[n] == t[n] {
      HighestDecides(s[..n], t[..n]);
    } else {
      hide LittleValue;
      LeadingByte(s[n], t[n], LittleValue(s[..n]), LittleValue(t[..n]), Pow256(n));
    }
  }

  lemma LittleSnoc(s: seq<byte>, x: byte)
    ensures LittleValue(s + [x]) == x * Pow256(|s|) + LittleValue(s)
  {
    hide LittleValue, Pow256;
    LittleAppend(s, [x]);
    LittleCons(x, []);
    EmptyValue();
    assert [x] + [] == [x];
  }

  /** The byte at position `k` of a C int in little-endian memory; the one at the top carries the sign. */
  function IntByte(p: int, k: nat): int
    requires k < 4
  {
    var x: int := IntBytes(p, Little)[k];
    if k == 3 && x >= 128 then x - 256 else x
  }

  predicate IsInt(p: int) {
    -0x8000_0000 <= p < 0x8000_0000
  }

  lemma IntBytesValue(p: int)
    requires IsInt(p)
    ensures LittleValue(IntBytes(p, Little)) == if p >= 0 then p else p + U32
    ensures IntBytes(p, Little)[3] >= 128 <==> p < 0
  {
    hide LittleValue, LittleBytes;
    var s := IntBytes(p, Little);
    LittleBytesValue(p % U32, 4);
    Widths();
    assert s == s[..3] + [s[3]];
    LittleSnoc(s[..3], s[3]);
    ValueBound(Little, s[..3]);
    assert Pow256(4) == 256 * Pow256(3);
    hide Pow256;
    assert p % U32 == if p >= 0 then p else p + U32;
  }

  /** Of two different ints the greater one is that with the greater byte at the highest difference. */
  lemma HighestDecidesInts(p: int, q: int)
    requires IsInt(p) && IsInt(q) && p != q
    ensures IntBytes(p, Little) != IntBytes(q, Little)
    ensures var j := HighestDifference(IntBytes(p, Little), IntBytes(q, Little));
            p > q <==> IntByte(p, j) > IntByte(q, j)
  {
    IntBytesValue(p);
    IntBytesValue(q);
    var s, t := IntBytes(p, Little), IntBytes(q, Little);
    HighestDecides(s, t);
    hide IntBytes, LittleValue;
    assert (p < 0) != (q < 0) ==> s[3] != t[3];
  }

  /** On a little-endian machine the comparator is right about two different priorities exactly when
      the lowest and the highest of the bytes in which they differ order them the same way. */
  lemma LittleEndianComparator(a: Info, b: Info)
    requires IsInt(a.priority) && IsInt(b.priority) && a.priority != b.priority
    ensures IntBytes(a.priority, Little) != IntBytes(b.priority, Little)
    ensures
      var s, t := IntBytes(a.priority, Little), IntBytes(b.priority, Little);
      var i, j := LowestDifference(s, t), HighestDifference(s, t);
      (Compare(a, b, Little) <= 0 <==> a.priority >= b.priority) <==>
      (s[i] > t[i] <==> IntByte(a.priority, j) > IntByte(b.priority, j))
  {
    var s, t := IntBytes(a.priority, Little), IntBytes(b.priority, Little);
    HighestDecidesInts(a.priority, b.priority);
    LowestDecides(t, s);
    SameLowest(s, t);
    hide IntBytes, IntByte, MemCmp, LowestDifference;
  }

  lemma SameLowest(s: seq<byte>, t: seq<byte>)
    requires |s| == |t| && s != t
    ensures LowestDifference(s, t) == LowestDifference(t, s)
  {
    var i, k := LowestDifference(s, t), LowestDifference(t, s);
    assert !(i < k) && !(k < i);
  }

  /** Equal priorities compare equal on either machine. */
  lemma EqualPriorities(a: Info, b: Info, machine: Endian)
    requires a.priority == b.priority
    ensures Compare(a, b, machine) == 0
  {
    MemCmpIsBigOrder(IntBytes(b.priority, machine), IntBytes(a.priority, machine));
  }

  /** For instance it is wrong about 256 and 1, which differ in their two lowest bytes: it puts 1
      first. */
  lemma LittleEndianComparatorBeyondAByte(a: Info, b: Info)
    requires a.priority == 256 && b.priority == 1
    ensures Compare(a, b, Little) > 0
  {
    assert IntBytes(256, Little)[0] == 0 && IntBytes(1, Little)[0] == 1;
  }

  // ----- Lookups, on the list of infos

  ghost predicate Descending(infos: seq<Info>) {
    forall i, j :: 0 <= i < j < |infos| ==> infos[i].priority >= infos[j].priority
  }

  ghost predicate SortedByCompare(infos: seq<Info>, machine: Endian) {
    forall i, j :: 0 <= i < j < |infos| ==> Compare(infos[i], infos[j], machine) <= 0
  }

  lemma SortedIsDescending(infos: seq<Info>, machine: Endian)
    requires forall i :: 0 <= i < |infos| ==> 0 <= infos[i].priority <= 255
    requires SortedByCompare(infos, machine)
    ensures Descending(infos)
  {
    forall i, j | 0 <= i < j < |infos| ensures infos[i].priority >= infos[j].priority {
      ComparatorAgrees(infos[i], infos[j], machine);
    }
  }

  /** The number of the first driver of that name, or -1. */
  function IdOf(infos: seq<Info>, name: string): (id: int)
    ensures -1 <= id < |infos|
    ensures id >= 0 ==> infos[id].shortName == name && forall i :: 0 <= i < id ==> infos[i].shortName != name
    ensures id == -1 ==> forall i :: 0 <= i < |infos| ==> infos[i].shortName != name
  {
    if infos == [] then -1
    else if infos[0].shortName == name then 0
    else
      var id := IdOf(infos[1..], name);
      if id < 0 then -1 else id + 1
  }

  /** Looking a driver up by its own name gives its own number, for all of them, exactly when no two
      share a name. */
  lemma IdOfOwnName(infos: seq<Info>)
    ensures (forall i :: 0 <= i < |infos| ==> IdOf(infos, infos[i].shortName) == i) <==>
            (forall i, j :: 0 <= i < j < |infos| ==> infos[i].shortName != infos[j].shortName)
  {
    hide IdOf;
    if forall i :: 0 <= i < |infos| ==> IdOf(infos, infos[i].shortName) == i {
      forall i, j | 0 <= i < j < |infos| ensures infos[i].shortName != infos[j].shortName {
        assert IdOf(infos, infos[i].shortName) == i && IdOf(infos, infos[j].shortName) == j;
      }
    }
  }

  /** A driver that can be the default: live, not static, and usable. */
  predicate Candidate(info: Info) {
    info.kind == Live && info.priority > 0 && info.usable
  }

  /** The number of the first candidate, or -1. */
  function FirstCandidate(infos: seq<Info>): (id: int)
    ensures -1 <= id < |infos|
    ensures id >= 0 ==> Candidate(infos[id]) && forall i :: 0 <= i < id ==> !Candidate(infos[i])
    ensures id == -1 <==> forall i :: 0 <= i < |infos| ==> !Candidate(infos[i])
  {
    if infos == [] then -1
    else if Candidate(infos[0]) then 0
    else
      var id := FirstCandidate(infos[1..]);
      if id < 0 then -1 else id + 1
  }

  function DefaultId(infos: seq<Info>, configured: Option<string>): int {
    if configured.Some? && IdOf(infos, configured.value) >= 0 then IdOf(infos, configured.value)
    else FirstCandidate(infos)
  }

  /** A configured name that some driver has makes the first driver of that name the default; one that
      no driver has is as good as none. */
  lemma ConfiguredDefault(infos: seq<Info>, name: string)
    ensures (exists i :: 0 <= i < |infos| && infos[i].shortName == name) ==>
              var id := DefaultId(infos, Some(name));
              && 0 <= id < |infos| && infos[id].shortName == name
              && forall i :: 0 <= i < id ==> infos[i].shortName != name
    ensures (forall i :: 0 <= i < |infos| ==> infos[i].shortName != name) ==>
              DefaultId(infos, Some(name)) == DefaultId(infos, None)
  {
    hide IdOf;
  }

  /** In a sorted list, without a valid configured name, the default is a candidate of the highest
      priority, and there is none exactly when there is no candidate. */
  lemma DefaultIsBest(infos: seq<Info>, machine: Endian, configured: Option<string>)
    requires forall i :: 0 <= i < |infos| ==> 0 <= infos[i].priority <= 255
    requires SortedByCompare(infos, machine)
    requires configured.Some? ==> forall i :: 0 <= i < |infos| ==> infos[i].shortName != configured.value
    ensures var id := DefaultId(infos, configured);
            && (id == -1 <==> forall i :: 0 <= i < |infos| ==> !Candidate(infos[i]))
            && (id != -1 ==>
                  && 0 <= id < |infos| && Candidate(infos[id])
                  && infos[id].kind == Live && infos[id].priority > 0 && infos[id].usable
                  && forall i :: 0 <= i < |infos| && infos[i].kind == Live && infos[i].usable ==>
                       infos[i].priority <= infos[id].priority)
            && (id == -1 <==> forall i :: 0 <= i < |infos| ==>
                                !(infos[i].kind == Live && infos[i].priority > 0 && infos[i].usable))
  {
    SortedIsDescending(infos, machine);
    hide SortedByCompare;
    var id := FirstCandidate(infos);
    forall i | 0 <= i < |infos| && Candidate(infos[i]) ensures id >= 0 && infos[i].priority <= infos[id].priority {
      assert i >= id;
    }
    forall i | 0 <= i < |infos| && infos[i].kind == Live && infos[i].usable && id >= 0
      ensures infos[i].priority <= infos[id].priority
    {
      if infos[i].priority > 0 {
        assert Candidate(infos[i]);
      }
    }
  }
}
