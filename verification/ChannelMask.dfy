/** Channel masks: sets of output positions packed into a 32-bit word.

    A word is a natural number below 2 to the 32; `mask | 1<<m` and `mask & 1<<m` are SetBit and
    Bit, `mask & 1` and `mask /= 2` are taken as arithmetic. */
module ChannelMask {
  import opened Basics
  import opened Bytes
  import opened MatrixSyntax
  import opened ChannelMatrix
  import opened Interleave
  import opened Rendering

  // ----- Bits

  function Pow2(n: nat): (p: nat)
    ensures p > 0
  {
    if n == 0 then 1 else 2 * Pow2(n - 1)
  }

  predicate Bit(mask: nat, m: nat) {
    if m == 0 then mask % 2 == 1 else Bit(mask / 2, m - 1)
  }

  lemma {:induction false} BitIsDigit(mask: nat, m: nat)
    ensures Bit(mask, m) <==> mask / Pow2(m) % 2 == 1
  {
    if m > 0 {
      BitIsDigit(mask / 2, m - 1);
      HalvesInTurn(mask, Pow2(m - 1));
    }
  }

  lemma HalvesInTurn(x: nat, p: nat)
    requires p > 0
    ensures x / (2 * p) == x / 2 / p
  {
    var q, r := x / 2 / p, x / 2 % p;
    assert x / 2 == q * p + r;
    assert x == q * (2 * p) + (2 * r + x % 2);
    DivModUnique(x, q, 2 * r + x % 2, 2 * p);
  }

  /** Weights double from one bit to the next. */
  lemma Weights(m: nat)
    ensures Pow2(0) == 1 && Pow2(m + 1) == 2 * Pow2(m)
  {
  }

  function SetBit(mask: nat, m: nat): nat {
    if m == 0 then mask / 2 * 2 + 1 else SetBit(mask / 2, m - 1) * 2 + mask % 2
  }

  function PopCount(mask: nat): nat {
    if mask == 0 then 0 else mask % 2 + PopCount(mask / 2)
  }

  /** Position of the highest bit set, or -1. */
  function MaxBit(mask: nat): int {
    if mask == 0 then -1 else 1 + MaxBit(mask / 2)
  }

  /** The positions below `n` whose bits are set, in increasing order. */
  function Ones(mask: nat, n: nat): (r: seq<nat>)
    ensures |r| <= n && forall i :: 0 <= i < |r| ==> r[i] < n
  {
    if n == 0 then [] else Ones(mask, n - 1) + if Bit(mask, n - 1) then [n - 1] else []
  }

  lemma {:induction false} SetBitBits(mask: nat, m: nat, k: nat)
    ensures Bit(SetBit(mask, m), k) <==> k == m || Bit(mask, k)
  {
    if m > 0 && k > 0 {
      SetBitBits(mask / 2, m - 1, k - 1);
    }
  }

  /** Setting a bit that is not set adds its weight. */
  lemma {:induction false} SetBitAdds(mask: nat, m: nat)
    ensures SetBit(mask, m) == if Bit(mask, m) then mask else mask + Pow2(m)
  {
    if m > 0 {
      SetBitAdds(mask / 2, m - 1);
    }
  }

  lemma {:induction false} SetBitBound(mask: nat, m: nat, n: nat)
    requires mask < Pow2(n) && m < n
    ensures SetBit(mask, m) < Pow2(n)
  {
    if m > 0 {
      SetBitBound(mask / 2, m - 1, n - 1);
    }
  }

  lemma {:induction false} NoHighBits(mask: nat, n: nat, k: nat)
    requires mask < Pow2(n) <= Pow2(k)
    ensures !Bit(mask, k)
  {
    if k == 0 {
    } else if n == 0 {
      NoHighBits(0, 0, k - 1);
    } else {
      NoHighBits(mask / 2, n - 1, k - 1);
    }
  }

  /** Two masks with the same bits are the same. */
  lemma {:induction false} SameBits(a: nat, b: nat)
    requires forall k: nat :: Bit(a, k) == Bit(b, k)
    ensures a == b
  {
    if a != 0 || b != 0 {
      assert Bit(a, 0) == Bit(b, 0);
      forall k: nat ensures Bit(a / 2, k) == Bit(b / 2, k) {
        assert Bit(a, k + 1) == Bit(b, k + 1);
      }
      SameBits(a / 2, b / 2);
    }
  }

  lemma PopCountStep(mask: nat)
    ensures PopCount(mask) == mask % 2 + PopCount(mask / 2)
  {
  }

  lemma {:induction false} PopCountSetBit(mask: nat, m: nat)
    ensures PopCount(SetBit(mask, m)) == PopCount(mask) + if Bit(mask, m) then 0 else 1
  {
    hide PopCount;
    var set_ := SetBit(mask, m);
    PopCountStep(mask);
    PopCountStep(set_);
    if m > 0 {
      PopCountSetBit(mask / 2, m - 1);
      assert set_ / 2 == SetBit(mask / 2, m - 1) && set_ % 2 == mask % 2;
    } else {
      assert set_ / 2 == mask / 2;
    }
  }

  lemma {:induction false} MaxBitIsHighest(mask: nat, k: nat)
    ensures Bit(mask, k) ==> k <= MaxBit(mask)
    ensures mask > 0 ==> MaxBit(mask) >= 0 && Bit(mask, MaxBit(mask))
    decreases mask, k
  {
    if mask > 0 {
      MaxBitIsHighest(mask / 2, if k == 0 then 0 else k - 1);
    } else if k > 0 {
      MaxBitIsHighest(0, k - 1);
    }
  }

  lemma {:induction false} OnesAreTheBits(mask: nat, n: nat)
    ensures forall k: nat :: k in Ones(mask, n) <==> k < n && Bit(mask, k)
    ensures forall i, j :: 0 <= i < j < |Ones(mask, n)| ==> Ones(mask, n)[i] < Ones(mask, n)[j]
  {
    if n > 0 {
      OnesAreTheBits(mask, n - 1);
    }
  }

  /** A bit stands at the place given by the number of bits below it. */
  lemma {:induction false} OnesRank(mask: nat, m: nat, n: nat)
    requires m < n && Bit(mask, m)
    ensures |Ones(mask, m)| < |Ones(mask, n)| && Ones(mask, n)[|Ones(mask, m)|] == m
  {
    if m < n - 1 {
      OnesRank(mask, m, n - 1);
    }
  }

  lemma {:induction false} OnesShift(mask: nat, n: nat)
    ensures |Ones(mask, n + 1)| == mask % 2 + |Ones(mask / 2, n)|
  {
    if n > 0 {
      OnesShift(mask, n - 1);
    }
  }

  /** A word of `n` bits has as many ones as positions with a bit set. */
  lemma {:induction false} PopCountIsOnes(mask: nat, n: nat)
    requires mask < Pow2(n)
    ensures PopCount(mask) == |Ones(mask, n)|
  {
    if n > 0 {
      OnesShift(mask, n - 1);
      PopCountIsOnes(mask / 2, n - 1);
    }
  }

  // ----- Positions

  /** The output position an input name maps to, or -1; the placeholder "X" maps nowhere. */
  function Place(field: string, outNames: seq<string>): (m: int)
    ensures -1 <= m < |outNames|
    ensures m >= 0 <==> field in outNames && field != "" && field != "X"
    ensures m >= 0 ==> field != "" && field != "X" && outNames[m] == field &&
                       forall i :: 0 <= i < m ==> outNames[i] != field
  {
    var m := Lookup(outNames, field);
    if m < |outNames| && outNames[m] != "X" then m else -1
  }

  lemma PlaceAt(names: seq<string>, k: nat, name: string)
    requires k < |names| && names[k] == name && name !in ["", "X"]
    requires forall i :: 0 <= i < k ==> names[i] != name
    ensures Place(name, names) == k
  {
    hide Lookup;
  }

  /** Output `m` is an input, has a name other than the placeholder, and is the first of its name. */
  predicate NewName(fields: seq<string>, outNames: seq<string>, m: nat) {
    m < |outNames| && outNames[m] in fields && outNames[m] !in ["", "X"] && outNames[m] !in outNames[..m]
  }

  /** Bit `m` of the mask between two lists of names is set if and only if that is so. */
  lemma MaskBetweenNames(fields: seq<string>, outNames: seq<string>, m: nat)
    ensures Bit(MaskOf(Places(fields, outNames)), m) <==> NewName(fields, outNames, m)
  {
    var places := Places(fields, outNames);
    MaskOfBits(places, m);
    if m in places {
      var c :| 0 <= c < |places| && places[c] == m;
      assert fields[c] == outNames[m];
    } else if m < |outNames| && outNames[m] in fields {
      var c :| 0 <= c < |fields| && fields[c] == outNames[m];
      assert places[c] != m;
    }
  }

  function Places(fields: seq<string>, outNames: seq<string>): (ps: seq<int>)
    ensures |ps| == |fields| && forall i :: 0 <= i < |ps| ==> ps[i] == Place(fields[i], outNames)
  {
    seq(|fields|, i requires 0 <= i < |fields| => Place(fields[i], outNames))
  }

  /** The set of the positions in `places`. */
  function MaskOf(places: seq<int>): nat {
    if places == [] then 0
    else
      var rest := MaskOf(places[..|places| - 1]);
      if places[|places| - 1] >= 0 then SetBit(rest, places[|places| - 1]) else rest
  }

  /** The entries of `places` that are positions. */
  function Mapped(places: seq<int>): seq<nat> {
    if places == [] then []
    else
      Mapped(places[..|places| - 1]) +
      if places[|places| - 1] >= 0 then [places[|places| - 1]] else []
  }

  lemma {:induction false} MaskOfBits(places: seq<int>, k: nat)
    ensures Bit(MaskOf(places), k) <==> k in places
  {
    if places == [] {
      ZeroHasNoBits(k);
    } else {
      var rest, last := places[..|places| - 1], places[|places| - 1];
      assert places == rest + [last];
      MaskOfBits(rest, k);
      if last >= 0 {
        SetBitBits(MaskOf(rest), last, k);
      }
    }
  }

  lemma {:induction false} ZeroHasNoBits(k: nat)
    ensures !Bit(0, k)
  {
    if k > 0 {
      ZeroHasNoBits(k - 1);
    }
  }

  lemma {:induction false} MaskOfBound(places: seq<int>, n: nat)
    requires forall i :: 0 <= i < |places| ==> places[i] < n
    ensures MaskOf(places) < Pow2(n)
  {
    if places != [] {
      var rest, last := places[..|places| - 1], places[|places| - 1];
      MaskOfBound(rest, n);
      if last >= 0 {
        SetBitBound(MaskOf(rest), last, n);
      }
    }
  }

  lemma {:induction false} MappedMembers(places: seq<int>)
    ensures forall k: nat :: k in Mapped(places) <==> k in places
  {
    if places != [] {
      var rest, last := places[..|places| - 1], places[|places| - 1];
      assert places == rest + [last];
      MappedMembers(rest);
    }
  }

  /** At least as many names are mapped as bits are set, and just as many if and only if no output
      position is mapped twice. */
  lemma {:induction false} MappedCount(places: seq<int>)
    ensures PopCount(MaskOf(places)) <= |Mapped(places)|
    ensures PopCount(MaskOf(places)) == |Mapped(places)| <==> Distinct(Mapped(places))
  {
    hide Mapped, MaskOf, Distinct, PopCount, SetBit, Bit;
    if places == [] {
      NothingMapped();
    } else {
      var rest, last := places[..|places| - 1], places[|places| - 1];
      MappedNext(places);
      MappedCount(rest);
      if last >= 0 {
        PopCountSetBit(MaskOf(rest), last);
        MaskOfBits(rest, last);
        MappedMember(rest, last);
        DistinctSnoc<nat>(Mapped(rest), last);
      }
    }
  }

  lemma NothingMapped()
    ensures Mapped([]) == [] && MaskOf([]) == 0 && PopCount(0) == 0 && Distinct<nat>([])
  {
  }

  lemma MappedNext(places: seq<int>)
    requires places != []
    ensures var rest, last := places[..|places| - 1], places[|places| - 1];
            && Mapped(places) == (if last >= 0 then Mapped(rest) + [last] else Mapped(rest))
            && MaskOf(places) == (if last >= 0 then SetBit(MaskOf(rest), last) else MaskOf(rest))
  {
  }

  lemma MappedMember(places: seq<int>, k: nat)
    ensures k in Mapped(places) <==> k in places
  {
    MappedMembers(places);
  }

  // ----- The loops

  /** `_channelmask_bits` */
  method ChannelmaskBits(mask: nat) returns (count: nat)
    ensures count == PopCount(mask)
  {
    count := 0;
    var m := mask;
    while m != 0
      invariant count + PopCount(m) == PopCount(mask)
    {
      if m % 2 == 1 {
        count := count + 1;
      }
      m := m / 2;
    }
  }

  /** `_channelmask_maxbit` */
  method ChannelmaskMaxbit(mask: nat) returns (max: int)
    ensures max == MaxBit(mask)
  {
    var count, m := 0, mask;
    max := -1;
    while m != 0
      invariant MaxBit(mask) == if m == 0 then max else count + MaxBit(m)
    {
      if m % 2 == 1 {
        max := count;
      }
      m := m / 2;
      count := count + 1;
    }
  }

  /** The scan of the tokenized output matrix for one input name. */
  method FindInMap(outNames: seq<string>, w: string) returns (m: nat)
    ensures m == Lookup(outNames, w)
  {
    m := 0;
    while m < |outNames|
      invariant m <= |outNames|
      invariant w != "" ==> forall i :: 0 <= i < m ==> outNames[i] != w
    {
      if |w| > 0 && w <= outNames[m] && |outNames[m]| == |w| {
        break;
      }
      m := m + 1;
    }
    LookupUnique(outNames, w, m);
  }

  lemma LookupUnique(outNames: seq<string>, w: string, m: nat)
    requires m <= |outNames|
    requires w != "" ==> forall i :: 0 <= i < m ==> outNames[i] != w
    requires m < |outNames| ==> w != "" && outNames[m] == w
    ensures m == Lookup(outNames, w)
  {
  }

  /** `_matrix_to_channelmask`: the set of output positions the input names map to, and for each
      input channel its position. A shift by a position stays inside the word, and the matrix
      does not name more than `ch` channels. */
  method MatrixToChannelmask(ch: nat, matrix: string, premap: string)
    returns (mask: nat, mout: seq<int>)
    requires |Fields(matrix)| <= ch && |Tokens(premap)| <= 32
    ensures mask == MaskOf(Places(Fields(matrix), Tokens(premap))) < Pow2(32)
    ensures mout == Places(Fields(matrix), Tokens(premap)) + NoPlaces(ch - |Fields(matrix)|)
    ensures forall m: nat :: Bit(mask, m) <==> NewName(Fields(matrix), Tokens(premap), m)
    ensures |mout| == ch && forall c :: 0 <= c < ch ==>
              if c < |Fields(matrix)| && Fields(matrix)[c] in Tokens(premap) && Fields(matrix)[c] !in ["", "X"] then
                && 0 <= mout[c] < |Tokens(premap)| && Tokens(premap)[mout[c]] == Fields(matrix)[c]
                && Fields(matrix)[c] !in Tokens(premap)[..mout[c]]
              else
                mout[c] == -1
  {
    hide Scanned, FieldsFrom, MaskOf, SetBit, Pow2, Lookup, TrimAll, Bit;
    var perm := new int[ch](_ => -1);
    var outNames := TokenizeMatrix(premap);
    ghost var fields := Fields(matrix);
    ghost var places := Places(fields, outNames);
    var p, i := 0, 0;
    mask := 0;
    ScanStart(matrix);
    MaskOfNone(places);
    while true
      invariant 0 <= i < |fields| && Scanned(matrix, p, i)
      invariant mask == MaskOf(places[..i])
      invariant forall k :: 0 <= k < i ==> perm[k] == places[k]
      invariant forall k :: i <= k < ch ==> perm[k] == -1
      decreases |matrix| - p
    {
      var h := FindSeparator(matrix, p);
      ScanStep(matrix, p, i);
      var m := FindInMap(outNames, matrix[p..h]);
      MaskOfNext(places, i);
      if m < |outNames| && outNames[m] != "X" {
        mask := SetBit(mask, m);
        perm[i] := m;
      }
      i := i + 1;
      if h == |matrix| {
        break;
      }
      p := h + 1;
    }
    assert places[..i] == places;
    MaskOfBound(places, 32);
    mout := perm[..];
    PaddedPlaces(mout, places);
    forall m: nat ensures Bit(mask, m) <==> NewName(fields, outNames, m) {
      MaskBetweenNames(fields, outNames, m);
    }
    PlacedNames(fields, outNames);
  }

  lemma PlacedNames(fields: seq<string>, outNames: seq<string>)
    ensures forall c :: 0 <= c < |fields| ==>
              if fields[c] in outNames && fields[c] !in ["", "X"] then
                && 0 <= Places(fields, outNames)[c] < |outNames|
                && outNames[Places(fields, outNames)[c]] == fields[c]
                && fields[c] !in outNames[..Places(fields, outNames)[c]]
              else
                Places(fields, outNames)[c] == -1
  {
    hide Lookup;
  }

  lemma PaddedPlaces(mout: seq<int>, places: seq<int>)
    requires |places| <= |mout|
    requires forall k :: 0 <= k < |places| ==> mout[k] == places[k]
    requires forall k :: |places| <= k < |mout| ==> mout[k] == -1
    ensures mout == places + NoPlaces(|mout| - |places|)
  {
  }

  function NoPlaces(n: nat): (ps: seq<int>)
    ensures |ps| == n && forall i :: 0 <= i < n ==> ps[i] == -1
  {
    seq(n, _ => -1)
  }

  lemma MaskOfNone(places: seq<int>)
    ensures MaskOf(places[..0]) == 0
  {
  }

  lemma MaskOfNext(places: seq<int>, i: nat)
    requires i < |places|
    ensures MaskOf(places[..i + 1]) ==
            if places[i] >= 0 then SetBit(MaskOf(places[..i]), places[i]) else MaskOf(places[..i])
  {
    assert places[..i + 1][..i] == places[..i];
  }

  /** The entries of `names` at the given positions. */
  function Select(names: seq<string>, at: seq<nat>): (r: seq<string>)
    requires forall i :: 0 <= i < |at| ==> at[i] < |names|
    ensures |r| == |at| && forall i :: 0 <= i < |at| ==> r[i] == names[at[i]]
  {
    seq(|at|, i requires 0 <= i < |at| => names[at[i]])
  }

  /** The output names at the positions of a mask below `n`. */
  function NamesBelow(mask: nat, outNames: seq<string>, n: nat): seq<string>
    requires n <= |outNames|
  {
    Select(outNames, Ones(mask, n))
  }

  function MaskNames(mask: nat, outNames: seq<string>): seq<string> {
    NamesBelow(mask, outNames, |outNames|)
  }

  /** The names of a mask are the output names at its bits, in increasing order of the bits. */
  lemma MaskNamesAreAtBits(mask: nat, outNames: seq<string>) returns (at: seq<nat>)
    ensures forall i, j :: 0 <= i < j < |at| ==> at[i] < at[j]
    ensures forall m: nat :: m in at <==> m < |outNames| && Bit(mask, m)
    ensures |MaskNames(mask, outNames)| == |at|
    ensures forall i :: 0 <= i < |at| ==> at[i] < |outNames| && MaskNames(mask, outNames)[i] == outNames[at[i]]
  {
    at := Ones(mask, |outNames|);
    OnesAreTheBits(mask, |outNames|);
  }

  lemma NamesBelowNext(mask: nat, outNames: seq<string>, n: nat)
    requires n < |outNames|
    ensures NamesBelow(mask, outNames, n + 1) ==
            if Bit(mask, n) then NamesBelow(mask, outNames, n) + [outNames[n]]
            else NamesBelow(mask, outNames, n)
  {
  }

  lemma {:induction false} NamesBelowPrefix(mask: nat, outNames: seq<string>, m: nat, n: nat)
    requires m <= n <= |outNames|
    ensures NamesBelow(mask, outNames, m) <= NamesBelow(mask, outNames, n)
    decreases n - m
  {
    hide NamesBelow;
    if m < n {
      NamesBelowNext(mask, outNames, m);
      NamesBelowPrefix(mask, outNames, m + 1, n);
    }
  }

  /** `_channelmask_to_matrix`, or nothing when the names do not fit its buffer. A shift by a position
      stays inside the word. */
  method ChannelmaskToMatrix(mask: nat, premap: string) returns (rendered: Option<string>)
    requires |Tokens(premap)| <= 32
    ensures rendered == Rendered(MaskNames(mask, Tokens(premap)))
  {
    hide Join, Bit, Ones, Select, NamesBelow;
    var outNames := TokenizeMatrix(premap);
    var buffer := new char[BUFFER_SIZE](_ => '\0');
    var m, count, used := 0, 0, 0;
    NoNamesBelow(mask, outNames);
    while m < |outNames|
      invariant 0 <= m <= |outNames|
      invariant count == |NamesBelow(mask, outNames, m)|
      invariant 0 <= used < BUFFER_SIZE && buffer[..used] == Join(NamesBelow(mask, outNames, m))
    {
      NamesBelowNext(mask, outNames, m);
      NamesBelowPrefix(mask, outNames, m + 1, |outNames|);
      if Bit(mask, m) {
        var fits;
        used, fits := AppendName(buffer, used, NamesBelow(mask, outNames, m), count, outNames[m]);
        if !fits {
          MoreDoNotFit(NamesBelow(mask, outNames, m + 1), MaskNames(mask, outNames));
          return None;
        }
        count := count + 1;
      }
      m := m + 1;
    }
    return Some(buffer[..used]);
  }

  lemma NoNamesBelow(mask: nat, outNames: seq<string>)
    ensures NamesBelow(mask, outNames, 0) == [] && Join(NamesBelow(mask, outNames, 0)) == ""
  {
  }

  /** The fields that map to an output position, in their own order. */
  function MappedFields(fields: seq<string>, outNames: seq<string>): seq<string> {
    if fields == [] then []
    else
      var rest, last := fields[..|fields| - 1], fields[|fields| - 1];
      MappedFields(rest, outNames) + if Place(last, outNames) >= 0 then [last] else []
  }

  lemma MappedFieldsNext(fields: seq<string>, outNames: seq<string>, i: nat)
    requires i < |fields|
    ensures MappedFields(fields[..i + 1], outNames) ==
            if Place(fields[i], outNames) >= 0 then MappedFields(fields[..i], outNames) + [fields[i]]
            else MappedFields(fields[..i], outNames)
  {
    var next := fields[..i + 1];
    assert next[..|next| - 1] == fields[..i] && next[|next| - 1] == fields[i];
  }

  lemma {:induction false} MappedFieldsPrefix(fields: seq<string>, outNames: seq<string>, i: nat)
    requires i <= |fields|
    ensures MappedFields(fields[..i], outNames) <= MappedFields(fields, outNames)
    decreases |fields| - i
  {
    hide MappedFields;
    if i < |fields| {
      MappedFieldsNext(fields, outNames, i);
      MappedFieldsPrefix(fields, outNames, i + 1);
    } else {
      assert fields[..i] == fields;
    }
  }

  /** `_matrix_intersect`, or nothing when the names do not fit its buffer. */
  method MatrixIntersect(matrix: string, premap: string) returns (rendered: Option<string>)
    ensures rendered == Rendered(MappedFields(Fields(matrix), Tokens(premap)))
  {
    hide Scanned, FieldsFrom, Join, MappedFields, Lookup, TrimAll;
    var outNames := TokenizeMatrix(premap);
    var buffer := new char[BUFFER_SIZE](_ => '\0');
    ghost var fields := Fields(matrix);
    var p, count, used := 0, 0, 0;
    ghost var i := 0;
    ScanStart(matrix);
    NoMappedFields(fields, outNames);
    while true
      invariant 0 <= i < |fields| && Scanned(matrix, p, i)
      invariant count == |MappedFields(fields[..i], outNames)|
      invariant 0 <= used < BUFFER_SIZE && buffer[..used] == Join(MappedFields(fields[..i], outNames))
      decreases |matrix| - p
    {
      var h := FindSeparator(matrix, p);
      ScanStep(matrix, p, i);
      var m := FindInMap(outNames, matrix[p..h]);
      MappedFieldsNext(fields, outNames, i);
      MappedFieldsPrefix(fields, outNames, i + 1);
      if m < |outNames| && outNames[m] != "X" {
        var fits;
        used, fits := AppendName(buffer, used, MappedFields(fields[..i], outNames), count, outNames[m]);
        if !fits {
          MoreDoNotFit(MappedFields(fields[..i + 1], outNames), MappedFields(fields, outNames));
          return None;
        }
        count := count + 1;
      }
      i := i + 1;
      if h == |matrix| {
        break;
      }
      p := h + 1;
    }
    assert fields[..i] == fields;
    return Some(buffer[..used]);
  }

  lemma NoMappedFields(fields: seq<string>, outNames: seq<string>)
    ensures MappedFields(fields[..0], outNames) == []
    ensures Join(MappedFields(fields[..0], outNames)) == ""
  {
  }

  // ----- Masks and matrices

  /** The mask is a set of positions that names map to. */
  ghost predicate MaskFor(mask: nat, outNames: seq<string>) {
    forall m: nat :: Bit(mask, m) ==> m < |outNames| && Place(outNames[m], outNames) == m
  }

  lemma MaskOfPlaces(fields: seq<string>, outNames: seq<string>)
    ensures MaskFor(MaskOf(Places(fields, outNames)), outNames)
  {
    var places := Places(fields, outNames);
    forall m: nat | Bit(MaskOf(places), m)
      ensures m < |outNames| && Place(outNames[m], outNames) == m
    {
      MaskOfBits(places, m);
      var i :| 0 <= i < |places| && places[i] == m;
    }
  }

  /** Bits are set exactly at the positions of the names of the mask. */
  lemma MaskNamesPlaces(mask: nat, outNames: seq<string>)
    requires MaskFor(mask, outNames)
    ensures Places(MaskNames(mask, outNames), outNames) == Ones(mask, |outNames|)
    ensures MaskOf(Places(MaskNames(mask, outNames), outNames)) == mask
  {
    var ones := Ones(mask, |outNames|);
    var places := Places(MaskNames(mask, outNames), outNames);
    OnesAreTheBits(mask, |outNames|);
    forall i | 0 <= i < |ones| ensures places[i] == ones[i] {
      assert ones[i] in ones;
    }
    forall k: nat ensures Bit(MaskOf(places), k) == Bit(mask, k) {
      MaskOfBits(places, k);
    }
    SameBits(MaskOf(places), mask);
  }

  /** Rendering the mask of an input matrix as names of the output matrix gives the names at the
      set bits, in the order of the output matrix, as many as there are set bits; the mask of that
      rendering is the same mask. */
  lemma MaskRoundTrip(matrix: string, premap: string)
    requires |Tokens(premap)| <= 32
    ensures var outNames := Tokens(premap);
            var mask := MaskOf(Places(Fields(matrix), outNames));
            var rendered := Join(MaskNames(mask, outNames));
            && MaskOf(Places(Fields(rendered), outNames)) == mask
            && (mask != 0 ==> Fields(rendered) == MaskNames(mask, outNames))
            && |MaskNames(mask, outNames)| == PopCount(mask)
            && Distinct(MaskNames(mask, outNames))
  {
    var outNames := Tokens(premap);
    var places := Places(Fields(matrix), outNames);
    var mask := MaskOf(places);
    MaskOfPlaces(Fields(matrix), outNames);
    MaskOfBound(places, |outNames|);
    PopCountIsOnes(mask, |outNames|);
    MaskNamesPlaces(mask, outNames);
    MaskNamesDiffer(mask, outNames);
    RenderedFields(mask, premap);
  }

  lemma MaskNamesDiffer(mask: nat, outNames: seq<string>)
    requires MaskFor(mask, outNames)
    ensures Distinct(MaskNames(mask, outNames))
  {
    var ones, names := Ones(mask, |outNames|), MaskNames(mask, outNames);
    OnesAreTheBits(mask, |outNames|);
    forall i, j | 0 <= i < j < |names| ensures names[i] != names[j] {
      assert ones[i] in ones && ones[j] in ones;
      assert Place(names[i], outNames) == ones[i] && Place(names[j], outNames) == ones[j];
    }
  }

  /** Only the empty mask has no names; its rendering is one empty field, which maps nowhere. */
  lemma RenderedFields(mask: nat, premap: string)
    requires MaskFor(mask, Tokens(premap)) && mask < Pow2(|Tokens(premap)|)
    ensures var names := MaskNames(mask, Tokens(premap));
            && (mask == 0 <==> names == [])
            && (mask != 0 ==> Fields(Join(names)) == names)
            && MaskOf(Places(Fields(Join(names)), Tokens(premap))) == mask
  {
    var outNames := Tokens(premap);
    var names := MaskNames(mask, outNames);
    MaskNamesPlaces(mask, outNames);
    PopCountIsOnes(mask, |outNames|);
    PopCountZero(mask);
    if mask == 0 {
      assert Fields("") == [""];
      assert Places([""], outNames) == [-1];
    } else {
      TokensAreFieldNames(premap);
      FieldsOfJoin(names);
    }
  }

  lemma {:induction false} PopCountZero(mask: nat)
    ensures PopCount(mask) == 0 <==> mask == 0
  {
    if mask != 0 {
      PopCountZero(mask / 2);
    }
  }

  /** The fields that map are the output names at their positions. */
  lemma {:induction false} MappedFieldsAreSelected(fields: seq<string>, outNames: seq<string>)
    ensures |MappedFields(fields, outNames)| == |Mapped(Places(fields, outNames))|
    ensures forall i :: 0 <= i < |Mapped(Places(fields, outNames))| ==>
              var m := Mapped(Places(fields, outNames))[i];
              && m < |outNames| && outNames[m] == MappedFields(fields, outNames)[i]
              && Place(outNames[m], outNames) == m
  {
    if fields != [] {
      var rest := fields[..|fields| - 1];
      assert Places(fields, outNames)[..|rest|] == Places(rest, outNames);
      MappedFieldsAreSelected(rest, outNames);
    }
  }

  /** The positions of the fields that are output names other than the placeholder, in their order. */
  ghost predicate SharedAt(fields: seq<string>, outNames: seq<string>, at: seq<nat>) {
    && (forall i, j :: 0 <= i < j < |at| ==> at[i] < at[j])
    && (forall c: nat :: c in at <==> c < |fields| && fields[c] in outNames && fields[c] !in ["", "X"])
  }

  /** `shown` are the fields at these positions. */
  ghost predicate TakenAt(shown: seq<string>, fields: seq<string>, at: seq<nat>) {
    |shown| == |at| && forall i :: 0 <= i < |at| ==> at[i] < |fields| && shown[i] == fields[at[i]]
  }

  /** The mapped fields are those fields: all of them, in their order, with repetitions, and no others. */
  lemma {:induction false} MappedFieldsAreShared(fields: seq<string>, outNames: seq<string>)
    returns (at: seq<nat>)
    ensures SharedAt(fields, outNames, at) && TakenAt(MappedFields(fields, outNames), fields, at)
  {
    hide SharedAt, TakenAt, MappedFields, Lookup;
    if fields == [] {
      at := [];
      NothingShared(outNames);
    } else {
      var n := |fields| - 1;
      at := MappedFieldsAreShared(fields[..n], outNames);
      MappedFieldsNext(fields, outNames, n);
      assert fields[..n + 1] == fields;
      SharedNext(fields, outNames, at);
      TakenNext(MappedFields(fields[..n], outNames), fields, at);
      if fields[n] in outNames && fields[n] !in ["", "X"] {
        at := at + [n];
      }
    }
  }

  lemma NothingShared(outNames: seq<string>)
    ensures SharedAt([], outNames, []) && TakenAt(MappedFields([], outNames), [], [])
  {
  }

  lemma TakenNext(shown: seq<string>, fields: seq<string>, at: seq<nat>)
    requires fields != [] && TakenAt(shown, fields[..|fields| - 1], at)
    ensures TakenAt(shown, fields, at) && TakenAt(shown + [fields[|fields| - 1]], fields, at + [|fields| - 1])
  {
  }

  /** One more field is shared or not. */
  lemma SharedNext(fields: seq<string>, outNames: seq<string>, at: seq<nat>)
    requires fields != [] && SharedAt(fields[..|fields| - 1], outNames, at)
    ensures var n := |fields| - 1;
            SharedAt(fields, outNames,
                     if fields[n] in outNames && fields[n] !in ["", "X"] then at + [n] else at)
  {
    var n := |fields| - 1;
    assert forall i :: 0 <= i < |at| ==> at[i] in at;
    if fields[n] in outNames && fields[n] !in ["", "X"] {
      SharedMore(fields, outNames, at);
    } else {
      forall c: nat ensures c in at <==> c < |fields| && fields[c] in outNames && fields[c] !in ["", "X"] {
        assert c < n ==> fields[..n][c] == fields[c];
      }
    }
  }

  lemma SharedMore(fields: seq<string>, outNames: seq<string>, at: seq<nat>)
    requires fields != [] && SharedAt(fields[..|fields| - 1], outNames, at)
    requires fields[|fields| - 1] in outNames && fields[|fields| - 1] !in ["", "X"]
    ensures SharedAt(fields, outNames, at + [|fields| - 1])
  {
    var n := |fields| - 1;
    var more := at + [n];
    assert forall i :: 0 <= i < |at| ==> at[i] in at;
    forall c: nat ensures c in more <==> c < |fields| && fields[c] in outNames && fields[c] !in ["", "X"] {
      assert c < n ==> fields[..n][c] == fields[c];
      assert c in more <==> c in at || c == n;
    }
  }

  lemma DistinctPlaces(inputs: seq<string>, outNames: seq<string>)
    ensures Distinct(MappedFields(inputs, outNames)) <==> Distinct(Mapped(Places(inputs, outNames)))
  {
    MappedFieldsAreSelected(inputs, outNames);
    var places, names := Mapped(Places(inputs, outNames)), MappedFields(inputs, outNames);
    forall i, j | 0 <= i < j < |names| ensures names[i] == names[j] <==> places[i] == places[j] {
      assert outNames[places[i]] == names[i] && outNames[places[j]] == names[j];
    }
  }

  /** The number of names two matrices share, counted with repetition, is at least the number of
      bits of the mask; it is the same if and only if no output position is mapped twice. */
  lemma IntersectCount(matrix: string, premap: string)
    ensures var mapped := MappedFields(Fields(matrix), Tokens(premap));
            var mask := MaskOf(Places(Fields(matrix), Tokens(premap)));
            && |mapped| >= PopCount(mask)
            && (|mapped| == PopCount(mask) <==> Distinct(mapped))
  {
    MappedCount(Places(Fields(matrix), Tokens(premap)));
    MappedFieldsAreSelected(Fields(matrix), Tokens(premap));
    DistinctPlaces(Fields(matrix), Tokens(premap));
  }

  // ----- What fits the buffer

  /** The rendering of a mask over at most 32 names of the table always fits. */
  lemma MaskRenderingFits(mask: nat, premap: string)
    requires |Tokens(premap)| <= 32 && AllKnown(Tokens(premap))
    ensures Rendered(MaskNames(mask, Tokens(premap))).Some?
  {
    KnownNamesFit(MaskNames(mask, Tokens(premap)));
  }

  /** The names that an input matrix of at most 64 fields shares with names of the table always fit. */
  lemma IntersectionFits(matrix: string, premap: string)
    requires |Fields(matrix)| <= 64 && AllKnown(Tokens(premap))
    ensures Rendered(MappedFields(Fields(matrix), Tokens(premap))).Some?
  {
    var fields, outNames := Fields(matrix), Tokens(premap);
    MappedFieldsAreSelected(fields, outNames);
    MappedFieldsAreFewer(fields, outNames);
    KnownNamesFit(MappedFields(fields, outNames));
  }

  lemma {:induction false} MappedFieldsAreFewer(fields: seq<string>, outNames: seq<string>)
    ensures |MappedFields(fields, outNames)| <= |fields|
  {
    if fields != [] {
      MappedFieldsAreFewer(fields[..|fields| - 1], outNames);
    }
  }

  lemma {:induction false} AllMap(fields: seq<string>, outNames: seq<string>)
    requires forall i :: 0 <= i < |fields| ==> Place(fields[i], outNames) >= 0
    ensures MappedFields(fields, outNames) == fields
  {
    if fields != [] {
      var n := |fields| - 1;
      assert fields == fields[..n] + [fields[n]];
      AllMap(fields[..n], outNames);
    }
  }
}
