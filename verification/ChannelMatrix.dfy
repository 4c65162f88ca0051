/** Reading channel matrices: sanitizing, tokenizing and looking channels up. */
module ChannelMatrix {
  import opened Bytes
  import opened MatrixSyntax
  import opened Mnemonics

  /** Position of the first of `names` that is `w`, or `|names|`; the empty word is never found. */
  function Lookup(names: seq<string>, w: string): (m: nat)
    ensures m <= |names|
    ensures m < |names| ==> w != "" && names[m] == w
    ensures w != "" ==> forall i :: 0 <= i < m ==> names[i] != w
    ensures w == "" ==> m == |names|
  {
    if names == [] then 0
    else if w != "" && names[0] == w then 0
    else 1 + Lookup(names[1..], w)
  }

  lemma LookupAt(names: seq<string>, k: nat)
    requires k < |names| && names[k] != ""
    requires forall i :: 0 <= i < k ==> names[i] != names[k]
    ensures Lookup(names, names[k]) == k
  {
  }

  /** The number of fields of a matrix that sanitizing looks at. */
  function Considered(maxchannels: int, matrix: string): (n: nat)
    ensures n <= |Tokens(matrix)|
  {
    if maxchannels <= 0 then 0 else Min(maxchannels, |Tokens(matrix)|)
  }

  predicate AllKnown(names: seq<string>) {
    forall i :: 0 <= i < |names| ==> names[i] in MNEMONICS
  }

  /** What sanitizing makes of a matrix: the first `maxchannels` names with nothing but commas
      between them, or nothing when one of them is not in the table. */
  function Sanitized(maxchannels: int, matrix: string): Option<string> {
    var names := Tokens(matrix)[..Considered(maxchannels, matrix)];
    if AllKnown(names) then Some(Join(names)) else None
  }

  /** Every field, as it stands, is in the table. */
  predicate Known(matrix: string) {
    AllKnown(Fields(matrix))
  }

  /** The fields of a sanitized matrix are exactly the names that were asked for; it is no longer
      than the matrix it was made from, and sanitizing it once more changes nothing. */
  lemma SanitizedIsCanonical(maxchannels: int, matrix: string, clean: string)
    requires Sanitized(maxchannels, matrix) == Some(clean)
    ensures |clean| <= |matrix|
    ensures maxchannels > 0 ==> Fields(clean) == Tokens(matrix)[..Considered(maxchannels, matrix)]
    ensures maxchannels > 0 ==> Known(clean) && |Fields(clean)| <= maxchannels
    ensures maxchannels <= 0 ==> clean == ""
    ensures forall again: int {:trigger Sanitized(again, clean)} ::
              again >= maxchannels > 0 || (maxchannels <= 0 && again <= 0)
              ==> Sanitized(again, clean) == Some(clean)
  {
    var n := Considered(maxchannels, matrix);
    var names := Tokens(matrix)[..n];
    SanitizedShrinks(matrix, n);
    if n > 0 {
      forall i | 0 <= i < n ensures FieldName(names[i]) {
        KnownIsFieldName(names[i]);
      }
      FieldsOfJoin(names);
      TokensOfJoin(names);
      assert Tokens(clean)[..n] == names;
    }
  }

  /** How many names a matrix is asked for: no more than `maxchannels`, and no more than it has. */
  lemma ConsideredCount(maxchannels: int, matrix: string)
    ensures Considered(maxchannels, matrix) ==
            if maxchannels <= 0 then 0
            else if maxchannels < |Tokens(matrix)| then maxchannels else |Tokens(matrix)|
  {
  }

  /** Sanitizing succeeds if and only if every token before the `maxchannels`-th is in the table, and
      then gives these tokens, all of them, in order. */
  lemma SanitizingLaw(maxchannels: int, matrix: string)
    ensures Sanitized(maxchannels, matrix).Some? <==>
            forall i :: 0 <= i < |Tokens(matrix)| && i < maxchannels ==> Tokens(matrix)[i] in MNEMONICS
    ensures Sanitized(maxchannels, matrix).Some? && maxchannels > 0 ==>
              var fields := Fields(Sanitized(maxchannels, matrix).value);
              && |fields| == (if maxchannels < |Tokens(matrix)| then maxchannels else |Tokens(matrix)|)
              && forall i :: 0 <= i < |fields| ==> fields[i] == Tokens(matrix)[i]
  {
    hide MNEMONICS, FieldsFrom, Join;
    ConsideredCount(maxchannels, matrix);
    var names := Tokens(matrix)[..Considered(maxchannels, matrix)];
    assert forall i :: 0 <= i < |names| ==> names[i] == Tokens(matrix)[i];
    if Sanitized(maxchannels, matrix).Some? {
      SanitizedIsCanonical(maxchannels, matrix, Sanitized(maxchannels, matrix).value);
    }
  }

  lemma KnownIsFieldName(name: string)
    requires name in MNEMONICS
    ensures FieldName(name) && name != ""
  {
    var i :| 0 <= i < |MNEMONICS| && MNEMONICS[i] == name;
    EntriesAreFieldNames(i);
  }

  lemma SanitizedShrinks(matrix: string, n: nat)
    requires n <= |Tokens(matrix)|
    ensures |Join(Tokens(matrix)[..n])| <= |matrix|
  {
    var fs := Fields(matrix);
    forall i | 0 <= i < n ensures |Tokens(matrix)[i]| <= |fs[i]| {
      var before, after := TrimParts(fs[i]);
    }
    JoinLength(Tokens(matrix)[..n], fs);
    JoinOfFields(matrix);
  }

  // ----- The loops

  method SkipSpace(s: string, from: nat) returns (p: nat)
    requires from <= |s|
    ensures from <= p <= |s| && AllSpace(s[from..p])
    ensures p < |s| ==> !IsSpace(s[p])
  {
    p := from;
    while p < |s| && IsSpace(s[p])
      invariant from <= p <= |s|
      invariant forall i :: from <= i < p ==> IsSpace(s[i])
    {
      p := p + 1;
    }
  }

  method FindSeparator(s: string, from: nat) returns (h: nat)
    requires from <= |s|
    ensures h == FieldEnd(s, from)
  {
    h := from;
    while h < |s| && s[h] != ','
      invariant from <= h <= |s|
      invariant FieldEnd(s, h) == FieldEnd(s, from)
    {
      h := h + 1;
    }
  }

  method TrimEnd(s: string, p: nat, h: nat) returns (t: nat)
    requires p <= h <= |s|
    ensures p <= t <= h && AllSpace(s[t..h])
    ensures t > p ==> !IsSpace(s[t - 1])
  {
    t := h;
    while t > p && IsSpace(s[t - 1])
      invariant p <= t <= h
      invariant forall i :: t <= i < h ==> IsSpace(s[i])
    {
      t := t - 1;
    }
  }

  /** White space is no separator. */
  lemma {:induction false} SpaceKeepsFieldEnd(s: string, from: nat, p: nat)
    requires from <= p <= |s| && AllSpace(s[from..p])
    ensures FieldEnd(s, p) == FieldEnd(s, from)
    decreases p - from
  {
    if from < p {
      assert s[from] == s[from..p][0];
      assert s[from + 1..p] == s[from..p][1..];
      SpaceKeepsFieldEnd(s, from + 1, p);
    }
  }

  /** The bounds of the field that starts at `from`, without the white space around it. */
  method NextField(s: string, from: nat) returns (p: nat, t: nat, h: nat)
    requires from <= |s|
    ensures from <= p <= t <= h == FieldEnd(s, from)
    ensures s[p..t] == Trim(s[from..h])
  {
    p := SkipSpace(s, from);
    h := FindSeparator(s, p);
    t := TrimEnd(s, p, h);
    SpaceKeepsFieldEnd(s, from, p);
    assert s[from..h] == s[from..p] + s[p..t] + s[t..h];
    assert Trimmed(s[p..t]) by {
      assert p < t ==> s[p..t][0] == s[p] && s[p..t][t - p - 1] == s[t - 1];
    }
    TrimUnique(s[from..h], s[from..p], s[p..t], s[t..h]);
  }

  /** Position of the first table name that is the text from `p` to `t`. */
  method FindMnemonic(s: string, p: nat, t: nat) returns (m: nat)
    requires p <= t <= |s|
    ensures m <= |MNEMONICS|
    ensures m < |MNEMONICS| ==> MNEMONICS[m] == s[p..t]
    ensures m == |MNEMONICS| ==> s[p..t] !in MNEMONICS
  {
    m := 0;
    while m < |MNEMONICS|
      invariant 0 <= m <= |MNEMONICS|
      invariant forall i :: 0 <= i < m ==> s[p..t] != MNEMONICS[i]
    {
      // strncmp finds the text at the start of the name, strlen that nothing follows it
      if t > p && s[p..t] <= MNEMONICS[m] && |MNEMONICS[m]| == t - p {
        break;
      }
      EntriesAreFieldNames(m);
      m := m + 1;
    }
  }

  /** A scan of the fields of `s` that has passed `count` of them stands at position `p`. */
  ghost predicate Scanned(s: string, p: nat, count: nat): (b: bool)
    ensures b ==> p <= |s| && count < |Tokens(s)|
  {
    p <= |s| && count < |Fields(s)| && FieldsFrom(s, p) == Fields(s)[count..]
  }

  lemma ScanStart(s: string)
    ensures Scanned(s, 0, 0)
  {
  }

  lemma ScanStep(s: string, p: nat, count: nat)
    requires Scanned(s, p, count)
    ensures Fields(s)[count] == s[p..FieldEnd(s, p)]
    ensures Tokens(s)[count] == Trim(s[p..FieldEnd(s, p)])
    ensures if FieldEnd(s, p) < |s| then Scanned(s, FieldEnd(s, p) + 1, count + 1)
            else count + 1 == |Fields(s)|
  {
    assert FieldsFrom(s, p)[0] == Fields(s)[count];
    assert FieldsFrom(s, p)[1..] == Fields(s)[count + 1..];
  }

  lemma JoinNext(names: seq<string>, count: nat)
    requires count < |names|
    ensures Join(names[..count + 1]) ==
            (if count == 0 then "" else Join(names[..count]) + ",") + names[count]
  {
    assert names[..count + 1] == names[..count] + [names[count]];
    JoinSnoc(names[..count], names[count]);
  }

  lemma UnknownNameFails(maxchannels: int, s: string, count: nat)
    requires count < Considered(maxchannels, s) && Tokens(s)[count] !in MNEMONICS
    ensures Sanitized(maxchannels, s).None?
  {
    assert Tokens(s)[..Considered(maxchannels, s)][count] !in MNEMONICS;
  }

  lemma KnownNamesSucceed(maxchannels: int, s: string, count: nat)
    requires count == Considered(maxchannels, s) && AllKnown(Tokens(s)[..count])
    ensures Sanitized(maxchannels, s) == Some(Join(Tokens(s)[..count]))
  {
  }

  lemma NothingYet(names: seq<string>)
    ensures AllKnown(names[..0]) && Join(names[..0]) == ""
  {
  }

  lemma OneMoreKnown(names: seq<string>, count: nat)
    requires count < |names| && AllKnown(names[..count]) && names[count] in MNEMONICS
    ensures AllKnown(names[..count + 1])
  {
    assert names[..count + 1] == names[..count] + [names[count]];
  }

  /** `_sanitize_matrix`: keep the names of the matrix, as long as all of them are in the table. */
  method SanitizeMatrix(maxchannels: int, matrix: Option<string>) returns (ret: Option<string>)
    ensures matrix.None? ==> ret.None?
    ensures matrix.Some? ==> ret == Sanitized(maxchannels, matrix.value)
    ensures matrix.Some? && ret.Some? ==> |ret.value| <= |matrix.value|
    ensures matrix.Some? ==>
              (ret.Some? <==> forall i :: 0 <= i < |Tokens(matrix.value)| && i < maxchannels ==>
                                Tokens(matrix.value)[i] in MNEMONICS)
    ensures matrix.Some? && ret.Some? && maxchannels > 0 ==>
              && |Fields(ret.value)| ==
                 (if maxchannels < |Tokens(matrix.value)| then maxchannels else |Tokens(matrix.value)|)
              && forall i :: 0 <= i < |Fields(ret.value)| ==> Fields(ret.value)[i] == Tokens(matrix.value)[i]
  {
    hide MNEMONICS, Sanitized, Scanned, AllKnown, Join, FieldsFrom;
    if matrix.None? {
      return None;
    }
    var s := matrix.value;
    SanitizingLaw(maxchannels, s);
    ghost var names := Tokens(s);
    SanitizedShrinks(s, Considered(maxchannels, s));
    var out, p, count := "", 0, 0;
    ScanStart(s);
    NothingYet(names);
    while count < maxchannels
      invariant 0 <= count && (count == 0 || count <= maxchannels) && Scanned(s, p, count)
      invariant AllKnown(names[..count])
      invariant out == Join(names[..count])
    {
      var start, t, h := NextField(s, p);
      ScanStep(s, p, count);
      var m := FindMnemonic(s, start, t);
      if m == |MNEMONICS| {
        UnknownNameFails(maxchannels, s, count);
        return None;
      }
      JoinNext(names, count);
      OneMoreKnown(names, count);
      if count > 0 {
        out := out + ",";
      }
      out := out + MNEMONICS[m];
      count := count + 1;
      if h == |s| {
        break;
      }
      p := h + 1;
    }
    KnownNamesSucceed(maxchannels, s, count);
    return Some(out);
  }

  /** `_tokenize_matrix`: one pass counts the fields, a second one copies them. */
  method TokenizeMatrix(matrix: string) returns (ret: seq<string>)
    ensures ret == Tokens(matrix)
  {
    hide Scanned, FieldsFrom, TrimAll, Trim;
    var count := CountFields(matrix);
    var names := new string[count];
    ghost var tokens := Tokens(matrix);
    var p := 0;
    count := 0;
    ScanStart(matrix);
    while true
      invariant 0 <= count < names.Length == |tokens| && Scanned(matrix, p, count)
      invariant forall i :: 0 <= i < count ==> names[i] == tokens[i]
      decreases |matrix| - p
    {
      var start, t, h := NextField(matrix, p);
      ScanStep(matrix, p, count);
      names[count] := matrix[start..t];
      count := count + 1;
      if h == |matrix| {
        break;
      }
      p := h + 1;
    }
    return names[..];
  }

  /** The first pass. */
  method CountFields(matrix: string) returns (count: nat)
    ensures count == |Tokens(matrix)|
  {
    hide Scanned;
    var p := 0;
    count := 0;
    ScanStart(matrix);
    while true
      invariant Scanned(matrix, p, count)
      decreases |matrix| - p
    {
      var start, t, h := NextField(matrix, p);
      ScanStep(matrix, p, count);
      count := count + 1;
      if h == |matrix| {
        break;
      }
      p := h + 1;
    }
  }

  /** The first channel of that name, or -1; the placeholder "X" names no channel. */
  function ChannelOf(name: string, names: seq<string>): (c: int)
    ensures -1 <= c < |names|
    ensures c >= 0 ==> name != "X" && names[c] == name && forall i :: 0 <= i < c ==> names[i] != name
    ensures c == -1 ==> name == "X" || name == "" || name !in names
  {
    var m := Lookup(names, name);
    if name == "X" || m == |names| then -1 else m
  }

  lemma ChannelOfAt(names: seq<string>, c: nat)
    requires c < |names| && names[c] != "X" && names[c] != ""
    requires forall i :: 0 <= i < c ==> names[i] != names[c]
    ensures ChannelOf(names[c], names) == c
  {
  }

  lemma NeedleIsNamed(needle: nat)
    requires 0 < needle < |MNEMONICS|
    ensures MNEMONICS[needle] != "X" && MNEMONICS[needle] != ""
  {
    EntriesAreFieldNames(needle);
    NoNameFollowsItsExtension(0, needle);
  }

  /** The inner loop of `_find_channel`. It compares the needle itself with the field, over and
      over, and so stops at once or never. */
  method FindNeedle(names: seq<string>, needle: nat, field: string) returns (m: nat)
    requires needle < |names|
    ensures m <= |names| && (m < |names| <==> field == names[needle])
  {
    m := 0;
    while m < |names|
      invariant 0 <= m <= |names|
      invariant m > 0 ==> field != names[needle]
    {
      if field <= names[needle] && |names[needle]| == |field| {
        break;
      }
      m := m + 1;
    }
  }

  /** The loop of `_find_channel` over the fields of the haystack. */
  method FindNamedField(names: seq<string>, needle: nat, haystack: string) returns (c: int)
    requires needle < |names| && names[needle] != "X" && names[needle] != ""
    ensures c == ChannelOf(names[needle], Fields(haystack))
  {
    hide Scanned, FieldsFrom, ChannelOf;
    ghost var fields := Fields(haystack);
    var p, count := 0, 0;
    ScanStart(haystack);
    while true
      invariant 0 <= count && Scanned(haystack, p, count)
      invariant forall i :: 0 <= i < count ==> fields[i] != names[needle]
      decreases |haystack| - p
    {
      var h := FindSeparator(haystack, p);
      ScanStep(haystack, p, count);
      var m := FindNeedle(names, needle, haystack[p..h]);
      if m < |names| {
        ChannelOfAt(fields, count);
        return count;
      }
      count := count + 1;
      if h == |haystack| {
        break;
      }
      p := h + 1;
    }
    return -1;
  }

  /** `_find_channel` */
  method FindChannel(needle: int, haystack: string) returns (c: int)
    requires 0 <= needle < |MNEMONICS|
    ensures c == ChannelOf(MNEMONICS[needle], Fields(haystack))
  {
    if needle == 0 {
      return -1;
    }
    NeedleIsNamed(needle);
    c := FindNamedField(MNEMONICS, needle, haystack);
  }

  /** The position in the table that a slot name is looked up at: the first name it is a prefix
      of. Unlike the other lookups this one does not compare lengths. */
  function PrefixIndex(names: seq<string>, w: string): (m: nat)
    ensures m <= |names|
    ensures m < |names| ==> w <= names[m]
    ensures forall i :: 0 <= i < m ==> !(w <= names[i])
  {
    if names == [] || w <= names[0] then 0 else 1 + PrefixIndex(names[1..], w)
  }

  /** For the names of the table the prefix lookup finds the entry itself. */
  lemma PrefixLookupIsExact(j: nat)
    requires j < |MNEMONICS|
    ensures PrefixIndex(MNEMONICS, MNEMONICS[j]) == j
  {
    var m := PrefixIndex(MNEMONICS, MNEMONICS[j]);
    if m < j {
      NoNameFollowsItsExtension(m, j);
    }
  }

  /** An empty slot name finds the placeholder "X". */
  lemma PrefixLookupOfEmpty()
    ensures PrefixIndex(MNEMONICS, "") == 0 && MNEMONICS[0] == "X"
  {
  }

  // ----- A documented matrix

  /** The six-channel order that the documentation gives for AIFF-C files. */
  const AIFF_C := "L,CL,C,R,RC,BC"

  lemma AiffCFields()
    ensures Fields(AIFF_C) == ["L", "CL", "C", "R", "RC", "BC"]
  {
    hide Join, FieldsFrom;
    var back := ["R"] + (["RC"] + ["BC"]);
    JoinOne("BC");
    JoinCons("RC", ["BC"]);
    JoinCons("R", ["RC"] + ["BC"]);
    assert Join(back) == "R,RC,BC";
    var names := ["L"] + (["CL"] + (["C"] + back));
    JoinCons("C", back);
    JoinCons("CL", ["C"] + back);
    JoinCons("L", ["CL"] + (["C"] + back));
    assert Join(names) == AIFF_C;
    assert names == ["L", "CL", "C", "R", "RC", "BC"];
    FieldsOfJoin(names);
  }

  lemma NoSuchName()
    ensures "RC" !in MNEMONICS
    ensures "L" in MNEMONICS && "CL" in MNEMONICS && "C" in MNEMONICS && "R" in MNEMONICS
  {
    assert MNEMONICS[2] == "L" && MNEMONICS[5] == "CL" && MNEMONICS[3] == "C" && MNEMONICS[4] == "R";
    forall i | 0 <= i < |MNEMONICS| ensures MNEMONICS[i] != "RC" {
      if i < |PLACES| {
        PlaceShape(i);
      }
    }
  }

  /** It is rejected as soon as its fifth name is looked at, and only then: "RC" is not in the table. */
  lemma AiffCIsRejected(maxchannels: int)
    ensures Sanitized(maxchannels, AIFF_C).None? <==> maxchannels >= 5
  {
    AiffCFields();
    NoSuchName();
    hide MNEMONICS, FieldsFrom, Join;
    var tokens := Tokens(AIFF_C);
    var n := Considered(maxchannels, AIFF_C);
    forall i | 0 <= i < 6 ensures tokens[i] == Fields(AIFF_C)[i] {
      TwoLetters(Fields(AIFF_C)[i]);
    }
    if n >= 5 {
      assert tokens[..n][4] == "RC";
    } else {
      forall i | 0 <= i < n ensures tokens[..n][i] in MNEMONICS {
        assert tokens[..n][i] == Fields(AIFF_C)[i];
      }
    }
  }

  lemma TwoLetters(name: string)
    requires 1 <= |name| <= 2 && forall i :: 0 <= i < |name| ==> !IsSpace(name[i])
    ensures Trim(name) == name
  {
    TrimOfTrimmed(name);
  }
}
