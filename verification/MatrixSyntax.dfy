/** The syntax of channel matrices: fields between commas, trimmed of white space.

    A C string is the sequence of its characters before the terminator, and a pointer into it
    an index from 0 to its length; reading the terminator is reading at the length. */
module MatrixSyntax {

  /** White space as `isspace` sees it in the C locale. */
  predicate IsSpace(c: char) {
    c == ' ' || 9 <= c as int <= 13
  }

  /** The blank, tabulator, line feed, vertical tabulator, form feed and carriage return, and no others. */
  lemma WhiteSpace(c: char)
    ensures IsSpace(c) <==> c in [' ', '\t', '\n', 11 as char, 12 as char, '\r']
  {
  }

  // ----- Fields, trimming and joining

  /** The first position from `p` on that is a comma or the end of the string. */
  function FieldEnd(s: string, p: nat): (h: nat)
    requires p <= |s|
    ensures p <= h <= |s|
    ensures h < |s| ==> s[h] == ','
    ensures ',' !in s[p..h]
    decreases |s| - p
  {
    if p == |s| || s[p] == ',' then p else FieldEnd(s, p + 1)
  }

  /** The comma-separated fields of `s` from position `p` on. */
  function FieldsFrom(s: string, p: nat): (fs: seq<string>)
    requires p <= |s|
    ensures |fs| > 0
    decreases |s| - p
  {
    var h := FieldEnd(s, p);
    [s[p..h]] + if h < |s| then FieldsFrom(s, h + 1) else []
  }

  function Fields(s: string): (fs: seq<string>)
    ensures |fs| > 0
  {
    FieldsFrom(s, 0)
  }

  function TrimLeft(s: string): string {
    if s != [] && IsSpace(s[0]) then TrimLeft(s[1..]) else s
  }

  function TrimRight(s: string): string {
    if s != [] && IsSpace(s[|s| - 1]) then TrimRight(s[..|s| - 1]) else s
  }

  function Trim(s: string): string {
    TrimRight(TrimLeft(s))
  }

  function TrimAll(fs: seq<string>): (ts: seq<string>)
    ensures |ts| == |fs| && forall i :: 0 <= i < |fs| ==> ts[i] == Trim(fs[i])
  {
    seq(|fs|, i requires 0 <= i < |fs| => Trim(fs[i]))
  }

  /** The names a channel matrix lists. */
  function Tokens(s: string): (ts: seq<string>)
    ensures |ts| == |Fields(s)|
    ensures forall i :: 0 <= i < |ts| ==> ts[i] == Trim(Fields(s)[i])
  {
    TrimAll(Fields(s))
  }

  /** The names, separated by single commas. */
  function Join(names: seq<string>): string {
    if names == [] then ""
    else if |names| == 1 then names[0]
    else names[0] + "," + Join(names[1..])
  }

  predicate AllSpace(s: string) {
    forall i :: 0 <= i < |s| ==> IsSpace(s[i])
  }

  /** Neither end of `s` is white space. */
  predicate Trimmed(s: string) {
    s == [] || (!IsSpace(s[0]) && !IsSpace(s[|s| - 1]))
  }

  /** A trimmed name without commas: what one field of a matrix can hold. */
  predicate FieldName(s: string) {
    Trimmed(s) && ',' !in s
  }

  lemma {:induction false} TrimLeftParts(s: string)
    ensures |TrimLeft(s)| <= |s|
    ensures AllSpace(s[..|s| - |TrimLeft(s)|]) && s[|s| - |TrimLeft(s)|..] == TrimLeft(s)
    ensures TrimLeft(s) != [] ==> !IsSpace(TrimLeft(s)[0])
  {
    if s != [] && IsSpace(s[0]) {
      TrimLeftParts(s[1..]);
    }
  }

  lemma {:induction false} TrimRightParts(s: string)
    ensures |TrimRight(s)| <= |s|
    ensures TrimRight(s) == s[..|TrimRight(s)|] && AllSpace(s[|TrimRight(s)|..])
    ensures TrimRight(s) != [] ==> !IsSpace(TrimRight(s)[|TrimRight(s)| - 1])
  {
    if s != [] && IsSpace(s[|s| - 1]) {
      var rest := s[..|s| - 1];
      TrimRightParts(rest);
      assert s[|TrimRight(s)|..] == rest[|TrimRight(s)|..] + [s[|s| - 1]];
    }
  }

  /** Trimming removes white space at the two ends, all of it, and nothing else. */
  lemma TrimParts(s: string) returns (before: string, after: string)
    ensures s == before + Trim(s) + after
    ensures AllSpace(before) && AllSpace(after) && Trimmed(Trim(s))
  {
    hide TrimLeft, TrimRight, AllSpace;
    var t := TrimLeft(s);
    TrimLeftParts(s);
    TrimRightParts(t);
    before, after := s[..|s| - |t|], t[|Trim(s)|..];
  }

  /** The trimmed middle of a string with white space around it is its trimming. */
  lemma {:induction false} TrimUnique(s: string, before: string, name: string, after: string)
    requires s == before + name + after
    requires AllSpace(before) && AllSpace(after) && Trimmed(name)
    ensures Trim(s) == name
    decreases |s|
  {
    if before != [] {
      assert s[0] == before[0];
      assert s[1..] == before[1..] + name + after;
      TrimUnique(s[1..], before[1..], name, after);
    } else if name == [] {
      if after != [] {
        assert s == after;
        TrimUnique(s[1..], [], [], after[1..]);
      }
    } else {
      assert s[0] == name[0];
      TrimRightUnique(s, name, after);
    }
  }

  lemma {:induction false} TrimRightUnique(s: string, name: string, after: string)
    requires s == name + after && AllSpace(after) && Trimmed(name)
    ensures TrimRight(s) == name
  {
    if after != [] {
      assert s[|s| - 1] == after[|after| - 1];
      assert s[..|s| - 1] == name + after[..|after| - 1];
      TrimRightUnique(s[..|s| - 1], name, after[..|after| - 1]);
    }
  }

  lemma TrimOfTrimmed(s: string)
    requires Trimmed(s)
    ensures Trim(s) == s
  {
    TrimUnique(s, [], s, []);
  }

  lemma {:induction false} FieldsHaveNoCommas(s: string, p: nat)
    requires p <= |s|
    ensures forall i :: 0 <= i < |FieldsFrom(s, p)| ==> ',' !in FieldsFrom(s, p)[i]
    decreases |s| - p
  {
    hide FieldEnd;
    var h := FieldEnd(s, p);
    if h < |s| {
      FieldsHaveNoCommas(s, h + 1);
    }
  }

  /** Every token of every string is trimmed and free of commas. */
  lemma TokensAreFieldNames(s: string)
    ensures forall i :: 0 <= i < |Tokens(s)| ==> FieldName(Tokens(s)[i])
  {
    FieldsHaveNoCommas(s, 0);
    forall i | 0 <= i < |Tokens(s)| ensures FieldName(Tokens(s)[i]) {
      var f := Fields(s)[i];
      var before, after := TrimParts(f);
      forall c | c in Trim(f) ensures c in f { }
    }
  }

  /** One field, and what follows the comma after it. */
  lemma FieldsFromStep(s: string, p: nat, h: nat)
    requires p <= h <= |s| && FieldEnd(s, p) == h
    ensures FieldsFrom(s, p) == [s[p..h]] + if h < |s| then FieldsFrom(s, h + 1) else []
  {
  }

  lemma JoinOne(name: string)
    ensures Join([name]) == name
  {
  }

  lemma JoinCons(name: string, rest: seq<string>)
    requires rest != []
    ensures Join([name] + rest) == name + "," + Join(rest)
  {
    assert ([name] + rest)[1..] == rest;
  }

  lemma {:induction false} FieldsOfJoinFrom(names: seq<string>, s: string, p: nat)
    requires p <= |s| && s[p..] == Join(names)
    requires names != [] && forall i :: 0 <= i < |names| ==> ',' !in names[i]
    ensures FieldsFrom(s, p) == names
    decreases |names|
  {
    hide FieldsFrom, FieldEnd, Join;
    var name, rest := names[0], names[1..];
    var h := p + |name|;
    assert names == [name] + rest;
    if rest == [] {
      assert names == [name];
      JoinOne(name);
      assert s[p..] == s[p..h];
      FieldEndAt(s, p, h);
    } else {
      JoinCons(name, rest);
      assert s[p..] == name + "," + Join(rest);
      SliceParts(s, p, name, Join(rest));
      FieldEndAt(s, p, h);
      FieldsOfJoinFrom(rest, s, h + 1);
    }
    FieldsFromStep(s, p, h);
  }

  lemma SliceParts(s: string, p: nat, name: string, rest: string)
    requires p <= |s| && s[p..] == name + "," + rest
    ensures p + |name| < |s| && s[p..p + |name|] == name && s[p + |name|] == ','
    ensures s[p + |name| + 1..] == rest
  {
    assert s[p + |name|] == s[p..][|name|];
    assert s[p + |name| + 1..] == s[p..][|name| + 1..];
  }

  lemma {:induction false} FieldEndAt(s: string, p: nat, h: nat)
    requires p <= h <= |s|
    requires ',' !in s[p..h]
    requires h < |s| ==> s[h] == ','
    ensures FieldEnd(s, p) == h
    decreases h - p
  {
    if p < h {
      assert s[p] == s[p..h][0];
      assert s[p + 1..h] == s[p..h][1..];
      FieldEndAt(s, p + 1, h);
    }
  }

  /** Splitting at the commas undoes joining. */
  lemma {:induction false} FieldsOfJoin(names: seq<string>)
    requires names != [] && forall i :: 0 <= i < |names| ==> ',' !in names[i]
    ensures Fields(Join(names)) == names
  {
    var s := Join(names);
    assert s[0..] == s;
    FieldsOfJoinFrom(names, s, 0);
  }

  /** Tokenizing the join of any nonempty list of field names returns the list. */
  lemma {:induction false} TokensOfJoin(names: seq<string>)
    requires names != [] && forall i :: 0 <= i < |names| ==> FieldName(names[i])
    ensures Tokens(Join(names)) == names
  {
    FieldsOfJoin(names);
    forall i | 0 <= i < |names| ensures Trim(names[i]) == names[i] {
      TrimOfTrimmed(names[i]);
    }
  }

  lemma {:induction false} JoinOfFieldsFrom(s: string, p: nat)
    requires p <= |s|
    ensures Join(FieldsFrom(s, p)) == s[p..]
    decreases |s| - p
  {
    hide FieldsFrom, FieldEnd, Join;
    var h := FieldEnd(s, p);
    FieldsFromStep(s, p, h);
    if h < |s| {
      JoinOfFieldsFrom(s, h + 1);
      JoinCons(s[p..h], FieldsFrom(s, h + 1));
      assert s[p..] == s[p..h] + "," + s[h + 1..];
    } else {
      assert FieldsFrom(s, p) == [s[p..h]];
      JoinOne(s[p..h]);
    }
  }

  /** Joining undoes splitting at the commas, on every string. */
  lemma JoinOfFields(s: string)
    ensures Join(Fields(s)) == s
  {
    JoinOfFieldsFrom(s, 0);
    assert s[0..] == s;
  }

  lemma {:induction false} JoinSnoc(names: seq<string>, name: string)
    ensures Join(names + [name]) == (if names == [] then "" else Join(names) + ",") + name
    ensures names == [] ==> Join(names) == ""
  {
    if names == [] {
      assert names + [name] == [name];
    } else {
      assert (names + [name])[1..] == names[1..] + [name];
      JoinSnoc(names[1..], name);
      if |names| > 1 {
        assert Join(names) + "," + name == names[0] + "," + (Join(names[1..]) + "," + name);
      }
    }
  }

  lemma {:induction false} JoinLength(a: seq<string>, b: seq<string>)
    requires |a| <= |b| && forall i :: 0 <= i < |a| ==> |a[i]| <= |b[i]|
    ensures |Join(a)| <= |Join(b)|
  {
    if |a| > 1 {
      JoinLength(a[1..], b[1..]);
    } else if |a| == 1 && |b| > 1 {
      assert |Join(b)| >= |b[0]|;
    }
  }
}
