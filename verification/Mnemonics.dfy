/** The table of channel names. */
module Mnemonics {
  import opened MatrixSyntax

  /** The named speaker positions, in table order. */
  const PLACES: seq<string> := [
    "X", "M", "L", "C", "R", "CL", "CR", "SL", "SR", "BL", "BC", "BR", "LFE"]

  function Digit(n: nat): char
    requires n < 10
  {
    '0' + n as char
  }

  /** The name of auxiliary channel `n`. */
  function AuxName(n: nat): string
    requires 1 <= n <= 32
  {
    if n < 10 then ['A', Digit(n)] else ['A', Digit(n / 10), Digit(n % 10)]
  }

  function AuxNames(): (names: seq<string>)
    ensures |names| == 32 && forall i :: 0 <= i < 32 ==> names[i] == AuxName(i + 1)
  {
    seq(32, i requires 0 <= i < 32 => AuxName(i + 1))
  }

  /** The channel locations the library knows, in table order: the speaker positions, then "A1"
      to "A32". */
  const MNEMONICS: seq<string> := PLACES + AuxNames()

  /** The table as the library lists it. */
  lemma TableOfNames()
    ensures |MNEMONICS| == 45
    ensures MNEMONICS[..13] ==
            ["X", "M", "L", "C", "R", "CL", "CR", "SL", "SR", "BL", "BC", "BR", "LFE"]
    ensures MNEMONICS[13..29] ==
            ["A1", "A2", "A3", "A4", "A5", "A6", "A7", "A8", "A9", "A10", "A11", "A12", "A13", "A14", "A15", "A16"]
    ensures MNEMONICS[29..] ==
            ["A17", "A18", "A19", "A20", "A21", "A22", "A23", "A24", "A25", "A26", "A27", "A28", "A29", "A30", "A31", "A32"]
  {
    assert MNEMONICS[..13] == PLACES;
    FirstAuxNames();
    LastAuxNames();
    assert MNEMONICS[13..29] == AuxNames()[..16];
    assert MNEMONICS[29..] == AuxNames()[16..];
    hide AuxNames, AuxName;
  }

  lemma FirstAuxNames()
    ensures AuxNames()[..16] ==
            ["A1", "A2", "A3", "A4", "A5", "A6", "A7", "A8", "A9", "A10", "A11", "A12", "A13", "A14", "A15", "A16"]
  {
    hide AuxNames;
  }

  lemma LastAuxNames()
    ensures AuxNames()[16..] ==
            ["A17", "A18", "A19", "A20", "A21", "A22", "A23", "A24", "A25", "A26", "A27", "A28", "A29", "A30", "A31", "A32"]
  {
    hide AuxNames;
  }

  lemma PlaceShape(i: nat)
    requires i < |PLACES|
    ensures |PLACES[i]| == if i < 5 then 1 else if i < 12 then 2 else 3
    ensures PLACES[i][0] == "XMLCRCCSSBBBL"[i]
    ensures FieldName(PLACES[i])
  {
    if i < 5 {
      if i == 0 { } else if i == 1 { } else if i == 2 { } else if i == 3 { }
    } else if i < 9 {
      if i == 5 { } else if i == 6 { } else if i == 7 { }
    } else {
      if i == 9 { } else if i == 10 { } else if i == 11 { }
    }
  }

  /** The names of the table can be fields of a matrix, and none is empty. */
  lemma EntriesAreFieldNames(i: nat)
    requires i < |MNEMONICS|
    ensures MNEMONICS[i] != "" && FieldName(MNEMONICS[i])
  {
    if i < |PLACES| {
      PlaceShape(i);
    }
  }

  lemma PlacesDiffer(i: nat, j: nat)
    requires i < j < |PLACES|
    ensures !(PLACES[j] <= PLACES[i])
  {
    PlaceShape(i);
    PlaceShape(j);
    assert |PLACES[j]| <= |PLACES[i]| ==>
        PLACES[j][0] != PLACES[i][0] || PLACES[j][1] != PLACES[i][1];
  }

  lemma AuxNamesDiffer(a: nat, b: nat)
    requires 1 <= a < b <= 32
    ensures !(AuxName(b) <= AuxName(a))
  {
    var x, y := AuxName(a), AuxName(b);
    assert |y| <= |x| ==> y[1] != x[1] || y[2] != x[2];
  }

  /** No name of the table follows a longer name it is a prefix of, and no name occurs twice. */
  lemma NoNameFollowsItsExtension(i: nat, j: nat)
    requires i < j < |MNEMONICS|
    ensures !(MNEMONICS[j] <= MNEMONICS[i])
  {
    if j < |PLACES| {
      PlacesDiffer(i, j);
    } else if i < |PLACES| {
      PlaceShape(i);
    } else {
      AuxNamesDiffer(i - |PLACES| + 1, j - |PLACES| + 1);
    }
  }
}
