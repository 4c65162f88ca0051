/** Rendering names as a matrix in a character buffer of fixed size. */
module Rendering {
  import opened Bytes
  import opened MatrixSyntax
  import opened Mnemonics

  /** The size of the buffer, with room for the terminator. */
  const BUFFER_SIZE := 257

  predicate Fits(names: seq<string>) {
    |Join(names)| < BUFFER_SIZE
  }

  /** The rendering of the names, or nothing when it does not fit: `strcat` does not look, and what the
      original does then is undefined. */
  function Rendered(names: seq<string>): (r: Option<string>)
    ensures r.Some? <==> Fits(names)
    ensures r.Some? ==> r.value == Join(names)
  {
    if Fits(names) then Some(Join(names)) else None
  }

  /** `strcat` of `s` to a string of `used` characters. */
  method StrCat(buffer: array<char>, used: nat, s: string) returns (fits: bool)
    requires used < buffer.Length
    modifies buffer
    ensures fits <==> used + |s| < buffer.Length
    ensures fits ==> buffer[..used + |s|] == old(buffer[..used]) + s
  {
    fits := used + |s| < buffer.Length;
    if fits {
      for i := 0 to |s|
        invariant buffer[..used] == old(buffer[..used]) && buffer[used..used + i] == s[..i]
      {
        buffer[used + i] := s[i];
      }
      buffer[used + |s|] := '\0';
    }
  }

  /** A name goes after the `count` names that are there, with a comma unless it is the first. */
  method AppendName(buffer: array<char>, used: nat, ghost names: seq<string>, count: nat, name: string)
    returns (n: nat, fits: bool)
    requires used < buffer.Length == BUFFER_SIZE
    requires count == |names| && buffer[..used] == Join(names)
    modifies buffer
    ensures fits <==> Fits(names + [name])
    ensures fits ==> n < BUFFER_SIZE && buffer[..n] == Join(names + [name])
  {
    JoinSnoc(names, name);
    hide Join;
    n, fits := used, true;
    if count > 0 {
      fits := StrCat(buffer, n, ",");
      n := n + 1;
    }
    if fits {
      fits := StrCat(buffer, n, name);
      n := n + |name|;
    }
  }

  /** When the rendering of some names does not fit, neither does that of these and more. */
  lemma MoreDoNotFit(names: seq<string>, all: seq<string>)
    requires names <= all && !Fits(names)
    ensures !Fits(all)
  {
    JoinLength(names, all);
  }

  lemma {:induction false} JoinBound(names: seq<string>, width: nat)
    requires names != [] && forall i :: 0 <= i < |names| ==> |names[i]| <= width
    ensures |Join(names)| <= |names| * (width + 1) - 1
  {
    if |names| > 1 {
      JoinBound(names[1..], width);
      assert |names| * (width + 1) == (|names| - 1) * (width + 1) + (width + 1);
    }
  }

  /** The names of the table have three characters at most. */
  lemma EntriesAreShort(name: string)
    requires name in MNEMONICS
    ensures |name| <= 3
  {
    var i :| 0 <= i < |MNEMONICS| && MNEMONICS[i] == name;
    if i < |PLACES| {
      PlaceShape(i);
    }
  }

  /** Sixty-four names of the table always fit. */
  lemma KnownNamesFit(names: seq<string>)
    requires |names| <= 64 && forall i :: 0 <= i < |names| ==> names[i] in MNEMONICS
    ensures Fits(names)
  {
    if names != [] {
      forall i | 0 <= i < |names| ensures |names[i]| <= 3 {
        EntriesAreShort(names[i]);
      }
      JoinBound(names, 3);
    }
  }

  /** Sixty-five need not. */
  lemma {:induction false} RepeatedNameLength(name: string, n: nat)
    requires n > 0
    ensures |Join(seq(n, _ => name))| == n * (|name| + 1) - 1
  {
    var names := seq(n, _ => name);
    if n > 1 {
      assert names[1..] == seq(n - 1, _ => name);
      RepeatedNameLength(name, n - 1);
      assert n * (|name| + 1) == (n - 1) * (|name| + 1) + (|name| + 1);
    }
  }
}
