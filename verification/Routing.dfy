/** Which input channel each output channel plays, and what the three ordering policies promise. */
module Routing {
  import opened Basics
  import opened Bytes
  import opened ChannelMatrix
  import opened ChannelMask

  /** How freely a driver's output channels can be arranged. */
  datatype Order = Undefined | Fixed | Collapsible | Permutable

  /** What the core hands to the driver: the number of channels, the mask of output positions in
      use, and the names of the slots, if there are any. */
  datatype Layout = Layout(channels: nat, mask: nat, inter: Option<string>)

  /** What opening a device can fail with. `Overrun` is not an error of the original: the names of the
      slots do not fit the buffer they are rendered in, and what happens then is undefined. */
  datatype Error = BadOption | BadFormat | OpenDevice | Failed | Overrun

  datatype Result<+T> = Ok(value: T) | Err(error: Error)

  /** The input channel played in slot `j`: the first of that name, or -1. */
  function Routed(slots: seq<string>, inputs: seq<string>, j: nat): (c: int)
    ensures -1 <= c < |inputs|
  {
    if j < |slots| then ChannelOf(slots[j], inputs) else -1
  }

  function RoutingOf(slots: seq<string>, inputs: seq<string>, n: nat): (r: seq<int>)
    ensures |r| == n && forall j :: 0 <= j < n ==> r[j] == Routed(slots, inputs, j)
  {
    seq(n, j requires 0 <= j < n => Routed(slots, inputs, j))
  }

  /** Input channel `c` is the first of its name and maps to an output position. */
  ghost predicate FirstMapped(inputs: seq<string>, outNames: seq<string>, c: nat) {
    && c < |inputs| && Place(inputs[c], outNames) >= 0
    && forall i :: 0 <= i < c ==> inputs[i] != inputs[c]
  }

  lemma FirstMappedIsChannel(inputs: seq<string>, outNames: seq<string>, c: nat)
    requires FirstMapped(inputs, outNames, c)
    ensures ChannelOf(inputs[c], inputs) == c
  {
    ChannelOfAt(inputs, c);
  }

  /** A mapped name belongs to a channel that is the first of its name. */
  lemma MappedName(inputs: seq<string>, outNames: seq<string>, name: string)
    requires name in inputs && Place(name, outNames) >= 0
    ensures ChannelOf(name, inputs) >= 0
    ensures FirstMapped(inputs, outNames, ChannelOf(name, inputs))
  {
  }

  ghost function MaskBetween(inputs: seq<string>, outNames: seq<string>): nat {
    MaskOf(Places(inputs, outNames))
  }

  lemma MaskBits(inputs: seq<string>, outNames: seq<string>, c: nat)
    requires c < |inputs| && Place(inputs[c], outNames) >= 0
    ensures Bit(MaskBetween(inputs, outNames), Place(inputs[c], outNames))
  {
    MaskOfBits(Places(inputs, outNames), Place(inputs[c], outNames));
    assert Places(inputs, outNames)[c] == Place(inputs[c], outNames);
  }

  // ----- FIXED

  /** FIXED: every mapped input plays at its position in the output matrix, and the channels end
      with the highest position that an input maps to. */
  lemma FixedPlacement(inputs: seq<string>, outNames: seq<string>)
    requires MaskBetween(inputs, outNames) != 0
    ensures var channels := MaxBit(MaskBetween(inputs, outNames)) + 1;
            && 0 < channels <= |outNames|
            && (exists c :: 0 <= c < |inputs| && Place(inputs[c], outNames) == channels - 1)
            && (forall c :: 0 <= c < |inputs| ==> Place(inputs[c], outNames) < channels)
            && forall c: nat :: FirstMapped(inputs, outNames, c) ==>
                 Routed(outNames, inputs, Place(inputs[c], outNames)) == c
  {
    var places := Places(inputs, outNames);
    var mask := MaskOf(places);
    var top := MaxBit(mask);
    MaxBitIsHighest(mask, 0);
    MaskOfBits(places, top);
    var c :| 0 <= c < |places| && places[c] == top;
    assert Place(inputs[c], outNames) == top;
    forall c: nat | c < |inputs| && Place(inputs[c], outNames) >= 0
      ensures Place(inputs[c], outNames) <= top
    {
      MaskBits(inputs, outNames, c);
      MaxBitIsHighest(mask, Place(inputs[c], outNames));
    }
    forall c: nat | FirstMapped(inputs, outNames, c)
      ensures Routed(outNames, inputs, Place(inputs[c], outNames)) == c
    {
      FirstMappedIsChannel(inputs, outNames, c);
    }
  }

  // ----- COLLAPSIBLE

  /** COLLAPSIBLE: every mapped input plays in the slot counted by the bits below its own. */
  lemma CollapsiblePlacement(inputs: seq<string>, outNames: seq<string>)
    ensures var mask := MaskBetween(inputs, outNames);
            var slots := MaskNames(mask, outNames);
            && |slots| == PopCount(mask)
            && Distinct(slots)
            && forall c: nat :: FirstMapped(inputs, outNames, c) ==>
                 var rank := |Ones(mask, Place(inputs[c], outNames))|;
                 rank < |slots| && slots[rank] == inputs[c] && Routed(slots, inputs, rank) == c
  {
    var places := Places(inputs, outNames);
    var mask := MaskOf(places);
    MaskOfPlaces(inputs, outNames);
    MaskOfBound(places, |outNames|);
    PopCountIsOnes(mask, |outNames|);
    MaskNamesDiffer(mask, outNames);
    forall c: nat | FirstMapped(inputs, outNames, c)
      ensures var rank := |Ones(mask, Place(inputs[c], outNames))|;
              rank < |MaskNames(mask, outNames)| && MaskNames(mask, outNames)[rank] == inputs[c] &&
              Routed(MaskNames(mask, outNames), inputs, rank) == c
    {
      MaskBits(inputs, outNames, c);
      OnesRank(mask, Place(inputs[c], outNames), |outNames|);
      FirstMappedIsChannel(inputs, outNames, c);
    }
  }

  // ----- PERMUTABLE

  /** PERMUTABLE: when no mapped name is repeated, the slots play the mapped inputs, all of them,
      in their own order. */
  lemma PermutablePlacement(inputs: seq<string>, outNames: seq<string>)
    requires Distinct(MappedFields(inputs, outNames))
    ensures var slots := MappedFields(inputs, outNames);
            var routing := RoutingOf(slots, inputs, PopCount(MaskBetween(inputs, outNames)));
            && |routing| == |slots|
            && (forall i, j :: 0 <= i < j < |routing| ==> 0 <= routing[i] < routing[j])
            && (forall c: nat :: c in routing <==> c < |inputs| && Place(inputs[c], outNames) >= 0)
  {
    var slots := MappedFields(inputs, outNames);
    var n := PopCount(MaskBetween(inputs, outNames));
    var routing := RoutingOf(slots, inputs, n);
    MappedCount(Places(inputs, outNames));
    MappedFieldsAreSelected(inputs, outNames);
    DistinctPlaces(inputs, outNames);
    MappedInOrder(inputs, outNames);
    var at := MappedAt(inputs, outNames);
    assert routing == at by {
      forall j | 0 <= j < |slots| ensures Routed(slots, inputs, j) == at[j] {
        FirstOfDistinct(inputs, outNames, j);
        ChannelOfAt(inputs, at[j]);
      }
    }
  }

  /** The indices of the inputs that map. */
  ghost function MappedAt(inputs: seq<string>, outNames: seq<string>): seq<nat> {
    if inputs == [] then []
    else
      var n := |inputs| - 1;
      MappedAt(inputs[..n], outNames) + if Place(inputs[n], outNames) >= 0 then [n] else []
  }

  lemma {:induction false} MappedInOrder(inputs: seq<string>, outNames: seq<string>)
    ensures var at, slots := MappedAt(inputs, outNames), MappedFields(inputs, outNames);
            && |at| == |slots|
            && (forall j :: 0 <= j < |at| ==> at[j] < |inputs| && inputs[at[j]] == slots[j])
            && (forall i, j :: 0 <= i < j < |at| ==> at[i] < at[j])
            && (forall c: nat :: c in at <==> c < |inputs| && Place(inputs[c], outNames) >= 0)
  {
    if inputs != [] {
      MappedInOrder(inputs[..|inputs| - 1], outNames);
    }
  }

  /** Among distinct mapped names each belongs to one input. */
  lemma FirstOfDistinct(inputs: seq<string>, outNames: seq<string>, j: nat)
    requires Distinct(MappedFields(inputs, outNames)) && j < |MappedAt(inputs, outNames)|
    ensures var c := MappedAt(inputs, outNames)[j];
            c < |inputs| && forall i :: 0 <= i < c ==> inputs[i] != inputs[c]
  {
    MappedInOrder(inputs, outNames);
    var at := MappedAt(inputs, outNames);
    var c := at[j];
    assert c in at;
    forall i | 0 <= i < c ensures inputs[i] != inputs[c] {
      if Place(inputs[i], outNames) >= 0 {
        assert i in at;
        var k :| 0 <= k < |at| && at[k] == i;
        assert MappedFields(inputs, outNames)[k] != MappedFields(inputs, outNames)[j];
      }
    }
  }

  // ----- Every mapped input in exactly one slot

  ghost predicate PlayedOnce(routing: seq<int>, c: nat) {
    && c in routing
    && forall i, j :: 0 <= i < j < |routing| ==> routing[i] != c || routing[j] != c
  }

  /** Each input that is the first of its name and maps to an output is played, and played once. */
  ghost predicate EachPlayedOnce(inputs: seq<string>, outNames: seq<string>, routing: seq<int>) {
    forall c: nat :: FirstMapped(inputs, outNames, c) ==> PlayedOnce(routing, c)
  }

  /** A name that an input has, and that maps, stands in two of the first `n` slots. */
  ghost predicate Repeats(inputs: seq<string>, outNames: seq<string>, slots: seq<string>, n: nat)
    requires n <= |slots|
  {
    exists i, j :: 0 <= i < j < n && slots[i] == slots[j] &&
                   slots[i] in inputs && Place(slots[i], outNames) >= 0
  }

  lemma RepeatIsPlayedTwice(inputs: seq<string>, outNames: seq<string>, slots: seq<string>, n: nat)
    requires n <= |slots| && Repeats(inputs, outNames, slots, n)
    ensures !EachPlayedOnce(inputs, outNames, RoutingOf(slots, inputs, n))
  {
    var routing := RoutingOf(slots, inputs, n);
    var i, j :| 0 <= i < j < n && slots[i] == slots[j] &&
                slots[i] in inputs && Place(slots[i], outNames) >= 0;
    MappedName(inputs, outNames, slots[i]);
    assert routing[i] == routing[j] == ChannelOf(slots[i], inputs);
    assert !PlayedOnce(routing, routing[i]);
  }

  /** When each first mapped channel has a slot with its name, what is left is that no name of a
      mapped input stands in two slots. */
  lemma PlayedOnceIff(inputs: seq<string>, outNames: seq<string>, slots: seq<string>, n: nat)
    requires n <= |slots|
    requires forall c: nat :: FirstMapped(inputs, outNames, c) ==> inputs[c] in slots[..n]
    ensures EachPlayedOnce(inputs, outNames, RoutingOf(slots, inputs, n)) <==>
            !Repeats(inputs, outNames, slots, n)
  {
    var routing := RoutingOf(slots, inputs, n);
    if Repeats(inputs, outNames, slots, n) {
      RepeatIsPlayedTwice(inputs, outNames, slots, n);
    } else {
      forall c: nat | FirstMapped(inputs, outNames, c) ensures PlayedOnce(routing, c) {
        FirstMappedIsChannel(inputs, outNames, c);
        var k :| 0 <= k < n && slots[..n][k] == inputs[c];
        assert routing[k] == c;
        forall i, j | 0 <= i < j < n ensures routing[i] != c || routing[j] != c {
          assert routing[i] == c ==> slots[i] == inputs[c];
          assert routing[j] == c ==> slots[j] == inputs[c];
        }
      }
    }
  }

  /** FIXED: exactly when no name of a mapped input is repeated among the output names in use. */
  lemma FixedPlaysOnce(inputs: seq<string>, outNames: seq<string>)
    requires MaskBetween(inputs, outNames) != 0
    ensures var n := MaxBit(MaskBetween(inputs, outNames)) + 1;
            && 0 < n <= |outNames|
            && (EachPlayedOnce(inputs, outNames, RoutingOf(outNames, inputs, n)) <==>
                !Repeats(inputs, outNames, outNames, n))
  {
    hide MaxBit, MaskBetween, EachPlayedOnce, Repeats, RoutingOf, Place;
    FixedPlacement(inputs, outNames);
    var n := MaxBit(MaskBetween(inputs, outNames)) + 1;
    forall c: nat | FirstMapped(inputs, outNames, c) ensures inputs[c] in outNames[..n] {
      assert outNames[..n][Place(inputs[c], outNames)] == inputs[c];
    }
    PlayedOnceIff(inputs, outNames, outNames, n);
  }

  /** COLLAPSIBLE: always. */
  lemma CollapsiblePlaysOnce(inputs: seq<string>, outNames: seq<string>)
    ensures var mask := MaskBetween(inputs, outNames);
            EachPlayedOnce(inputs, outNames,
                           RoutingOf(MaskNames(mask, outNames), inputs, PopCount(mask)))
  {
    CollapsiblePlacement(inputs, outNames);
    var slots := MaskNames(MaskBetween(inputs, outNames), outNames);
    assert slots[..|slots|] == slots;
    PlayedOnceIff(inputs, outNames, slots, |slots|);
  }

  /** PERMUTABLE: exactly when the first mapped names, as many as there are channels, are
      distinct. A mapped name that is repeated before another one appears for the first time takes
      that one's slot away. (The device gets that far only when the names fit the buffer they are
      rendered in.) */
  lemma PermutablePlaysOnce(inputs: seq<string>, outNames: seq<string>)
    ensures var n := PopCount(MaskBetween(inputs, outNames));
            var slots := MappedFields(inputs, outNames);
            && n <= |slots|
            && (EachPlayedOnce(inputs, outNames, RoutingOf(slots, inputs, n)) <==>
                Distinct(slots[..n]))
  {
    var n, slots := PopCount(MaskBetween(inputs, outNames)), MappedFields(inputs, outNames);
    MappedCount(Places(inputs, outNames));
    MappedFieldsAreSelected(inputs, outNames);
    assert n <= |slots|;
    hide MappedFields, MaskBetween, PopCount, EachPlayedOnce, RoutingOf, Place, FirstMapped;
    if Distinct(slots[..n]) {
      DistinctSlotsCover(inputs, outNames, n);
      DistinctDoNotRepeat(inputs, outNames, slots, n);
      PlayedOnceIff(inputs, outNames, slots, n);
    } else {
      var i, j :| 0 <= i < j < n && slots[..n][i] == slots[..n][j];
      SlotIsMapped(inputs, outNames, i);
      RepeatIsPlayedTwice(inputs, outNames, slots, n);
    }
  }

  lemma DistinctDoNotRepeat(inputs: seq<string>, outNames: seq<string>, slots: seq<string>, n: nat)
    requires n <= |slots| && Distinct(slots[..n])
    ensures !Repeats(inputs, outNames, slots, n)
  {
    forall i, j | 0 <= i < j < n ensures slots[i] != slots[j] {
      assert slots[..n][i] != slots[..n][j];
    }
  }

  lemma SlotIsMapped(inputs: seq<string>, outNames: seq<string>, i: nat)
    requires i < |MappedFields(inputs, outNames)|
    ensures MappedFields(inputs, outNames)[i] in inputs
    ensures Place(MappedFields(inputs, outNames)[i], outNames) >= 0
  {
    MappedInOrder(inputs, outNames);
    MappedFieldsAreSelected(inputs, outNames);
    assert inputs[MappedAt(inputs, outNames)[i]] == MappedFields(inputs, outNames)[i];
    assert Mapped(Places(inputs, outNames))[i] < |outNames|;
  }

  lemma DistinctSlotsCover(inputs: seq<string>, outNames: seq<string>, n: nat)
    requires n == PopCount(MaskBetween(inputs, outNames)) <= |MappedFields(inputs, outNames)|
    requires Distinct(MappedFields(inputs, outNames)[..n])
    ensures forall c: nat :: FirstMapped(inputs, outNames, c) ==>
              inputs[c] in MappedFields(inputs, outNames)[..n]
  {
    var slots, at := MappedFields(inputs, outNames), Mapped(Places(inputs, outNames));
    MappedFieldsAreSelected(inputs, outNames);
    forall i, j | 0 <= i < j < n ensures at[..n][i] != at[..n][j] {
      assert slots[..n][i] != slots[..n][j];
      assert outNames[at[i]] == slots[i] && outNames[at[j]] == slots[j];
    }
    PrefixCovers(Places(inputs, outNames), n);
    forall c: nat | FirstMapped(inputs, outNames, c) ensures inputs[c] in slots[..n] {
      assert Places(inputs, outNames)[c] in Places(inputs, outNames);
      var k :| 0 <= k < n && at[..n][k] == Place(inputs[c], outNames);
      assert outNames[at[k]] == slots[..n][k];
    }
  }

  /** Three channels named "L", "L" and "R" for a driver that knows "L" and "R": two channels are
      opened, both of them play the first "L", and "R" is lost. */
  lemma RepeatedNameLosesAChannel()
    ensures var inputs, outNames := ["L", "L", "R"], ["L", "R"];
            && PopCount(MaskBetween(inputs, outNames)) == 2
            && MappedFields(inputs, outNames) == inputs
            && RoutingOf(inputs, inputs, 2) == [0, 0]
            && FirstMapped(inputs, outNames, 2)
            && !EachPlayedOnce(inputs, outNames, RoutingOf(inputs, inputs, 2))
  {
    hide PopCount, MaskBetween, MappedFields, RoutingOf, EachPlayedOnce, FirstMapped, Place, Lookup;
    RepeatedPlaces();
    RepeatedRouting();
    RepeatIsLost();
  }

  lemma RepeatIsLost()
    requires FirstMapped(["L", "L", "R"], ["L", "R"], 2) && RoutingOf(["L", "L", "R"], ["L", "L", "R"], 2) == [0, 0]
    ensures !EachPlayedOnce(["L", "L", "R"], ["L", "R"], RoutingOf(["L", "L", "R"], ["L", "L", "R"], 2))
  {
    hide FirstMapped, RoutingOf;
    assert !PlayedOnce([0, 0], 2);
  }

  lemma RepeatedRouting()
    ensures RoutingOf(["L", "L", "R"], ["L", "L", "R"], 2) == [0, 0]
  {
    var inputs := ["L", "L", "R"];
    LettersDiffer();
    ChannelOfAt(inputs, 0);
    hide Lookup, ChannelOf;
    assert Routed(inputs, inputs, 0) == Routed(inputs, inputs, 1) == 0;
  }

  lemma RepeatedPlaces()
    ensures var inputs, outNames := ["L", "L", "R"], ["L", "R"];
            && PopCount(MaskBetween(inputs, outNames)) == 2 && MappedFields(inputs, outNames) == inputs
            && FirstMapped(inputs, outNames, 2)
  {
    var inputs, outNames := ["L", "L", "R"], ["L", "R"];
    LettersDiffer();
    PlaceAt(outNames, 0, "L");
    PlaceAt(outNames, 1, "R");
    hide Lookup, Place, MaskOf, PopCount, MappedFields;
    assert Places(inputs, outNames) == [0, 0, 1];
    MaskOfThree();
    AllMap(inputs, outNames);
  }

  lemma LettersDiffer()
    ensures "L" != "R" && "L" != "X" && "R" != "X"
  {
    assert "L"[0] != "R"[0] && "L"[0] != "X"[0] && "R"[0] != "X"[0];
  }

  lemma MaskOfThree()
    ensures MaskOf([0, 0, 1]) == 3 && PopCount(3) == 2
  {
    assert [0, 0, 1][..2] == [0, 0] && [0, 0][..1] == [0] && [0][..0] == [];
    assert MaskOf([0, 0]) == 1;
    assert PopCount(3) == 1 + PopCount(1);
  }

  ghost function SetOf(s: seq<nat>): set<nat> {
    set x | x in s
  }

  lemma {:induction false} DistinctSize(s: seq<nat>)
    requires Distinct(s)
    ensures |SetOf(s)| == |s|
  {
    if s != [] {
      var n := |s| - 1;
      assert s == s[..n] + [s[n]];
      DistinctSnoc(s[..n], s[n]);
      DistinctSize(s[..n]);
      assert SetOf(s) == SetOf(s[..n]) + {s[n]};
    } else {
      assert SetOf(s) == {};
    }
  }

  lemma FullSubset(a: set<nat>, b: set<nat>)
    requires a <= b && |a| == |b|
    ensures a == b
  {
    assert b == a + (b - a);
    assert |b - a| == 0;
  }

  /** Distinct positions, as many as the mask has bits, are all the positions there are. */
  lemma PrefixCovers(places: seq<int>, n: nat)
    requires n == PopCount(MaskOf(places)) <= |Mapped(places)| && Distinct(Mapped(places)[..n])
    ensures forall m: nat :: m in places ==> m in Mapped(places)[..n]
  {
    var at := Mapped(places)[..n];
    var bound := MaxPlace(places) + 1;
    MaxPlaceBounds(places);
    MaskOfBound(places, bound);
    PopCountIsOnes(MaskOf(places), bound);
    var ones := Ones(MaskOf(places), bound);
    OnesAreTheBits(MaskOf(places), bound);
    MappedMembers(places);
    forall m: nat ensures m in places <==> m in ones {
      MaskOfBits(places, m);
    }
    forall x | x in at ensures x in ones {
      assert x in Mapped(places);
    }
    DistinctSize(at);
    DistinctSize(ones);
    FullSubset(SetOf(at), SetOf(ones));
    forall m: nat | m in places ensures m in at {
      assert m in SetOf(ones);
    }
  }

  function MaxPlace(places: seq<int>): nat {
    if places == [] then 0
    else
      var rest, last := MaxPlace(places[..|places| - 1]), places[|places| - 1];
      if last > rest then last else rest
  }

  lemma {:induction false} MaxPlaceBounds(places: seq<int>)
    ensures forall i :: 0 <= i < |places| ==> places[i] <= MaxPlace(places)
  {
    if places != [] {
      MaxPlaceBounds(places[..|places| - 1]);
    }
  }
}
