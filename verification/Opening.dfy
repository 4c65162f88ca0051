/** What opening a device decides: the layout handed to the driver, and the wiring for playing. */
module Opening {
  import opened Basics
  import opened Bytes
  import opened MatrixSyntax
  import opened Mnemonics
  import opened ChannelMatrix
  import opened Rendering
  import opened ChannelMask
  import opened Routing
  import opened Interleave
  import opened Conversion

  datatype ByteFormat = FmtLittle | FmtBig | FmtNative

  /** The sample format a client asks for. */
  datatype Format = Format(bits: nat, rate: nat, channels: nat, byteFormat: ByteFormat,
                           matrix: Option<string>)

  /** What is left after the driver's own open: it refuses, or it accepts with the byte format it
      wants and with the channel count and slot names as it leaves them. */
  datatype DriverOpen = Refuses | Accepts(byteFormat: ByteFormat, channels: nat, inter: Option<string>)

  /** `_real_byte_format` */
  function RealByteFormat(format: ByteFormat, machine: Endian): (e: Endian)
    ensures format == FmtNative ==> e == machine
  {
    match format
    case FmtNative => machine
    case FmtBig => Big
    case FmtLittle => Little
  }

  /** The output matrix after the "matrix" options: each replaces the one before by its sanitized form,
      and one that cannot be sanitized ends the opening. */
  function OutputMatrix(own: Option<string>, options: seq<string>): Result<Option<string>>
    decreases |options|
  {
    if options == [] then Ok(own)
    else
      var clean := Sanitized(32, options[0]);
      if clean.None? then Err(BadOption) else OutputMatrix(clean, options[1..])
  }

  /** The options succeed if and only if each can be sanitized, and then the last one counts; without
      options the driver's own matrix does. */
  lemma {:induction false} LastOptionCounts(own: Option<string>, options: seq<string>)
    ensures OutputMatrix(own, options).Ok? <==> forall i :: 0 <= i < |options| ==> Sanitized(32, options[i]).Some?
    ensures OutputMatrix(own, options).Ok? ==>
              OutputMatrix(own, options).value ==
              if options == [] then own else Sanitized(32, options[|options| - 1])
    ensures OutputMatrix(own, options).Err? ==> OutputMatrix(own, options).error == BadOption
    decreases |options|
  {
    hide Sanitized;
    if options != [] {
      LastOptionCounts(Sanitized(32, options[0]), options[1..]);
      assert options == [options[0]] + options[1..];
    }
  }

  /** When the driver's own matrix is one, the result is a matrix of at most 32 known names. */
  ghost predicate Usable(output: Option<string>) {
    output.Some? ==> Known(output.value) && |Tokens(output.value)| <= 32
  }

  lemma {:induction false} OutputMatrixIsUsable(own: Option<string>, options: seq<string>)
    requires Usable(own)
    ensures OutputMatrix(own, options).Ok? ==> Usable(OutputMatrix(own, options).value)
    ensures OutputMatrix(own, options).Err? ==> OutputMatrix(own, options).error == BadOption
    decreases |options|
  {
    hide Sanitized, Known, Tokens;
    if options != [] && Sanitized(32, options[0]).Some? {
      var clean := Sanitized(32, options[0]).value;
      SanitizedIsCanonical(32, options[0], clean);
      KnownFieldsAreTokens(clean);
      OutputMatrixIsUsable(Some(clean), options[1..]);
    }
  }

  /** The input channel matrix that is used: sanitized, ignored when that fails, and ignored for a
      single channel "M". */
  function InputMatrix(format: Format): Option<string> {
    if format.matrix.None? then None
    else
      var clean := Sanitized(format.channels, format.matrix.value);
      if format.channels == 1 && clean == Some("M") then None else clean
  }

  /** An input matrix is used if and only if there is one, all of its names that are looked at are in the
      table, and it is not a single channel "M"; what is used are these names. */
  lemma InputMatrixLaw(format: Format)
    requires format.channels > 0
    ensures InputMatrix(format).Some? <==>
            && format.matrix.Some?
            && (forall i :: 0 <= i < |Tokens(format.matrix.value)| && i < format.channels ==>
                  Tokens(format.matrix.value)[i] in MNEMONICS)
            && !(format.channels == 1 && Tokens(format.matrix.value)[0] == "M")
    ensures InputMatrix(format).Some? ==>
              var names, tokens := Fields(InputMatrix(format).value), Tokens(format.matrix.value);
              && |names| == (if format.channels < |tokens| then format.channels else |tokens|)
              && forall i :: 0 <= i < |names| ==> names[i] == tokens[i]
  {
    hide MNEMONICS, Sanitized, FieldsFrom, Join;
    if format.matrix.Some? {
      SanitizingLaw(format.channels, format.matrix.value);
      var clean := Sanitized(format.channels, format.matrix.value);
      if format.channels == 1 && clean.Some? {
        JoinOfFields(clean.value);
        assert Fields(clean.value) == [Tokens(format.matrix.value)[0]];
        JoinOne(Tokens(format.matrix.value)[0]);
      }
    }
  }

  function RenderedLayout(channels: nat, mask: nat, rendered: Option<string>): Result<Layout> {
    if rendered.Some? then Ok(Layout(channels, mask, rendered)) else Err(Overrun)
  }

  /** The layout handed to the driver. */
  function Reconciled(order: Order, channels: nat, input: Option<string>, output: Option<string>): Result<Layout> {
    if output.None? || input.None? then Ok(Layout(channels, 0, None))
    else
      var inputs, outNames := Fields(input.value), Tokens(output.value);
      var mask := MaskOf(Places(inputs, outNames));
      match order
      case Fixed =>
        if MaxBit(mask) < 0 then Err(BadFormat) else Ok(Layout(MaxBit(mask) + 1, mask, output))
      case Collapsible =>
        if PopCount(mask) <= 0 then Err(BadFormat)
        else RenderedLayout(PopCount(mask), mask, Rendered(MaskNames(mask, outNames)))
      case Permutable =>
        if PopCount(mask) <= 0 then Err(BadFormat)
        else RenderedLayout(PopCount(mask), mask, Rendered(MappedFields(inputs, outNames)))
      case Undefined => Err(Failed)
  }

  /** For each input channel its position in the output matrix, or -1. */
  function InputMap(channels: nat, input: string, output: string): seq<int> {
    Places(Fields(input), Tokens(output)) +
    NoPlaces(if channels < |Fields(input)| then 0 else channels - |Fields(input)|)
  }

  /** The reconciliation of a static output matrix with an input matrix. */
  method Reconcile(order: Order, channels: nat, input: string, output: string)
    returns (r: Result<Layout>, inputMap: seq<int>)
    requires |Fields(input)| <= channels && |Tokens(output)| <= 32
    ensures r == Reconciled(order, channels, Some(input), Some(output))
    ensures inputMap == InputMap(channels, input, output)
    ensures |inputMap| == channels && forall c :: 0 <= c < channels ==>
              var inputs, outNames := Fields(input), Tokens(output);
              if c < |inputs| && inputs[c] in outNames && inputs[c] !in ["", "X"] then
                && 0 <= inputMap[c] < |outNames| && outNames[inputMap[c]] == inputs[c]
                && inputs[c] !in outNames[..inputMap[c]]
              else
                inputMap[c] == -1
  {
    hide Places, MaskOf, MaxBit, PopCount, Pow2, Rendered, MaskNames, MappedFields, FieldsFrom, TrimAll;
    var mask;
    mask, inputMap := MatrixToChannelmask(channels, input, output);
    match order {
      case Fixed =>
        var max := ChannelmaskMaxbit(mask);
        if max < 0 {
          r := Err(BadFormat);
        } else {
          r := Ok(Layout(max + 1, mask, Some(output)));
        }
      case Collapsible =>
        var bits := ChannelmaskBits(mask);
        if bits <= 0 {
          r := Err(BadFormat);
        } else {
          var inter := ChannelmaskToMatrix(mask, output);
          r := RenderedLayout(bits, mask, inter);
        }
      case Permutable =>
        var bits := ChannelmaskBits(mask);
        if bits <= 0 {
          r := Err(BadFormat);
        } else {
          var inter := MatrixIntersect(input, output);
          r := RenderedLayout(bits, mask, inter);
        }
      case Undefined =>
        r := Err(Failed);
    }
  }

  // ----- The permutation

  /** Every slot name is in the table, or empty. */
  predicate KnownSlots(inter: string) {
    forall i :: 0 <= i < |Fields(inter)| ==> Fields(inter)[i] in MNEMONICS || Fields(inter)[i] == ""
  }

  /** What the code looks up for slot `j`: after the slot's own name, and for a single input channel
      only, "M". */
  function SlotChannel(slots: seq<string>, inputs: seq<string>, channels: nat, j: nat): (c: int)
    ensures -1 <= c < |inputs|
  {
    var c := Routed(slots, inputs, j);
    if c == -1 && channels == 1 && j < |slots| && (j < |slots| - 1 || slots[j] != "") then
      ChannelOf("M", inputs)
    else
      c
  }

  /** The lookup of one slot name: a prefix search in the table, then the channel of that entry. */
  method FindSlotChannel(slot: string, matrix: string, channels: nat) returns (c: int)
    requires slot in MNEMONICS || slot == ""
    ensures c == if ChannelOf(slot, Fields(matrix)) == -1 && channels == 1
                 then ChannelOf("M", Fields(matrix)) else ChannelOf(slot, Fields(matrix))
  {
    SlotEntry(slot, Fields(matrix));
    SecondIsM();
    hide MNEMONICS;
    var m := FindPrefix(MNEMONICS, slot);
    c := FindChannel(m, matrix);
    if c == -1 && channels == 1 {
      c := FindChannel(1, matrix);
    }
  }

  method FindPrefix(names: seq<string>, slot: string) returns (m: nat)
    ensures m == PrefixIndex(names, slot)
  {
    m := 0;
    while m < |names|
      invariant m <= |names|
      invariant forall i :: 0 <= i < m ==> !(slot <= names[i])
    {
      if slot <= names[m] {
        break;
      }
      m := m + 1;
    }
  }

  lemma SlotEntry(slot: string, inputs: seq<string>)
    requires slot in MNEMONICS || slot == ""
    ensures PrefixIndex(MNEMONICS, slot) < |MNEMONICS|
    ensures ChannelOf(MNEMONICS[PrefixIndex(MNEMONICS, slot)], inputs) == ChannelOf(slot, inputs)
  {
    if slot == "" {
      PrefixLookupOfEmpty();
      LookupEmpty(inputs);
    } else {
      hide MNEMONICS;
      var j :| 0 <= j < |MNEMONICS| && MNEMONICS[j] == slot;
      PrefixLookupIsExact(j);
    }
  }

  lemma SecondIsM()
    ensures |MNEMONICS| > 1 && MNEMONICS[1] == "M"
  {
  }

  lemma LookupEmpty(inputs: seq<string>)
    ensures ChannelOf("", inputs) == -1
  {
  }

  /** Walk through the slot names and match channels. */
  method BuildPermutation(inter: string, outputChannels: nat, matrix: string, channels: nat)
    returns (permute: seq<int>)
    requires KnownSlots(inter)
    ensures |permute| == outputChannels
    ensures forall j :: 0 <= j < outputChannels ==>
              permute[j] == SlotChannel(Fields(inter), Fields(matrix), channels, j)
  {
    hide Scanned, MNEMONICS, FieldsFrom;
    var perm := new int[outputChannels](_ => 0);
    var op, count := 0, 0;
    ghost var slots := Fields(inter);
    ScanStart(inter);
    while count < outputChannels
      invariant 0 <= count <= outputChannels && op <= |inter|
      invariant if count < |slots| then Scanned(inter, op, count) else op == |inter|
      invariant forall j :: 0 <= j < count ==> perm[j] == SlotChannel(slots, Fields(matrix), channels, j)
    {
      if count < |slots| {
        ScanStep(inter, op, count);
        LastIsEmpty(inter, op, count);
      }
      var h := op;
      if op < |inter| {
        h := FindSeparator(inter, op);
        perm[count] := FindSlotChannel(inter[op..h], matrix, channels);
      } else {
        LookupEmpty(Fields(matrix));
        perm[count] := -1;
      }
      count := count + 1;
      op := h;
      if h < |inter| {
        op := op + 1;
      }
    }
    permute := perm[..];
  }

  /** The scan has run out of text in a field exactly when that is the last one, and empty. */
  lemma LastIsEmpty(s: string, p: nat, count: nat)
    requires Scanned(s, p, count)
    ensures p == |s| <==> count == |Fields(s)| - 1 && Fields(s)[count] == ""
    ensures FieldEnd(s, |s|) == |s|
  {
    ScanStep(s, p, count);
  }

  predicate Identity(p: seq<int>) {
    forall j :: 0 <= j < |p| ==> p[j] == j
  }

  // ----- The wiring

  /** The slot names used when the driver names none. */
  function SlotNames(inter: Option<string>): string {
    if inter.Some? then inter.value else "L,R"
  }

  /** The wiring by names: each slot plays the first input of its name. Without an input matrix the
      channels go straight through. */
  function NamedWiring(format: Format, driver: DriverOpen, machine: Endian): Wiring
    requires driver.Accepts?
  {
    var bytewidth := (format.bits + 7) / 8;
    Wiring(bytewidth, format.channels, driver.channels,
           if InputMatrix(format).None? then None
           else Some(RoutingOf(Fields(SlotNames(driver.inter)), Fields(InputMatrix(format).value), driver.channels)),
           SwapNeeded(bytewidth, RealByteFormat(format.byteFormat, machine),
                      RealByteFormat(driver.byteFormat, machine)))
  }

  /** The same with a permutation that changes nothing left out. */
  function Reduced(w: Wiring): Wiring {
    if w.permute.Some? && w.inputChannels == w.outputChannels && Identity(w.permute.value) then
      w.(permute := None)
    else
      w
  }

  predicate BufferNeeded(w: Wiring) {
    w.swap || w.inputChannels != w.outputChannels || w.permute.Some?
  }

  /** With a single input channel there is no "M" left to fall back to: that matrix is dropped
      before. */
  lemma MonoFallbackIsDead(format: Format, slots: seq<string>, j: nat)
    requires InputMatrix(format).Some? && format.channels > 0
    ensures var inputs := Fields(InputMatrix(format).value);
            SlotChannel(slots, inputs, format.channels, j) == Routed(slots, inputs, j)
  {
    var clean := InputMatrix(format).value;
    var inputs := Fields(clean);
    SanitizedIsCanonical(format.channels, format.matrix.value, clean);
    if format.channels == 1 {
      JoinOfFields(clean);
      assert inputs == [inputs[0]];
      JoinOne(inputs[0]);
      assert inputs[0] == clean != "M";
    }
  }

  // ----- End to end

  /** What the client and the driver must keep to: samples of one to four bytes, slot names from
      the table, and no more output than input channels unless an input matrix says what they
      play. */
  ghost predicate Playable(format: Format, driver: DriverOpen) {
    && driver.Accepts?
    && 1 <= format.bits <= 32 && format.channels > 0
    && (InputMatrix(format).Some? ==> KnownSlots(SlotNames(driver.inter)))
    && (InputMatrix(format).None? ==> driver.channels <= format.channels)
  }

  lemma NamedWiringIsValid(format: Format, driver: DriverOpen, machine: Endian)
    requires Playable(format, driver)
    ensures NamedWiring(format, driver, machine).Valid()
    ensures Reduced(NamedWiring(format, driver, machine)).Valid()
  {
    if InputMatrix(format).Some? {
      SanitizedIsCanonical(format.channels, format.matrix.value, InputMatrix(format).value);
    }
  }

  /** What a device opened with wiring `w` hands to the driver. */
  ghost function Handed(w: Wiring, samples: seq<byte>): seq<byte>
    requires w.Valid() && w.Whole(|samples|)
  {
    if BufferNeeded(w) then w.Convert(samples) else samples
  }

  /** Neither leaving the buffer out nor leaving the permutation out makes a difference: the driver
      is handed what the full conversion would produce. */
  lemma FastPathRefinesConversion(w: Wiring, samples: seq<byte>)
    requires w.Valid() && w.Whole(|samples|)
    ensures Reduced(w).Valid() && Reduced(w).Whole(|samples|)
    ensures Handed(Reduced(w), samples) == w.Convert(samples)
  {
    if Reduced(w) != w {
      IdentityPermutation(w, samples);
    }
    if !BufferNeeded(Reduced(w)) {
      StraightConversion(Reduced(w), samples);
    }
  }

  /** The input channel that slot `j` plays. */
  ghost function PlayedChannel(format: Format, driver: DriverOpen, j: nat): int
    requires driver.Accepts?
  {
    if InputMatrix(format).None? then j
    else Routed(Fields(SlotNames(driver.inter)), Fields(InputMatrix(format).value), j)
  }

  /** In every frame, slot `j` carries the integer that the client wrote for the first input channel
      of the slot's name; a slot without a name, named "X", or whose name no input has, is silent.
      The client's sample is read in the client's byte order, the driver's in the driver's. */
  lemma EndToEndRouting(format: Format, driver: DriverOpen, machine: Endian, samples: seq<byte>, f: nat, j: nat)
    requires Playable(format, driver)
    requires NamedWiring(format, driver, machine).Whole(|samples|)
    requires f < NamedWiring(format, driver, machine).Frames(|samples|) && j < driver.channels
    ensures Reduced(NamedWiring(format, driver, machine)).Valid()
    ensures Reduced(NamedWiring(format, driver, machine)).Whole(|samples|)
    ensures
      var bytewidth := (format.bits + 7) / 8;
      var handed := Handed(Reduced(NamedWiring(format, driver, machine)), samples);
      var c := PlayedChannel(format, driver, j);
      && SamplePresent(handed, f, j, driver.channels, bytewidth)
      && (c >= 0 ==> SamplePresent(samples, f, c, format.channels, bytewidth))
      && SampleValue(RealByteFormat(driver.byteFormat, machine),
                     SampleBytes(handed, f, j, driver.channels, bytewidth)) ==
         if c < 0 then SilenceValue(bytewidth)
         else SampleValue(RealByteFormat(format.byteFormat, machine),
                          SampleBytes(samples, f, c, format.channels, bytewidth))
    ensures
      InputMatrix(format).Some? ==>
        var slots, inputs := Fields(SlotNames(driver.inter)), Fields(InputMatrix(format).value);
        var c := PlayedChannel(format, driver, j);
        if c < 0 then j >= |slots| || slots[j] == "X" || slots[j] == "" || slots[j] !in inputs
        else j < |slots| && c < |inputs| && inputs[c] == slots[j] != "X" &&
             forall i :: 0 <= i < c ==> inputs[i] != slots[j]
  {
    hide Index, Size, Wiring.Convert, SampleValue, Handed, Reduced;
    var w := NamedWiring(format, driver, machine);
    NamedWiringIsValid(format, driver, machine);
    FastPathRefinesConversion(w, samples);
    ConvertPreservesValues(w, samples, RealByteFormat(format.byteFormat, machine),
                           RealByteFormat(driver.byteFormat, machine), f, j);
  }

  /** `v` is the integer of client channel `c` in frame `f`, of `channels` channels of `bw` bytes. */
  ghost predicate IsClients(v: int, client: Endian, samples: seq<byte>, f: nat, c: nat, channels: nat, bw: nat) {
    var from := (f * channels + c) * bw;
    bw > 0 && from + bw <= |samples| && v == SampleValue(client, samples[from..from + bw])
  }

  /** What slot `j` carries in frame `f`, in plain terms. Without an input matrix it is the integer of
      channel `j`; with one, that of the first channel of the slot's name; and a slot without a name,
      named "X", or whose name no input has carries 128 for samples of one byte, and 0 otherwise. A
      driver that names no slots has "L" and "R". */
  ghost predicate Delivered(format: Format, driver: DriverOpen, client: Endian, target: Endian,
                            samples: seq<byte>, handed: seq<byte>, f: nat, j: nat)
    requires driver.Accepts?
  {
    var bw := (format.bits + 7) / 8;
    var at := (f * driver.channels + j) * bw;
    && bw > 0 && at + bw <= |handed|
    && var v := SampleValue(target, handed[at..at + bw]);
    if InputMatrix(format).None? then IsClients(v, client, samples, f, j, format.channels, bw)
    else
      var slots := Fields(if driver.inter.Some? then driver.inter.value else "L,R");
      var inputs := Fields(InputMatrix(format).value);
      && (forall c :: 0 <= c < |inputs| && j < |slots| && slots[j] == inputs[c] && slots[j] !in ["", "X"] &&
                      inputs[c] !in inputs[..c] ==>
                        IsClients(v, client, samples, f, c, format.channels, bw))
      && (j >= |slots| || slots[j] in ["", "X"] || slots[j] !in inputs ==>
            v == if bw == 1 then 128 else 0)
  }

  /** The byte order a format stands for. */
  ghost predicate StandsFor(format: ByteFormat, machine: Endian, e: Endian) {
    && (format == FmtLittle ==> e == Little)
    && (format == FmtBig ==> e == Big)
    && (format == FmtNative ==> e == machine)
  }

  /** Every slot of every frame carries what it should; the client's bytes are little-endian, big-endian
      or in the order of the machine, as the format says, and so are the driver's. */
  lemma EndToEndIntegers(format: Format, driver: DriverOpen, machine: Endian, client: Endian, target: Endian,
                         samples: seq<byte>, frames: nat, f: nat, j: nat)
    requires Playable(format, driver)
    requires StandsFor(format.byteFormat, machine, client) && StandsFor(driver.byteFormat, machine, target)
    requires |samples| == frames * format.channels * ((format.bits + 7) / 8)
    requires f < frames && j < driver.channels
    ensures Reduced(NamedWiring(format, driver, machine)).Valid()
    ensures Reduced(NamedWiring(format, driver, machine)).Whole(|samples|)
    ensures |Handed(Reduced(NamedWiring(format, driver, machine)), samples)| ==
            frames * driver.channels * ((format.bits + 7) / 8)
    ensures Delivered(format, driver, client, target, samples,
                      Handed(Reduced(NamedWiring(format, driver, machine)), samples), f, j)
  {
    hide Wiring.Convert, SampleValue, Handed, Reduced, InputMatrix, Fields, Wiring.Whole, Wiring.Frames, Wiring.Valid;
    var w := NamedWiring(format, driver, machine);
    WholeSize(w, |samples|, frames, format, driver, machine);
    FastPathRefinesConversion(w, samples);
    HandedLength(w, samples);
    EndToEndRouting(format, driver, machine, samples, f, j);
    hide NamedWiring;
    DeliveredByChannel(format, driver, machine, samples, Handed(Reduced(w), samples), f, j);
  }

  /** The plain terms are those of the routing. */
  lemma DeliveredByChannel(format: Format, driver: DriverOpen, machine: Endian, samples: seq<byte>,
                           handed: seq<byte>, f: nat, j: nat)
    requires driver.Accepts?
    requires
      var bw := (format.bits + 7) / 8;
      var c := PlayedChannel(format, driver, j);
      && SamplePresent(handed, f, j, driver.channels, bw)
      && (c >= 0 ==> SamplePresent(samples, f, c, format.channels, bw))
      && SampleValue(RealByteFormat(driver.byteFormat, machine), SampleBytes(handed, f, j, driver.channels, bw)) ==
         if c < 0 then SilenceValue(bw)
         else SampleValue(RealByteFormat(format.byteFormat, machine),
                          SampleBytes(samples, f, c, format.channels, bw))
    ensures Delivered(format, driver, RealByteFormat(format.byteFormat, machine),
                      RealByteFormat(driver.byteFormat, machine), samples, handed, f, j)
  {
    hide SampleValue, InputMatrix, Fields, RealByteFormat;
  }

  lemma WholeSize(w: Wiring, n: nat, frames: nat, format: Format, driver: DriverOpen, machine: Endian)
    requires Playable(format, driver) && w == NamedWiring(format, driver, machine)
    requires n == frames * format.channels * ((format.bits + 7) / 8)
    ensures w.Valid() && w.Whole(n) && w.Frames(n) == frames
  {
    NamedWiringIsValid(format, driver, machine);
    hide NamedWiring, Wiring.Valid;
    FramesOfSize(w, frames);
  }

  lemma HandedLength(w: Wiring, samples: seq<byte>)
    requires w.Valid() && w.Whole(|samples|)
    ensures Reduced(w).Valid() && Reduced(w).Whole(|samples|)
    ensures |Handed(Reduced(w), samples)| == Size(w.Frames(|samples|), w.outputChannels, w.bytewidth)
  {
    FastPathRefinesConversion(w, samples);
    hide Wiring.Convert, Handed, Reduced;
  }

  /** The sample lies inside the buffer. */
  predicate SamplePresent(buf: seq<byte>, f: nat, ch: nat, nch: nat, bw: nat) {
    bw > 0 && Index(f, ch, 0, nch, bw) + bw <= |buf|
  }

  // ----- The layouts the core proposes

  lemma KnownFieldsAreTokens(matrix: string)
    requires Known(matrix)
    ensures Tokens(matrix) == Fields(matrix)
  {
    forall i | 0 <= i < |Fields(matrix)| ensures Trim(Fields(matrix)[i]) == Fields(matrix)[i] {
      KnownIsFieldName(Fields(matrix)[i]);
      TrimOfTrimmed(Fields(matrix)[i]);
    }
  }

  /** The names of the slots in the layout proposed for each policy. */
  ghost function ProposedSlots(order: Order, inputs: seq<string>, outNames: seq<string>): seq<string>
  {
    match order
    case Collapsible => MaskNames(MaskBetween(inputs, outNames), outNames)
    case Permutable => MappedFields(inputs, outNames)
    case _ => outNames
  }

  /** The names that a policy renders fit the buffer: FIXED renders none. */
  ghost predicate SlotsFit(order: Order, inputs: seq<string>, outNames: seq<string>) {
    order == Fixed || Fits(ProposedSlots(order, inputs, outNames))
  }

  /** Over at most 32 known output names the slots always fit, except that under PERMUTABLE more than 64
      input names may not. */
  lemma SlotsUsuallyFit(order: Order, inputs: seq<string>, output: string)
    requires order != Undefined && Known(output) && |Fields(output)| <= 32
    requires order == Permutable ==> |inputs| <= 64
    ensures SlotsFit(order, inputs, Fields(output))
  {
    var outNames := Fields(output);
    ProposedNamesAreKnown(order, inputs, output);
    MappedFieldsAreFewer(inputs, outNames);
    KnownNamesFit(ProposedSlots(order, inputs, outNames));
  }

  /** A layout, if there is one, has a channel, names its slots as its policy says, with names from
      the table, and does not have more channels than names. There is none exactly when no input
      name maps to an output, the policy is undefined, or the names of the slots do not fit the
      buffer they are rendered in. */
  lemma ProposedLayout(order: Order, channels: nat, input: string, output: string)
    requires Known(output) && |Tokens(output)| <= 32
    ensures var inputs, outNames := Fields(input), Fields(output);
            var proposed := Reconciled(order, channels, Some(input), Some(output));
            && (proposed.Err? <==>
                order == Undefined || NothingMaps(inputs, outNames) || !SlotsFit(order, inputs, outNames))
            && (proposed.Ok? ==>
                  && proposed.value.mask == MaskBetween(inputs, outNames) < Pow2(32)
                  && proposed.value.inter.Some?
                  && Fields(proposed.value.inter.value) == ProposedSlots(order, inputs, outNames)
                  && KnownSlots(proposed.value.inter.value)
                  && proposed.value.channels == ProposedCount(order, MaskBetween(inputs, outNames))
                  && 0 < proposed.value.channels <= |ProposedSlots(order, inputs, outNames)|)
  {
    var inputs, outNames := Fields(input), Fields(output);
    var mask := MaskBetween(inputs, outNames);
    KnownFieldsAreTokens(output);
    MaskOfBound(Places(inputs, outNames), 32);
    EmptyMask(inputs, outNames);
    hide Reconciled, MaskOf, NothingMaps, FieldsFrom, MNEMONICS, Fits, ProposedSlots, ProposedCount, Join, Pow2;
    if order != Undefined {
      ReconciledBy(order, channels, input, output);
      ProposedChannels(order, inputs, outNames);
      ProposedNamesAreKnown(order, inputs, output);
      if order != Fixed && mask != 0 {
        FieldsOfJoin(ProposedSlots(order, inputs, outNames));
      }
    } else {
      UndefinedFails(channels, input, output);
    }
  }

  lemma UndefinedFails(channels: nat, input: string, output: string)
    ensures Reconciled(Undefined, channels, Some(input), Some(output)) == Err(Failed)
  {
  }

  /** The policies that are defined differ only in the slots they name and the channels they count. */
  lemma ReconciledBy(order: Order, channels: nat, input: string, output: string)
    requires order != Undefined && Tokens(output) == Fields(output)
    ensures var inputs, outNames := Fields(input), Fields(output);
            var mask := MaskBetween(inputs, outNames);
            var n, slots := ProposedCount(order, mask), ProposedSlots(order, inputs, outNames);
            Reconciled(order, channels, Some(input), Some(output)) ==
            if n <= 0 then Err(BadFormat)
            else if order == Fixed then Ok(Layout(n, mask, Some(output)))
            else RenderedLayout(n, mask, Rendered(slots))
  {
    hide MaskOf, PopCount, MaxBit, MappedFields, MaskNames, Rendered, Tokens, FieldsFrom;
  }

  /** The number of channels a policy proposes. */
  ghost function ProposedCount(order: Order, mask: nat): int {
    if order == Fixed then MaxBit(mask) + 1 else PopCount(mask)
  }

  lemma ProposedChannels(order: Order, inputs: seq<string>, outNames: seq<string>)
    requires order != Undefined
    ensures ProposedCount(order, MaskBetween(inputs, outNames)) <= |ProposedSlots(order, inputs, outNames)|
    ensures ProposedCount(order, MaskBetween(inputs, outNames)) > 0 <==> MaskBetween(inputs, outNames) != 0
  {
    var mask := MaskBetween(inputs, outNames);
    PopCountZero(mask);
    MaxBitIsHighest(mask, 0);
    if mask != 0 {
      FixedPlacement(inputs, outNames);
    }
    CollapsiblePlacement(inputs, outNames);
    MappedCount(Places(inputs, outNames));
    MappedFieldsAreSelected(inputs, outNames);
    hide MaskOf, MappedFields, MaskNames;
  }

  predicate NothingMaps(inputs: seq<string>, outNames: seq<string>) {
    forall c :: 0 <= c < |inputs| ==> Place(inputs[c], outNames) < 0
  }

  lemma EmptyMask(inputs: seq<string>, outNames: seq<string>)
    ensures MaskBetween(inputs, outNames) == 0 <==> NothingMaps(inputs, outNames)
  {
    var places, mask := Places(inputs, outNames), MaskBetween(inputs, outNames);
    if mask != 0 {
      MaxBitIsHighest(mask, 0);
      MaskOfBits(places, MaxBit(mask));
      var c :| 0 <= c < |places| && places[c] == MaxBit(mask);
      assert Place(inputs[c], outNames) >= 0;
    } else {
      forall c | 0 <= c < |inputs| ensures Place(inputs[c], outNames) < 0 {
        if Place(inputs[c], outNames) >= 0 {
          MaskBits(inputs, outNames, c);
          ZeroHasNoBits(Place(inputs[c], outNames));
        }
      }
    }
  }

  lemma ProposedNamesAreKnown(order: Order, inputs: seq<string>, output: string)
    requires Known(output)
    ensures AllKnown(ProposedSlots(order, inputs, Fields(output)))
    ensures forall i :: 0 <= i < |ProposedSlots(order, inputs, Fields(output))| ==>
              ',' !in ProposedSlots(order, inputs, Fields(output))[i]
  {
    var outNames := Fields(output);
    var slots := ProposedSlots(order, inputs, outNames);
    MappedFieldsAreSelected(inputs, outNames);
    forall i | 0 <= i < |slots| ensures slots[i] in MNEMONICS && ',' !in slots[i] {
      KnownIsFieldName(slots[i]);
    }
  }

  /** The positions of the outputs that are inputs, each first of its name and no placeholder, in
      increasing order. */
  ghost predicate NewAt(inputs: seq<string>, outNames: seq<string>, at: seq<nat>) {
    && (forall i, k :: 0 <= i < k < |at| ==> at[i] < at[k])
    && forall m: nat :: m in at <==> NewName(inputs, outNames, m)
  }

  /** What reconciling gives, by these positions. Without any the format is refused. FIXED keeps the
      output matrix and goes as far as the last position; COLLAPSIBLE has a slot for each position, named
      as there; PERMUTABLE has as many channels, and slots named as the inputs that are outputs. The
      latter two need the names to fit 256 characters. The mask has the bits of the positions. */
  lemma ReconcilingLaw(order: Order, channels: nat, input: string, output: string) returns (at: seq<nat>)
    requires Known(output) && |Tokens(output)| <= 32
    ensures NewAt(Fields(input), Fields(output), at)
    ensures forall k :: 0 <= k < |at| ==> at[k] < |Fields(output)|
    ensures
      var r, outNames := Reconciled(order, channels, Some(input), Some(output)), Fields(output);
      match order
      case Undefined => r == Err(Failed)
      case Fixed => if at == [] then r == Err(BadFormat)
                    else r.Ok? && r.value.channels == at[|at| - 1] + 1 && r.value.inter == Some(output)
      case Collapsible => if at == [] then r == Err(BadFormat)
                          else r.Ok? && r.value.channels == |at| && r.value.inter.Some? &&
                               Fields(r.value.inter.value) == Select(outNames, at)
      case Permutable => if at == [] then r == Err(BadFormat)
                         else if |Join(MappedFields(Fields(input), outNames))| > 256 then r == Err(Overrun)
                         else r.Ok? && r.value.channels == |at| && r.value.inter.Some? &&
                              Fields(r.value.inter.value) == MappedFields(Fields(input), outNames)
    ensures
      var r := Reconciled(order, channels, Some(input), Some(output));
      r.Ok? ==> forall m: nat :: Bit(r.value.mask, m) <==> m in at
  {
    hide MaskOf, MaskBetween, Ones, Reconciled, MappedFields, FieldsFrom, Join, Known, NewAt, NothingMaps, Bit, MNEMONICS;
    hide Select, PopCount, MaxBit, Tokens;
    var inputs, outNames := Fields(input), Fields(output);
    var mask := MaskBetween(inputs, outNames);
    at := Ones(mask, |outNames|);
    KnownFieldsAreTokens(output);
    PositionsOfMask(inputs, outNames);
    ProposedLayout(order, channels, input, output);
    if order != Undefined {
      ReconciledBy(order, channels, input, output);
      CollapsibleFits(inputs, output);
    } else {
      UndefinedFails(channels, input, output);
    }
  }

  /** There are no positions if and only if no input is an output other than the placeholder. */
  lemma NothingNew(inputs: seq<string>, outNames: seq<string>, at: seq<nat>)
    requires NewAt(inputs, outNames, at)
    ensures at == [] <==>
            forall c :: 0 <= c < |inputs| ==> inputs[c] !in outNames || inputs[c] in ["", "X"]
  {
    forall c | 0 <= c < |inputs| && inputs[c] in outNames && inputs[c] !in ["", "X"] ensures at != [] {
      SomeNew(inputs, outNames, at, c);
    }
    if at != [] {
      assert at[0] in at && NewName(inputs, outNames, at[0]);
      var c :| 0 <= c < |inputs| && inputs[c] == outNames[at[0]];
    }
  }

  lemma SomeNew(inputs: seq<string>, outNames: seq<string>, at: seq<nat>, c: nat)
    requires NewAt(inputs, outNames, at)
    requires c < |inputs| && inputs[c] in outNames && inputs[c] !in ["", "X"]
    ensures at != []
  {
    var m := Lookup(outNames, inputs[c]);
    assert NewName(inputs, outNames, m);
    assert m in at;
  }

  lemma CollapsibleFits(inputs: seq<string>, output: string)
    requires Known(output) && |Fields(output)| <= 32
    ensures Fits(ProposedSlots(Collapsible, inputs, Fields(output)))
  {
    SlotsUsuallyFit(Collapsible, inputs, output);
  }

  lemma PositionsOfMask(inputs: seq<string>, outNames: seq<string>)
    ensures var mask := MaskBetween(inputs, outNames);
            var at := Ones(mask, |outNames|);
            && NewAt(inputs, outNames, at)
            && (forall m: nat :: Bit(mask, m) <==> m in at)
            && PopCount(mask) == |at|
            && MaxBit(mask) == if at == [] then -1 else at[|at| - 1]
  {
    var mask := MaskBetween(inputs, outNames);
    hide MaskOf, Ones, PopCount, MaskBetween, NewName, MaxBit;
    OnesAreTheBits(mask, |outNames|);
    MaskBelow(inputs, outNames);
    PopCountIsOnes(mask, |outNames|);
    HighestOne(mask, |outNames|);
    forall m: nat ensures (Bit(mask, m) <==> NewName(inputs, outNames, m)) && (Bit(mask, m) ==> m < |outNames|) {
      NamesOfMask(inputs, outNames, m);
    }
  }

  lemma NamesOfMask(inputs: seq<string>, outNames: seq<string>, m: nat)
    ensures Bit(MaskBetween(inputs, outNames), m) <==> NewName(inputs, outNames, m)
    ensures NewName(inputs, outNames, m) ==> m < |outNames|
  {
    MaskBetweenNames(inputs, outNames, m);
  }

  lemma MaskBelow(inputs: seq<string>, outNames: seq<string>)
    ensures MaskBetween(inputs, outNames) < Pow2(|outNames|)
  {
    MaskOfBound(Places(inputs, outNames), |outNames|);
  }

  /** The highest bit is the last of the positions. */
  lemma HighestOne(mask: nat, n: nat)
    requires mask < Pow2(n)
    ensures MaxBit(mask) == if Ones(mask, n) == [] then -1 else Ones(mask, n)[|Ones(mask, n)| - 1]
  {
    hide Ones, PopCount, MaxBit, Pow2;
    var at := Ones(mask, n);
    OnesAreTheBits(mask, n);
    PopCountIsOnes(mask, n);
    PopCountZero(mask);
    if at != [] {
      var top := at[|at| - 1];
      assert top in at;
      MaxBitIsHighest(mask, top);
      HighBelow(mask, n);
      var k :| 0 <= k < |at| && at[k] == MaxBit(mask);
    } else {
      NoHighest(mask);
    }
  }

  lemma HighBelow(mask: nat, n: nat)
    requires 0 < mask < Pow2(n)
    ensures 0 <= MaxBit(mask) < n && Bit(mask, MaxBit(mask))
  {
    MaxBitIsHighest(mask, 0);
    if MaxBit(mask) >= n {
      PowersGrow(n, MaxBit(mask));
      NoHighBits(mask, n, MaxBit(mask));
    }
  }

  lemma {:induction false} PowersGrow(m: nat, n: nat)
    requires m <= n
    ensures Pow2(m) <= Pow2(n)
  {
    if m < n {
      PowersGrow(m, n - 1);
    }
  }

  lemma NoHighest(mask: nat)
    requires mask == 0
    ensures MaxBit(mask) == -1
  {
  }

  /** A driver that accepts the proposed layout as it is plays the slots its policy names; what
      FixedPlacement, CollapsiblePlacement, PermutablePlacement and the lemmas on playing once say
      about that routing holds of the device. */
  lemma ProposedLayoutIsPlayed(order: Order, format: Format, output: string, byteFormat: ByteFormat, machine: Endian)
    requires 1 <= format.bits <= 32 && format.channels > 0 && InputMatrix(format).Some?
    requires Known(output) && |Tokens(output)| <= 32
    requires Reconciled(order, format.channels, InputMatrix(format), Some(output)).Ok?
    ensures var layout := Reconciled(order, format.channels, InputMatrix(format), Some(output)).value;
            var driver := Accepts(byteFormat, layout.channels, layout.inter);
            var inputs := Fields(InputMatrix(format).value);
            && Playable(format, driver)
            && NamedWiring(format, driver, machine).permute ==
               Some(RoutingOf(ProposedSlots(order, inputs, Fields(output)), inputs, layout.channels))
  {
    ProposedLayout(order, format.channels, InputMatrix(format).value, output);
  }

  /** The layout the core proposes is one in which every first mapped input is played in exactly one
      slot. */
  ghost predicate ProposesOnce(order: Order, channels: nat, input: string, output: string) {
    var proposed := Reconciled(order, channels, Some(input), Some(output));
    && proposed.Ok? && proposed.value.inter.Some?
    && EachPlayedOnce(Fields(input), Fields(output),
                      RoutingOf(Fields(proposed.value.inter.value), Fields(input), proposed.value.channels))
  }

  /** PERMUTABLE, for the device: exactly when some input maps, the mapped names fit the buffer, and the
      first of them, as many as there are channels, differ. */
  lemma PermutableProposesOnce(channels: nat, input: string, output: string)
    requires Known(output) && |Tokens(output)| <= 32
    ensures var inputs, outNames := Fields(input), Fields(output);
            var slots, n := MappedFields(inputs, outNames), PopCount(MaskBetween(inputs, outNames));
            && n <= |slots|
            && (ProposesOnce(Permutable, channels, input, output) <==>
                slots != [] && |Join(slots)| <= 256 && Distinct(slots[..n]))
  {
    var inputs, outNames := Fields(input), Fields(output);
    ProposedLayout(Permutable, channels, input, output);
    PermutablePlaysOnce(inputs, outNames);
    MappedCount(Places(inputs, outNames));
    MappedFieldsAreSelected(inputs, outNames);
    PopCountZero(MaskBetween(inputs, outNames));
    EmptyMask(inputs, outNames);
    EmptyMapped(inputs, outNames);
    hide MappedFields, PopCount, MaskOf, Reconciled, EachPlayedOnce, NothingMaps, Join, FieldsFrom, Distinct, Known;
  }

  lemma EmptyMapped(inputs: seq<string>, outNames: seq<string>)
    ensures MappedFields(inputs, outNames) == [] <==> NothingMaps(inputs, outNames)
  {
    MappedInOrder(inputs, outNames);
    var at := MappedAt(inputs, outNames);
    if at != [] {
      assert at[0] in at;
    } else {
      forall c | 0 <= c < |inputs| ensures Place(inputs[c], outNames) < 0 {
        assert c !in at;
      }
    }
  }

  /** A channel "L" and `n` channels "LFE", for a driver that knows the two. */
  function LongInput(n: nat): seq<string> {
    ["L"] + seq(n, _ => "LFE")
  }

  /** Their first mapped names differ, but from the 64th "LFE" on they do not fit the buffer. */
  lemma LongInputOverruns(n: nat, channels: nat)
    requires n > 0
    ensures
      var input, output := Join(LongInput(n)), "L,LFE";
      && Fields(input) == LongInput(n) && Fields(output) == ["L", "LFE"] && Known(output)
      && MappedFields(LongInput(n), ["L", "LFE"]) == LongInput(n) && |input| == 4 * n + 1
      && PopCount(MaskBetween(LongInput(n), ["L", "LFE"])) == 2 && Distinct(LongInput(n)[..2])
      && (Reconciled(Permutable, channels, Some(input), Some(output)) == Err(Overrun) <==> n >= 64)
  {
    LongInputFields(n);
    LongOutputFields();
    LongInputMask(n);
    KnownFieldsAreTokens("L,LFE");
    IntersectionIsProposed(channels, Join(LongInput(n)), "L,LFE");
    hide *;
  }

  lemma IntersectionIsProposed(channels: nat, input: string, output: string)
    requires PopCount(MaskBetween(Fields(input), Tokens(output))) > 0
    ensures Reconciled(Permutable, channels, Some(input), Some(output)) == Err(Overrun) <==>
            |Join(MappedFields(Fields(input), Tokens(output)))| > 256
  {
  }

  lemma LongInputFields(n: nat)
    requires n > 0
    ensures Fields(Join(LongInput(n))) == LongInput(n) && |Join(LongInput(n))| == 4 * n + 1
  {
    hide Join, FieldsFrom;
    JoinCons("L", seq(n, _ => "LFE"));
    RepeatedNameLength("LFE", n);
    FieldsOfJoin(LongInput(n));
  }

  lemma LongOutputFields()
    ensures Fields("L,LFE") == ["L", "LFE"] && Known("L,LFE")
  {
    assert MNEMONICS[2] == PLACES[2] == "L" && MNEMONICS[12] == PLACES[12] == "LFE";
    hide Join, FieldsFrom, MNEMONICS;
    JoinOne("LFE");
    JoinCons("L", ["LFE"]);
    assert ["L"] + ["LFE"] == ["L", "LFE"];
    assert Join(["L", "LFE"]) == "L,LFE";
    FieldsOfJoin(["L", "LFE"]);
  }

  lemma LongInputMask(n: nat)
    requires n > 0
    ensures MappedFields(LongInput(n), ["L", "LFE"]) == LongInput(n)
    ensures PopCount(MaskBetween(LongInput(n), ["L", "LFE"])) == 2 && Distinct(LongInput(n)[..2])
  {
    var inputs, outNames := LongInput(n), ["L", "LFE"];
    LongPlaces(n);
    assert inputs[..2] == ["L", "LFE"];
    assert |"L"| != |"LFE"|;
    LongMask(n);
    hide Place, Lookup, Places, MaskOf, PopCount, MappedFields;
    forall i | 0 <= i < |inputs| ensures Place(inputs[i], outNames) >= 0 {
      assert Places(inputs, outNames)[i] >= 0;
    }
    AllMap(inputs, outNames);
  }

  lemma LongPlaces(n: nat)
    requires n > 0
    ensures Places(LongInput(n), ["L", "LFE"]) == [0] + seq(n, _ => 1)
  {
    assert "L" != "X" && "LFE" != "X" by {
      assert "L"[0] != "X"[0] && "LFE"[0] != "X"[0];
    }
    assert |"L"| != |"LFE"|;
    LookupAt(["L", "LFE"], 0);
    LookupAt(["L", "LFE"], 1);
  }

  lemma {:induction false} LongMask(n: nat)
    ensures MaskOf([0] + seq(n, _ => 1)) == if n == 0 then 1 else 3
    ensures PopCount(3) == 2
  {
    var places := [0] + seq(n, _ => 1);
    if n > 0 {
      assert places[..n] == [0] + seq(n - 1, _ => 1);
      LongMask(n - 1);
    } else {
      assert places == [0] && places[..0] == [];
    }
    assert PopCount(3) == 1 + PopCount(1);
  }
}
