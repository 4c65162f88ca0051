/** A recording: a device opened on a WAV or AU file, played to and closed, and the file read back. */
module Recording {
  import opened Bytes
  import opened MatrixSyntax
  import opened Mnemonics
  import opened ChannelMatrix
  import opened Rendering
  import opened ChannelMask
  import opened Routing
  import opened Interleave
  import opened Conversion
  import opened Opening
  import Devices
  import Files
  import Wav
  import Au

  /** The output layout that the WAV driver declares; its channels are collapsible. */
  const WAV_MATRIX := "L,R,C,LFE,BL,BR,CL,CR,BC,SL,SR"

  function WavNames(): seq<string> {
    ["L", "R", "C", "LFE", "BL", "BR", "CL", "CR", "BC", "SL", "SR"]
  }

  lemma WavMatrix()
    ensures Fields(WAV_MATRIX) == Tokens(WAV_MATRIX) == WavNames() && Known(WAV_MATRIX)
    ensures Fields("L,R,C,LFE,BL,BR,CL,CR,BC,SL,SR") ==
            ["L", "R", "C", "LFE", "BL", "BR", "CL", "CR", "BC", "SL", "SR"]
  {
    var names := WavNames();
    forall i | 0 <= i < |names| ensures names[i] in MNEMONICS && ',' !in names[i] {
      WavNameIsKnown(i);
      KnownIsFieldName(names[i]);
    }
    WavNamesJoined();
    FieldsOfJoin(names);
    KnownFieldsAreTokens(WAV_MATRIX);
  }

  lemma WavNameIsKnown(i: nat)
    requires i < |WavNames()|
    ensures WavNames()[i] in MNEMONICS
  {
    var at := [2, 4, 3, 12, 9, 11, 5, 6, 10, 7, 8][i];
    assert MNEMONICS[at] == PLACES[at] == WavNames()[i];
  }

  const BACK: seq<string> := ["CR", "BC", "SL", "SR"]

  const REAR: seq<string> := ["LFE", "BL", "BR", "CL"] + BACK

  lemma BackJoined()
    ensures BACK != [] && Join(BACK) == "CR,BC,SL,SR"
  {
    hide Join;
    JoinOne("SR");
    JoinCons("SL", ["SR"]);
    JoinCons("BC", ["SL"] + ["SR"]);
    JoinCons("CR", ["BC"] + (["SL"] + ["SR"]));
    assert ["CR"] + (["BC"] + (["SL"] + ["SR"])) == BACK;
  }

  lemma RearJoined()
    ensures REAR != [] && Join(REAR) == "LFE,BL,BR,CL,CR,BC,SL,SR"
  {
    BackJoined();
    hide Join, BACK;
    JoinCons("CL", BACK);
    JoinCons("BR", ["CL"] + BACK);
    JoinCons("BL", ["BR"] + (["CL"] + BACK));
    JoinCons("LFE", ["BL"] + (["BR"] + (["CL"] + BACK)));
    assert ["LFE"] + (["BL"] + (["BR"] + (["CL"] + BACK))) == REAR;
  }

  lemma WavNamesParts()
    ensures WavNames() == ["L"] + (["R"] + (["C"] + REAR))
  {
  }

  lemma WavNamesJoined()
    ensures Join(WavNames()) == WAV_MATRIX
  {
    RearJoined();
    WavNamesParts();
    hide Join, BACK, REAR, WavNames;
    JoinCons("C", REAR);
    JoinCons("R", ["C"] + REAR);
    JoinCons("L", ["R"] + (["C"] + REAR));
  }

  /** The drivers that write the two kinds of file. */
  datatype FileDriver = WavDriver | AuDriver

  /** How a device is opened: the driver, the values of the "matrix" options, the client's format, and
      the byte order of the machine. */
  datatype Setup = Setup(driver: FileDriver, options: seq<string>, format: Format, machine: Endian)

  function OwnMatrix(driver: FileDriver): Option<string> {
    match driver
    case WavDriver => Some(WAV_MATRIX)
    case AuDriver => None
  }

  function OrderOf(driver: FileDriver): Order {
    match driver
    case WavDriver => Collapsible
    case AuDriver => Fixed
  }

  function Output(s: Setup): Result<Option<string>> {
    OutputMatrix(OwnMatrix(s.driver), s.options)
  }

  lemma OutputIsUsable(s: Setup)
    ensures Output(s).Ok? ==> Usable(Output(s).value)
    ensures Output(s).Err? ==> Output(s).error == BadOption
    ensures s.driver.WavDriver? && Output(s).Ok? ==> Output(s).value.Some?
  {
    WavMatrix();
    OutputMatrixIsUsable(OwnMatrix(s.driver), s.options);
    OutputMatrixStays(OwnMatrix(s.driver), s.options);
  }

  lemma {:induction false} OutputMatrixStays(own: Option<string>, options: seq<string>)
    ensures own.Some? && OutputMatrix(own, options).Ok? ==> OutputMatrix(own, options).value.Some?
    decreases |options|
  {
    if options != [] && Sanitized(32, options[0]).Some? {
      OutputMatrixStays(Sanitized(32, options[0]), options[1..]);
    }
  }

  /** The layout the core proposes to the driver. */
  function LayoutFor(s: Setup): Result<Layout> {
    var output := Output(s);
    if output.Err? then Err(output.error)
    else Reconciled(OrderOf(s.driver), s.format.channels, InputMatrix(s.format), output.value)
  }

  /** The drivers take any layout as it is; the AU driver names its slots if nobody else does. */
  function Answer(driver: FileDriver, layout: Layout): DriverOpen {
    match driver
    case WavDriver => Accepts(FmtLittle, layout.channels, layout.inter)
    case AuDriver => Accepts(FmtBig, layout.channels, Au.Slots(layout.channels, layout.inter))
  }

  function FileOrder(driver: FileDriver): Endian {
    match driver
    case WavDriver => Little
    case AuDriver => Big
  }

  predicate Supported(format: Format) {
    1 <= format.bits <= 32 && format.channels > 0
  }

  function Bytewidth(format: Format): nat {
    (format.bits + 7) / 8
  }

  /** The setup can be opened, as far as the layout goes. */
  ghost predicate Openable(s: Setup) {
    Supported(s.format) && LayoutFor(s).Ok?
  }

  ghost function WiringFor(s: Setup): (w: Wiring)
    requires Openable(s)
    ensures w.Valid() && Reduced(w).Valid()
    ensures w.bytewidth == Bytewidth(s.format) && w.inputChannels == s.format.channels
    ensures w.outputChannels == LayoutFor(s).value.channels
  {
    LayoutIsPlayable(s);
    NamedWiringIsValid(s.format, Answer(s.driver, LayoutFor(s).value), s.machine);
    NamedWiring(s.format, Answer(s.driver, LayoutFor(s).value), s.machine)
  }

  lemma LayoutIsPlayable(s: Setup)
    requires Openable(s)
    ensures Playable(s.format, Answer(s.driver, LayoutFor(s).value))
  {
    OutputIsUsable(s);
    var output := Output(s).value;
    hide Reconciled, InputMatrix, Known, Output, Tokens, KnownSlots;
    if InputMatrix(s.format).Some? && output.Some? {
      ProposedLayoutIsPlayed(OrderOf(s.driver), s.format, output.value, FmtLittle, Little);
      ProposedLayoutIsNamed(OrderOf(s.driver), s.format, output.value);
    } else {
      Devices.NothingToReconcile(OrderOf(s.driver), s.format.channels, InputMatrix(s.format), output);
      LeftRightIsKnown();
    }
  }

  lemma ProposedLayoutIsNamed(order: Order, format: Format, output: string)
    requires InputMatrix(format).Some?
    ensures var proposed := Reconciled(order, format.channels, InputMatrix(format), Some(output));
            proposed.Ok? ==> proposed.value.inter.Some?
  {
    Devices.ReconciledNames(order, format.channels, InputMatrix(format).value, output);
  }

  lemma LeftRightIsKnown()
    ensures Fields("L,R") == ["L", "R"] && KnownSlots("L,R")
  {
    WavNameIsKnown(0);
    WavNameIsKnown(1);
    hide Join, FieldsFrom, MNEMONICS;
    JoinOne("R");
    JoinCons("L", ["R"]);
    assert ["L"] + ["R"] == ["L", "R"];
    assert Join(["L", "R"]) == "L,R";
    FieldsOfJoin(["L", "R"]);
  }

  /** The buffers hold whole frames, and are small enough for the 32-bit arithmetic of a play. */
  ghost predicate Fitting(w: Wiring, buffers: seq<seq<byte>>): (b: bool)
    requires w.Valid()
    ensures b ==> forall i :: 0 <= i < |buffers| ==> w.Whole(|buffers[i]|)
  {
    forall i :: 0 <= i < |buffers| ==>
      && w.Whole(|buffers[i]|)
      && |buffers[i]| < Devices.UINT_32 && |buffers[i]| * w.outputChannels < Devices.UINT_32
      && |buffers[i]| * w.outputChannels / w.inputChannels < Devices.INT_LIMIT
  }

  lemma ReducedFits(w: Wiring, buffers: seq<seq<byte>>)
    requires w.Valid() && Reduced(w).Valid()
    ensures Fitting(w, buffers) <==> Fitting(Reduced(w), buffers)
  {
  }

  /** What the statements on recordings ask for is met by samples of 1 to 32 bits, at least one channel, a
      layout, and buffers of whole frames that are below 2^31 bytes on the driver's side and below 2^32
      even before dividing by the client's channels. */
  lemma WholeBuffersFit(s: Setup, buffers: seq<seq<byte>>, frames: seq<nat>)
    requires 1 <= s.format.bits <= 32 && s.format.channels > 0 && LayoutFor(s).Ok?
    requires |frames| == |buffers|
    requires forall i :: 0 <= i < |buffers| ==>
               && |buffers[i]| == frames[i] * s.format.channels * ((s.format.bits + 7) / 8) < 0x1_0000_0000
               && |buffers[i]| * LayoutFor(s).value.channels < 0x1_0000_0000
               && frames[i] * LayoutFor(s).value.channels * ((s.format.bits + 7) / 8) < 0x8000_0000
    ensures Openable(s) && Fitting(WiringFor(s), buffers)
  {
    hide LayoutFor, WiringFor, Wiring.Whole, Wiring.Frames, Wiring.Valid;
    var w := WiringFor(s);
    forall i | 0 <= i < |buffers|
      ensures w.Whole(|buffers[i]|) && |buffers[i]| * w.outputChannels / w.inputChannels < 0x8000_0000
    {
      WholeBufferFits(w, |buffers[i]|, frames[i]);
    }
  }

  lemma WholeBufferFits(w: Wiring, n: nat, frames: nat)
    requires w.Valid() && w.inputChannels > 0 && n == frames * w.inputChannels * w.bytewidth
    ensures w.Whole(n) && n * w.outputChannels / w.inputChannels == frames * w.outputChannels * w.bytewidth
  {
    FramesOfSize(w, frames);
    hide Wiring.Valid, Wiring.Whole, Wiring.Frames;
    Devices.OutBytes(w, n);
  }

  /** What the device hands to the driver for each buffer. */
  ghost function HandedAll(w: Wiring, buffers: seq<seq<byte>>): (handed: seq<seq<byte>>)
    requires w.Valid() && forall i :: 0 <= i < |buffers| ==> w.Whole(|buffers[i]|)
    ensures |handed| == |buffers|
    ensures forall i :: 0 <= i < |buffers| ==> handed[i] == Handed(w, buffers[i])
  {
    seq(|buffers|, i requires 0 <= i < |buffers| => Handed(w, buffers[i]))
  }

  /** All that is handed over is the conversion of all that the client plays: neither the fast paths
      nor the cut into buffers make a difference. */
  lemma {:induction false} HandedIsConverted(w: Wiring, buffers: seq<seq<byte>>)
    requires w.Valid() && Reduced(w).Valid()
    requires forall i :: 0 <= i < |buffers| ==> w.Whole(|buffers[i]|) && Reduced(w).Whole(|buffers[i]|)
    ensures w.Whole(|Concat(buffers)|)
    ensures Concat(HandedAll(Reduced(w), buffers)) == w.Convert(Concat(buffers))
    decreases |buffers|
  {
    hide Wiring.Convert, Handed, Wiring.Valid, Reduced;
    if buffers == [] {
      FramesOfSize(w, 0);
    } else {
      HandedIsConverted(w, buffers[1..]);
      assert HandedAll(Reduced(w), buffers)[1..] == HandedAll(Reduced(w), buffers[1..]);
      FastPathRefinesConversion(w, buffers[0]);
      ConvertAppend(w, buffers[0], Concat(buffers[1..]));
    }
  }

  /** All bytes that are written after the header. */
  ghost function Payload(s: Setup, buffers: seq<seq<byte>>): seq<byte>
    requires Openable(s) && Fitting(WiringFor(s), buffers)
  {
    Concat(HandedAll(Reduced(WiringFor(s)), buffers))
  }

  /** The payload is the conversion of all that is played; it consists of whole frames. */
  lemma PayloadIsConverted(s: Setup, buffers: seq<seq<byte>>)
    requires Openable(s) && Fitting(WiringFor(s), buffers)
    ensures var w, samples := WiringFor(s), Concat(buffers);
            && w.Whole(|samples|) && Payload(s, buffers) == w.Convert(samples)
            && |Payload(s, buffers)| == Size(w.Frames(|samples|), w.outputChannels, w.bytewidth)
  {
    hide Concat, WiringFor, LayoutFor, Wiring.Valid, Size;
    ReducedFits(WiringFor(s), buffers);
    HandedIsConverted(WiringFor(s), buffers);
  }

  /** From the client's buffers to the file: in every frame, slot `j` carries the integer that the client
      wrote for the input channel it plays, or silence. Which channel that is, is said by
      Opening.EndToEndRouting. */
  lemma PayloadKeepsSamples(s: Setup, buffers: seq<seq<byte>>, f: nat, j: nat)
    requires Openable(s) && Fitting(WiringFor(s), buffers)
    requires f < WiringFor(s).Frames(|Concat(buffers)|) && j < LayoutFor(s).value.channels
    ensures
      var channels, bw := LayoutFor(s).value.channels, Bytewidth(s.format);
      var c := PlayedChannel(s.format, Answer(s.driver, LayoutFor(s).value), j);
      && SamplePresent(Payload(s, buffers), f, j, channels, bw)
      && (c >= 0 ==> SamplePresent(Concat(buffers), f, c, s.format.channels, bw))
      && SampleValue(FileOrder(s.driver), SampleBytes(Payload(s, buffers), f, j, channels, bw)) ==
         if c < 0 then SilenceValue(bw)
         else SampleValue(RealByteFormat(s.format.byteFormat, s.machine),
                          SampleBytes(Concat(buffers), f, c, s.format.channels, bw))
  {
    PayloadIsConverted(s, buffers);
    hide Payload, LayoutFor, SampleBytes, SampleValue, Size, Wiring.Convert, Concat, InputMatrix, Index;
    ConvertPreservesValues(WiringFor(s), Concat(buffers), RealByteFormat(s.format.byteFormat, s.machine),
                           FileOrder(s.driver), f, j);
  }

  // ----- Opening, playing and closing

  /** The device is ready to play by wiring `w`. */
  ghost predicate Ready(device: Devices.Device, w: Wiring)
    reads device
  {
    device.View() == w && (device.swapBuffer != null <==> BufferNeeded(w))
  }

  /** The functions of the driver that a device is opened with. */
  datatype Writer = WavFile(wav: Wav.Writer) | AuFile(au: Au.Writer)
  {
    function File(): Files.File {
      match this
      case WavFile(w) => w.file
      case AuFile(w) => w.file
    }

    function State(): object {
      match this
      case WavFile(w) => w
      case AuFile(w) => w
    }

    ghost predicate Valid()
      reads File()
    {
      File().Valid() && File().position == |File().contents|
    }

    /** `funcs->play` */
    method Play(samples: seq<byte>) returns (ok: bool)
      requires Valid()
      modifies File()
      ensures Valid()
      ensures ok <==> |old(File().contents)| + |samples| <= File().capacity
      ensures File().contents == Files.Clip(old(File().contents) + samples, File().capacity)
    {
      match this {
        case WavFile(w) => ok := w.Play(samples);
        case AuFile(w) => ok := w.Play(samples);
      }
    }

    /** `funcs->close` */
    method Close() returns (ok: bool)
      requires Valid()
      modifies State(), File()
      ensures ok <==> WavFile? ==> File().seekable && Wav.HEADER_LEN <= File().capacity
      ensures File().contents == ClosedBy(if WavFile? then WavDriver else AuDriver, old(File().contents),
                                          File().seekable, File().capacity)
    {
      match this {
        case WavFile(w) => ok := w.Close();
        case AuFile(w) => ok := w.Close();
      }
    }
  }

  function ClosedBy(driver: FileDriver, contents: seq<byte>, seekable: bool, capacity: nat): seq<byte> {
    match driver
    case WavDriver => Wav.Closed(contents, seekable, capacity)
    case AuDriver => Au.Closed(contents, seekable, capacity)
  }

  /** The driver takes the format: AU files have 8 or 16 bits only. */
  predicate Taken(s: Setup) {
    LayoutFor(s).Ok? && (s.driver.AuDriver? ==> s.format.bits == 8 || s.format.bits == 16)
  }

  /** The header as it is written first, with a size that is not known yet. */
  function HeaderBytes(s: Setup): (header: seq<byte>)
    requires LayoutFor(s).Ok?
    ensures |header| == if s.driver.WavDriver? then Wav.HEADER_LEN else Au.HEADER_LEN
  {
    var layout := LayoutFor(s).value;
    match s.driver
    case WavDriver =>
      Wav.Encode(Wav.HeaderFor(layout.channels, s.format.bits, s.format.rate, layout.mask, 0x7fffffff))
    case AuDriver =>
      Au.Encode(Au.HeaderFor(layout.channels, s.format.bits, s.format.rate, Au.AUDIO_UNKNOWN_SIZE))
  }

  /** What an open writes; nothing when it fails before. */
  function OpenBytes(s: Setup): seq<byte> {
    if Taken(s) then HeaderBytes(s) else []
  }

  /** What an open fails with, on a file of that capacity. */
  function OpenError(s: Setup, capacity: nat): Option<Error> {
    if LayoutFor(s).Err? then Some(LayoutFor(s).error)
    else if !Taken(s) || capacity < |HeaderBytes(s)| then Some(OpenDevice)
    else None
  }

  /** `ao_open_file`. A device that could not be opened is closed, and so the lengths are written even
      then. */
  method OpenFile(s: Setup, file: Files.File)
    returns (error: Option<Error>, device: Devices.Device, writer: Writer)
    requires Supported(s.format)
    requires file.Valid() && file.contents == [] && file.position == 0
    modifies file
    ensures fresh(device) && fresh(writer.State()) && writer.File() == file
    ensures writer.WavFile? <==> s.driver.WavDriver?
    ensures error == OpenError(s, file.capacity)
    ensures error ==
            if LayoutFor(s).Err? then Some(LayoutFor(s).error)
            else if s.driver.AuDriver? && s.format.bits != 8 && s.format.bits != 16 then Some(OpenDevice)
            else if file.capacity < (if s.driver.WavDriver? then 68 else 28) then Some(OpenDevice)
            else None
    ensures error.Some? ==>
              file.contents ==
              ClosedBy(s.driver, Files.Clip(OpenBytes(s), file.capacity), file.seekable, file.capacity)
    ensures error.None? ==>
              && LayoutFor(s).Ok?
              && writer.Valid() && file.contents == HeaderBytes(s)
              && Ready(device, Reduced(WiringFor(s)))
              && (device.swapBuffer == null || fresh(device.swapBuffer))
  {
    hide Reduced, Reconciled, InputMatrix, Wiring.Valid, OutputMatrix, Known, Tokens, ClosedBy, Taken, HeaderBytes;
    OutputIsUsable(s);
    OpenErrorLaw(s, file.capacity);
    device := new Devices.Device(s.format, s.machine, OrderOf(s.driver), OwnMatrix(s.driver));
    writer := NewWriter(s.driver, file);
    error := device.LoadOptions(s.options);
    if error.None? {
      var layout := device.Prepare(s.format);
      if layout.Err? {
        error := Some(layout.error);
      } else {
        var accepted, answer := OpenWriter(s, writer, layout.value);
        if accepted {
          LayoutIsPlayable(s);
        }
        error := device.Finish(s.format, answer);
      }
    }
    if error.Some? {
      NotTaken(s);
      NothingClipped();
      var closed := writer.Close();
    }
  }

  lemma OpenErrorLaw(s: Setup, capacity: nat)
    ensures OpenError(s, capacity) ==
            if LayoutFor(s).Err? then Some(LayoutFor(s).error)
            else if s.driver.AuDriver? && s.format.bits != 8 && s.format.bits != 16 then Some(OpenDevice)
            else if capacity < (if s.driver.WavDriver? then 68 else 28) then Some(OpenDevice)
            else None
  {
    hide LayoutFor, HeaderBytes;
  }

  lemma NotTaken(s: Setup)
    ensures LayoutFor(s).Err? ==> OpenBytes(s) == []
  {
  }

  /** `funcs->device_init` */
  method NewWriter(driver: FileDriver, file: Files.File) returns (writer: Writer)
    requires file.Valid() && file.contents == [] && file.position == 0
    ensures fresh(writer.State()) && writer.File() == file && writer.Valid()
    ensures writer.WavFile? <==> driver.WavDriver?
  {
    match driver {
      case WavDriver =>
        var w := new Wav.Writer(file);
        writer := WavFile(w);
      case AuDriver =>
        var w := new Au.Writer(file);
        writer := AuFile(w);
    }
  }

  /** `funcs->open`, and what the driver leaves of the layout. */
  method OpenWriter(s: Setup, writer: Writer, layout: Layout) returns (ok: bool, answer: DriverOpen)
    requires LayoutFor(s) == Ok(layout) && (writer.WavFile? <==> s.driver.WavDriver?)
    requires writer.Valid() && writer.File().contents == []
    modifies writer.State(), writer.File()
    ensures writer.Valid()
    ensures ok <==> Taken(s) && |HeaderBytes(s)| <= writer.File().capacity
    ensures answer == if ok then Answer(s.driver, layout) else Refuses
    ensures writer.File().contents == Files.Clip(OpenBytes(s), writer.File().capacity)
  {
    hide LayoutFor, Wav.Encode, Au.Encode, Wav.HeaderFor, Au.HeaderFor, Files.Clip, Au.Slots;
    NothingClipped();
    var slots := layout.inter;
    match writer {
      case WavFile(w) =>
        ok := w.Open(layout.channels, s.format.bits, s.format.rate, layout.mask);
      case AuFile(w) =>
        ok, slots := w.Open(layout.channels, s.format.bits, s.format.rate, slots);
    }
    if !ok {
      answer := Refuses;
    } else if writer.WavFile? {
      answer := Accepts(FmtLittle, layout.channels, slots);
    } else {
      answer := Accepts(FmtBig, layout.channels, slots);
    }
  }

  lemma NothingClipped()
    ensures forall capacity: nat :: Files.Clip([], capacity) == []
  {
  }

  /** `ao_play` */
  method PlayOne(device: Devices.Device, writer: Writer, samples: seq<byte>, ghost w: Wiring)
    returns (ok: bool)
    requires writer.Valid() && Ready(device, w) && w.Valid() && Fitting(w, [samples])
    modifies device`swapBuffer, device.swapBuffer, writer.File()
    ensures writer.Valid() && Ready(device, w) && w.Whole(|samples|)
    ensures device.swapBuffer == old(device.swapBuffer) || fresh(device.swapBuffer)
    ensures ok <==> |old(writer.File().contents)| + |Handed(w, samples)| <= writer.File().capacity
    ensures writer.File().contents ==
            Files.Clip(old(writer.File().contents) + Handed(w, samples), writer.File().capacity)
  {
    hide Handed, Wiring.Valid, Wiring.Convert, Files.Clip;
    assert [samples][0] == samples;
    var handed := device.Play(samples);
    HandedIs(w, samples, handed);
    ok := writer.Play(handed);
  }

  lemma FittingOne(w: Wiring, buffers: seq<seq<byte>>, i: nat)
    requires w.Valid() && Fitting(w, buffers) && i < |buffers|
    ensures Fitting(w, [buffers[i]])
  {
  }

  /** Plays of the buffers, one after the other, until one fails. */
  method PlayAll(device: Devices.Device, writer: Writer, buffers: seq<seq<byte>>, ghost w: Wiring)
    returns (ok: bool)
    requires writer.Valid() && Ready(device, w) && w.Valid()
    requires Fitting(w, buffers)
    modifies device`swapBuffer, device.swapBuffer, writer.File()
    ensures writer.Valid()
    ensures ok <==> |old(writer.File().contents)| + |Concat(HandedAll(w, buffers))| <= writer.File().capacity
    ensures writer.File().contents ==
            Files.Clip(old(writer.File().contents) + Concat(HandedAll(w, buffers)), writer.File().capacity)
  {
    hide Concat, Handed, Wiring.Valid, Fitting, Ready, Files.Clip;
    ghost var handed := HandedAll(w, buffers);
    ghost var before, file := writer.File().contents, writer.File();
    ConcatNothing(handed);
    for i := 0 to |buffers|
      invariant writer.Valid() && Ready(device, w)
      invariant device.swapBuffer == old(device.swapBuffer) || fresh(device.swapBuffer)
      invariant file.contents == before + Concat(handed[..i])
    {
      ConcatGrows(handed, i);
      FittingOne(w, buffers, i);
      ok := PlayOne(device, writer, buffers[i], w);
      assert before + Concat(handed[..i]) + handed[i] == before + Concat(handed[..i + 1]);
      if !ok {
        ConcatFront(handed, i + 1);
        ClippedFront(before, Concat(handed[..i + 1]), Concat(handed), file.capacity);
        return;
      }
      WholeClip(before + Concat(handed[..i + 1]), file.capacity);
    }
    assert handed[..|buffers|] == handed;
    WholeClip(before + Concat(handed), file.capacity);
    return true;
  }

  lemma WholeClip(contents: seq<byte>, capacity: nat)
    requires |contents| <= capacity
    ensures Files.Clip(contents, capacity) == contents
  {
  }

  lemma ConcatFront(parts: seq<seq<byte>>, i: nat)
    requires i <= |parts|
    ensures Concat(parts[..i]) <= Concat(parts)
  {
    assert parts == parts[..i] + parts[i..];
    ConcatAppend(parts[..i], parts[i..]);
  }

  lemma ClippedFront(before: seq<byte>, front: seq<byte>, all: seq<byte>, capacity: nat)
    requires front <= all && |before| + |front| >= capacity
    ensures Files.Clip(before + front, capacity) == Files.Clip(before + all, capacity)
  {
    Files.ClipFull(before + front, before + all, capacity);
  }

  lemma HandedIs(w: Wiring, samples: seq<byte>, handed: seq<byte>)
    requires w.Valid() && w.Whole(|samples|)
    requires handed == if BufferNeeded(w) then w.Convert(samples) else samples
    ensures handed == Handed(w, samples)
  {
  }

  /** All that is written before the close, when there is room for it. */
  ghost function Written(s: Setup, buffers: seq<seq<byte>>): seq<byte>
    requires Supported(s.format) && (Taken(s) ==> Fitting(WiringFor(s), buffers))
  {
    if Taken(s) then HeaderBytes(s) + Payload(s, buffers) else []
  }

  /** Open a device on a file, play the buffers and close it. `error` is what opening fails with; `ok`
      says that everything was written. The file is, in every case, what there was room for of all
      that was to be written, as the close of the driver leaves it. */
  method Record(s: Setup, buffers: seq<seq<byte>>, file: Files.File)
    returns (error: Option<Error>, ok: bool)
    requires Supported(s.format)
    requires file.Valid() && file.contents == [] && file.position == 0
    requires Taken(s) ==> Fitting(WiringFor(s), buffers)
    modifies file
    ensures error == OpenError(s, file.capacity)
    ensures error ==
            if LayoutFor(s).Err? then Some(LayoutFor(s).error)
            else if s.driver.AuDriver? && s.format.bits != 8 && s.format.bits != 16 then Some(OpenDevice)
            else if file.capacity < (if s.driver.WavDriver? then 68 else 28) then Some(OpenDevice)
            else None
    ensures ok <==>
            && error.None? && |Written(s, buffers)| <= file.capacity
            && (s.driver.WavDriver? ==> file.seekable)
    ensures file.contents ==
            ClosedBy(s.driver, Files.Clip(Written(s, buffers), file.capacity), file.seekable, file.capacity)
    ensures ok ==> file.contents == RecordedFile(s, buffers, file.seekable)
  {
    hide Concat, Reduced, Handed, LayoutFor, RecordedFile, Fitting, Wiring.Valid, HeaderBytes, Ready, Files.Clip;
    hide ClosedBy, WiringFor, Payload;
    OpenedPart(s, buffers, file.capacity);
    OpenErrorLaw(s, file.capacity);
    var device, writer;
    error, device, writer := OpenFile(s, file);
    ok := error.None?;
    if ok {
      ReducedFits(WiringFor(s), buffers);
      PayloadIs(s, buffers);
      ok := PlayAll(device, writer, buffers, Reduced(WiringFor(s)));
      var closed := writer.Close();
      if ok && closed {
        WholeClip(Written(s, buffers), file.capacity);
        RecordedIs(s, buffers, file.seekable, file.capacity);
      }
      ok := ok && closed;
    }
  }

  lemma PayloadIs(s: Setup, buffers: seq<seq<byte>>)
    requires Openable(s) && Fitting(WiringFor(s), buffers) && Fitting(Reduced(WiringFor(s)), buffers)
    ensures Payload(s, buffers) == Concat(HandedAll(Reduced(WiringFor(s)), buffers))
  {
  }

  /** When an open fails, no more than the header would have been written. */
  lemma OpenedPart(s: Setup, buffers: seq<seq<byte>>, capacity: nat)
    requires Supported(s.format) && (Taken(s) ==> Fitting(WiringFor(s), buffers))
    ensures OpenError(s, capacity).Some? ==>
              Files.Clip(OpenBytes(s), capacity) == Files.Clip(Written(s, buffers), capacity)
    ensures OpenError(s, capacity).None? ==>
              Taken(s) && |HeaderBytes(s)| <= capacity &&
              Written(s, buffers) == HeaderBytes(s) + Payload(s, buffers)
  {
    hide Payload, LayoutFor, HeaderBytes, WiringFor, Fitting;
    if Taken(s) && capacity < |HeaderBytes(s)| {
      Files.ClipFull(HeaderBytes(s), HeaderBytes(s) + Payload(s, buffers), capacity);
    }
  }

  /** The finished file: all that was written, with the lengths in the header. */
  ghost function RecordedFile(s: Setup, buffers: seq<seq<byte>>, seekable: bool): seq<byte>
    requires Openable(s) && Fitting(WiringFor(s), buffers)
  {
    var layout, handed := LayoutFor(s).value, HandedAll(Reduced(WiringFor(s)), buffers);
    match s.driver
    case WavDriver => Wav.Finished(layout.channels, s.format.bits, s.format.rate, layout.mask, handed)
    case AuDriver => Au.Finished(layout.channels, s.format.bits, s.format.rate, handed, seekable)
  }

  /** Closing a file with everything in it gives the finished file. */
  lemma RecordedIs(s: Setup, buffers: seq<seq<byte>>, seekable: bool, capacity: nat)
    requires Supported(s.format) && Taken(s) && Fitting(WiringFor(s), buffers)
    requires |Written(s, buffers)| <= capacity && (s.driver.WavDriver? ==> seekable)
    ensures ClosedBy(s.driver, Written(s, buffers), seekable, capacity) == RecordedFile(s, buffers, seekable)
  {
    hide Concat, LayoutFor, WiringFor, Fitting, Patch, Wav.HeaderFor, Au.HeaderFor, Wav.Encode, Au.Encode;
    hide Wav.Closed, Au.Closed;
    match s.driver {
      case WavDriver => Wav.ClosedWhole(Written(s, buffers), capacity);
      case AuDriver => Au.ClosedWhole(Written(s, buffers), seekable, capacity);
    }
  }

  /** A WAV file on which an open fails stays empty if and only if, when the options or the layout were
      to blame, it cannot be positioned or has no room where the first length goes, and otherwise if
      it has no room at all. */
  lemma FailedWavIsEmpty(s: Setup, seekable: bool, capacity: nat)
    requires s.driver.WavDriver? && OpenError(s, capacity).Some?
    ensures ClosedBy(WavDriver, Files.Clip(OpenBytes(s), capacity), seekable, capacity) == [] <==>
            if LayoutFor(s).Err? then !seekable || capacity <= 4 else capacity == 0
  {
    hide LayoutFor, HeaderBytes;
    NotTaken(s);
    NothingClipped();
    if LayoutFor(s).Err? {
      Wav.ClosedEmpty(seekable, capacity);
    } else {
      Wav.ClosedKeeps(Files.Clip(HeaderBytes(s), capacity), seekable, capacity);
    }
  }

  /** An AU file does when the driver did not get to the header. */
  lemma FailedAuIsEmpty(s: Setup, seekable: bool, capacity: nat)
    requires s.driver.AuDriver? && !Taken(s)
    ensures ClosedBy(AuDriver, Files.Clip(OpenBytes(s), capacity), seekable, capacity) == []
  {
    hide LayoutFor, Taken;
    NothingClipped();
  }

  /** An empty "matrix" option is one on which an open fails, and leaves zeros and bogus lengths. */
  lemma EmptyOption(format: Format, machine: Endian, capacity: nat)
    requires Wav.HEADER_LEN <= capacity
    ensures var s := Setup(WavDriver, [""], format, machine);
            && LayoutFor(s) == Err(BadOption) && OpenError(s, capacity) == Some(BadOption)
            && ClosedBy(WavDriver, Files.Clip(OpenBytes(s), capacity), true, capacity) ==
               Fill(4, 0) + [0xf8, 0xff, 0xff, 0xff] + Fill(56, 0) + [0xbc, 0xff, 0xff, 0xff]
  {
    EmptyIsInvalid();
    NotTaken(Setup(WavDriver, [""], format, machine));
    NothingClipped();
    Wav.ClosedEmptyFile(capacity);
    hide Wav.Closed, Sanitized;
  }

  lemma EmptyIsInvalid()
    ensures Sanitized(32, "").None?
  {
    assert Fields("") == [""] && Tokens("")[0] == Trim("") == "";
    assert "" !in MNEMONICS by {
      if "" in MNEMONICS {
        KnownIsFieldName("");
      }
    }
    assert Tokens("")[..1][0] == "";
  }

  // ----- The WAV file

  /** What the client plays is named: a matrix came with the format, and some of its names are
      known to the driver. */
  ghost predicate Named(s: Setup) {
    s.driver.WavDriver? && Openable(s) && InputMatrix(s.format).Some?
  }

  /** The names of the inputs, and of the outputs. */
  function Inputs(s: Setup): seq<string>
    requires InputMatrix(s.format).Some?
  {
    Fields(InputMatrix(s.format).value)
  }

  function OutNames(s: Setup): seq<string>
    requires Output(s).Ok? && Output(s).value.Some?
  {
    Fields(Output(s).value.value)
  }

  /** The layout of a recording: a slot for each output name that an input maps to. */
  lemma NamedLayout(s: Setup)
    requires Named(s)
    ensures Output(s).Ok? && Output(s).value.Some? && |OutNames(s)| <= 32
    ensures var layout := LayoutFor(s).value;
            && layout.mask == MaskBetween(Inputs(s), OutNames(s)) < Files.U32
            && layout.inter.Some?
            && Fields(layout.inter.value) == MaskNames(layout.mask, OutNames(s))
            && 0 < layout.channels == PopCount(layout.mask) == |MaskNames(layout.mask, OutNames(s))| <= 32
  {
    OutputIsUsable(s);
    KnownFieldsAreTokens(Output(s).value.value);
    ProposedLayout(Collapsible, s.format.channels, InputMatrix(s.format).value, Output(s).value.value);
    CollapsiblePlacement(Inputs(s), OutNames(s));
    WordWidth();
    hide MaskBetween, InputMatrix, Ones, Known, Output, Fits;
  }

  /** With a named input nothing is left to fail but the options and an empty mask: the names fit their
      buffer. */
  lemma RecordingOpens(s: Setup)
    requires s.driver.WavDriver? && Supported(s.format)
    ensures LayoutFor(s).Ok? <==>
            && Output(s).Ok?
            && (InputMatrix(s.format).Some? ==>
                  Output(s).value.Some? && !NothingMaps(Inputs(s), OutNames(s)))
  {
    OutputIsUsable(s);
    hide InputMatrix, Output, Known, NothingMaps, FieldsFrom, Fits;
    if Output(s).Ok? {
      if InputMatrix(s.format).Some? {
        KnownFieldsAreTokens(Output(s).value.value);
        ProposedLayout(Collapsible, s.format.channels, InputMatrix(s.format).value, Output(s).value.value);
        SlotsUsuallyFit(Collapsible, Inputs(s), Output(s).value.value);
      } else {
        Devices.NothingToReconcile(Collapsible, s.format.channels, InputMatrix(s.format), Output(s).value);
      }
    }
  }

  /** The layout of a file with named inputs, by the positions of the outputs that are inputs: the bits of
      the mask are these positions; a WAV file has a channel for each, an AU file has channels up to the
      last. */
  lemma LayoutOfNames(s: Setup) returns (at: seq<nat>)
    requires Openable(s) && InputMatrix(s.format).Some? && Output(s).Ok? && Output(s).value.Some?
    ensures NewAt(Inputs(s), OutNames(s), at) && at != []
    ensures forall m: nat :: Bit(LayoutFor(s).value.mask, m) <==> m in at
    ensures LayoutFor(s).value.channels == if s.driver.WavDriver? then |at| else at[|at| - 1] + 1
  {
    hide InputMatrix, Output, Known, Reconciled, Fields, Bit, MNEMONICS, NewAt, MappedFields, Tokens, Join;
    OutputIsUsable(s);
    at := ReconcilingLaw(OrderOf(s.driver), s.format.channels, InputMatrix(s.format).value, Output(s).value.value);
  }

  /** A WAV file that could not be positioned keeps the lengths of a file of 2^31 - 1 bytes. */
  lemma PipedLengths(s: Setup)
    requires s.driver.WavDriver? && LayoutFor(s).Ok?
    ensures |HeaderBytes(s)| == 68
    ensures LittleValue(HeaderBytes(s)[4..8]) == 0x7fff_fff7 && LittleValue(HeaderBytes(s)[64..68]) == 0x7fff_ffbb
  {
    hide LayoutFor, Wav.Encode, LittleValue, Files.Low16, Files.Low32;
    var layout := LayoutFor(s).value;
    var h := Wav.HeaderFor(layout.channels, s.format.bits, s.format.rate, layout.mask, 0x7fffffff);
    Wav.HeaderFieldsAt(h, []);
    assert Wav.Encode(h) + [] == Wav.Encode(h);
  }

  lemma WordWidth()
    ensures Pow2(32) == Files.U32
  {
    assert Pow2(8) == 256;
    assert Pow2(16) == 256 * Pow2(8);
    assert Pow2(24) == 256 * Pow2(16);
    assert Pow2(32) == 256 * Pow2(24);
  }

  /** What a reader of the file finds: the format, the channel mask and as many channels as the layout has,
      and whole frames of samples. */
  lemma RecordingIsRead(s: Setup, buffers: seq<seq<byte>>)
    requires s.driver.WavDriver? && Openable(s) && Fitting(WiringFor(s), buffers)
    requires 68 + |Payload(s, buffers)| - 8 < 0x1_0000_0000
    ensures
      var read, layout := Wav.Parse(RecordedFile(s, buffers, true)), LayoutFor(s).value;
      && read.Some? && read.value.payload == Payload(s, buffers)
      && var h, bw := read.value.header, (s.format.bits + 7) / 8;
      && h.channelMask == layout.mask && h.channels == layout.channels % 0x1_0000
      && h.blockAlign == h.channels * bw % 0x1_0000
      && h.bitsPerSample == 8 * bw && h.validBits == s.format.bits
      && h.samplesPerSec == s.format.rate % 0x1_0000_0000
      && h.avgBytesPerSec == h.channels * h.samplesPerSec * bw % 0x1_0000_0000
      && h.riffLen == |Payload(s, buffers)| + 60 && h.dataLen == |Payload(s, buffers)|
  {
    hide Wav.Parse, Wav.Finished, Wav.HeaderFor, Concat, MaskBetween, MaskNames, InputMatrix, LayoutFor;
    hide WiringFor, Fitting, HandedAll, Wiring.Valid, Reduced, PopCount, Output;
    MaskIsWord(s);
    var layout := LayoutFor(s).value;
    ReducedFits(WiringFor(s), buffers);
    var handed := HandedAll(Reduced(WiringFor(s)), buffers);
    Wav.WavRoundTrip(layout.channels, s.format.bits, s.format.rate, layout.mask, handed);
    HeaderFields(layout.channels, s.format.bits, s.format.rate, layout.mask, |Concat(handed)|);
  }

  lemma MaskIsWord(s: Setup)
    requires s.driver.WavDriver? && Openable(s)
    ensures LayoutFor(s).value.mask < Files.U32
  {
    OutputIsUsable(s);
    if InputMatrix(s.format).Some? {
      NamedLayout(s);
    } else {
      hide Output, InputMatrix;
      Devices.NothingToReconcile(Collapsible, s.format.channels, InputMatrix(s.format), Output(s).value);
    }
  }

  lemma HeaderFields(channels: nat, bits: nat, rate: nat, mask: nat, dataLen: nat)
    requires 1 <= bits <= 32 && mask < Files.U32
    ensures var h, bw := Wav.HeaderFor(channels, bits, rate, mask, Wav.HEADER_LEN + dataLen), (bits + 7) / 8;
            && h.channelMask == mask && h.channels == channels % 0x1_0000
            && h.blockAlign == h.channels * bw % 0x1_0000
            && h.bitsPerSample == 8 * bw && h.validBits == bits && h.samplesPerSec == rate % 0x1_0000_0000
            && h.riffLen == dataLen + 60 && h.dataLen == dataLen
            && h.avgBytesPerSec == h.channels * h.samplesPerSec * bw % 0x1_0000_0000
  {
    hide Files.Low16, Files.Low32, Wav.HeaderFor;
    var bw := (bits + 7) / 8;
    HeaderInParts(channels, bits, rate, mask, dataLen);
    var ch, r := Files.Low16(channels), Files.Low32(rate);
    Truncations(channels, rate, mask);
    TruncatedProduct(ch, bw, r);
  }

  lemma TruncatedProduct(ch: nat, bw: nat, r: nat)
    ensures Files.Low16(ch * bw) == ch * bw % 0x1_0000 && Files.Low32(ch * r * bw) == ch * r * bw % 0x1_0000_0000
  {
  }

  lemma HeaderInParts(channels: nat, bits: nat, rate: nat, mask: nat, dataLen: nat)
    requires 1 <= bits <= 32 && mask < Files.U32
    ensures var bw, ch, r := (bits + 7) / 8, Files.Low16(channels), Files.Low32(rate);
            Wav.HeaderFor(channels, bits, rate, mask, Wav.HEADER_LEN + dataLen) ==
            Wav.Header(dataLen + 60, ch, r, Files.Low32(ch * r * bw), Files.Low16(ch * bw), 8 * bw, bits, mask, dataLen)
  {
    hide Files.Low16, Files.Low32;
    var bw := (bits + 7) / 8;
    Truncations(bits, 0, mask);
    Truncations(bw * 8, 0, 0);
    if bits <= 8 {
      assert bw == 1;
    } else if bits <= 16 {
      assert bw == 2;
    } else if bits <= 24 {
      assert bw == 3;
    } else {
      assert bw == 4;
    }
  }

  lemma Truncations(small: nat, rate: nat, word: nat)
    requires word < Files.U32
    ensures Files.Low16(small) == small % 0x1_0000 && Files.Low32(rate) == rate % 0x1_0000_0000
    ensures Files.Low32(word) == word
  {
  }

  /** From the client's buffers to the file, in plain terms: every slot of every frame carries what it
      should, little-endian in a WAV file and big-endian in an AU file. */
  lemma FileCarries(s: Setup, buffers: seq<seq<byte>>, client: Endian, frames: nat, f: nat, j: nat)
    requires Openable(s) && Fitting(WiringFor(s), buffers)
    requires StandsFor(s.format.byteFormat, s.machine, client)
    requires |Concat(buffers)| == frames * s.format.channels * ((s.format.bits + 7) / 8)
    requires f < frames && j < LayoutFor(s).value.channels
    ensures
      var layout := LayoutFor(s).value;
      && |Payload(s, buffers)| == frames * layout.channels * ((s.format.bits + 7) / 8)
      && Delivered(s.format,
                   Accepts(if s.driver.WavDriver? then FmtLittle else FmtBig, layout.channels, layout.inter),
                   client, if s.driver.WavDriver? then Little else Big, Concat(buffers), Payload(s, buffers), f, j)
  {
    hide Concat, Payload, LayoutFor, Delivered, WiringFor, InputMatrix, Wiring.Convert, Wiring.Valid, Handed, Reduced;
    hide Wiring.Whole, NamedWiring, Fitting;
    var driver := Answer(s.driver, LayoutFor(s).value);
    LayoutIsPlayable(s);
    PayloadIsConverted(s, buffers);
    WiringIsNamed(s);
    EndToEndIntegers(s.format, driver, s.machine, client, FileOrder(s.driver), Concat(buffers), frames, f, j);
    FastPathRefinesConversion(WiringFor(s), Concat(buffers));
    SlotsDelivered(s, client, Concat(buffers), Payload(s, buffers), f, j);
  }

  lemma WiringIsNamed(s: Setup)
    requires Openable(s)
    ensures WiringFor(s) == NamedWiring(s.format, Answer(s.driver, LayoutFor(s).value), s.machine)
    ensures WiringFor(s).Valid()
  {
  }

  /** The slot names that the AU driver adds make no difference. */
  lemma SlotsDelivered(s: Setup, client: Endian, samples: seq<byte>, handed: seq<byte>, f: nat, j: nat)
    requires LayoutFor(s).Ok?
    ensures
      var layout := LayoutFor(s).value;
      Delivered(s.format, Answer(s.driver, layout), client, FileOrder(s.driver), samples, handed, f, j) <==>
      Delivered(s.format, Accepts(if s.driver.WavDriver? then FmtLittle else FmtBig, layout.channels, layout.inter),
                client, if s.driver.WavDriver? then Little else Big, samples, handed, f, j)
  {
    hide LayoutFor, Fields, InputMatrix, SampleValue, IsClients;
  }

  /** Input channel `c` is the first of its name, which is that of output `m` and of none before. */
  ghost predicate Matches(s: Setup, c: nat, m: nat)
    requires InputMatrix(s.format).Some? && Output(s).Ok? && Output(s).value.Some?
  {
    && c < |Inputs(s)| && m < |OutNames(s)| && Inputs(s)[c] == OutNames(s)[m]
    && Inputs(s)[c] !in ["", "X"] && Inputs(s)[c] !in Inputs(s)[..c] && OutNames(s)[m] !in OutNames(s)[..m]
  }

  /** Every input whose name the output matrix has, first of that name, is in the file. In a WAV file it is
      in the slot counted by the bits of the mask below its position, in an AU file in the slot at its
      position. */
  lemma RecordingKeepsSamples(s: Setup, buffers: seq<seq<byte>>, client: Endian, frames: nat, f: nat, c: nat, m: nat)
    requires Openable(s) && Fitting(WiringFor(s), buffers)
    requires InputMatrix(s.format).Some? && Output(s).Ok? && Output(s).value.Some? && Matches(s, c, m)
    requires StandsFor(s.format.byteFormat, s.machine, client)
    requires |Concat(buffers)| == frames * s.format.channels * ((s.format.bits + 7) / 8)
    requires f < frames
    ensures
      var layout, bw := LayoutFor(s).value, (s.format.bits + 7) / 8;
      var j := if s.driver.WavDriver? then |Ones(layout.mask, m)| else m;
      && Bit(layout.mask, m) && j < layout.channels
      && InSlot(Payload(s, buffers), if s.driver.WavDriver? then Little else Big, layout.channels, j,
                Concat(buffers), client, s.format.channels, c, f, bw)
  {
    hide Concat, Payload, WiringFor, Fields, InputMatrix, Fitting, IsClients, SampleValue, LayoutFor, Ones, Bit, Output;
    SlotOfName(s, c, m);
    var layout := LayoutFor(s).value;
    var j := if s.driver.WavDriver? then |Ones(layout.mask, m)| else m;
    FileCarries(s, buffers, client, frames, f, j);
    DeliveredName(s.format, Accepts(if s.driver.WavDriver? then FmtLittle else FmtBig, layout.channels, layout.inter),
                  client, if s.driver.WavDriver? then Little else Big, Concat(buffers), Payload(s, buffers), f, j, c);
  }

  /** Slot `j` of frame `f` of `handed` has the integer of client channel `c`. */
  ghost predicate InSlot(handed: seq<byte>, target: Endian, channels: nat, j: nat,
                         samples: seq<byte>, client: Endian, inputChannels: nat, c: nat, f: nat, bw: nat)
  {
    var at := (f * channels + j) * bw;
    && bw > 0 && at + bw <= |handed|
    && IsClients(SampleValue(target, handed[at..at + bw]), client, samples, f, c, inputChannels, bw)
  }

  lemma DeliveredName(format: Format, driver: DriverOpen, client: Endian, target: Endian,
                      samples: seq<byte>, handed: seq<byte>, f: nat, j: nat, c: nat)
    requires driver.Accepts? && driver.inter.Some? && InputMatrix(format).Some?
    requires Delivered(format, driver, client, target, samples, handed, f, j)
    requires var slots, inputs := Fields(driver.inter.value), Fields(InputMatrix(format).value);
             && j < |slots| && c < |inputs| && slots[j] == inputs[c]
             && inputs[c] !in ["", "X"] && inputs[c] !in inputs[..c]
    ensures InSlot(handed, target, driver.channels, j, samples, client, format.channels, c, f, (format.bits + 7) / 8)
  {
    hide IsClients, SampleValue, Fields, InputMatrix;
  }

  /** The slot of a matching name. */
  lemma SlotOfName(s: Setup, c: nat, m: nat)
    requires Openable(s) && InputMatrix(s.format).Some? && Output(s).Ok? && Output(s).value.Some? && Matches(s, c, m)
    ensures
      var layout := LayoutFor(s).value;
      var j := if s.driver.WavDriver? then |Ones(layout.mask, m)| else m;
      && layout.inter.Some? && Bit(layout.mask, m) && j < layout.channels
      && j < |Fields(layout.inter.value)| && Fields(layout.inter.value)[j] == Inputs(s)[c]
  {
    hide InputMatrix, Output, Known, Reconciled, Fields, Ones, Bit, MNEMONICS, NewAt, NewName, MappedFields, Tokens, Join;
    OutputIsUsable(s);
    var at := ReconcilingLaw(OrderOf(s.driver), s.format.channels, InputMatrix(s.format).value, Output(s).value.value);
    var k := MatchingPosition(s, c, m, at);
    if s.driver.WavDriver? {
      RankIsIndex(LayoutFor(s).value.mask, at, k);
    }
  }

  lemma MatchingPosition(s: Setup, c: nat, m: nat, at: seq<nat>) returns (k: nat)
    requires InputMatrix(s.format).Some? && Output(s).Ok? && Output(s).value.Some? && Matches(s, c, m)
    requires NewAt(Inputs(s), OutNames(s), at)
    ensures k < |at| && at[k] == m && m < |OutNames(s)| && OutNames(s)[m] == Inputs(s)[c]
    ensures m <= at[|at| - 1]
    ensures forall i, j :: 0 <= i < j < |at| ==> at[i] < at[j]
  {
    hide InputMatrix, Output, Fields;
    assert Inputs(s)[c] in Inputs(s);
    assert NewName(Inputs(s), OutNames(s), m);
    k :| 0 <= k < |at| && at[k] == m;
  }

  /** The rank of a bit is its index among the positions in increasing order. */
  lemma RankIsIndex(mask: nat, at: seq<nat>, k: nat)
    requires forall i, j :: 0 <= i < j < |at| ==> at[i] < at[j]
    requires forall m: nat :: Bit(mask, m) <==> m in at
    requires k < |at|
    ensures |Ones(mask, at[k])| == k
  {
    OnesAreTheBits(mask, at[k]);
    hide Ones, Bit;
    assert forall m: nat :: m in Ones(mask, at[k]) <==> m in at[..k] by {
      forall m: nat ensures m in Ones(mask, at[k]) <==> m in at[..k] {
        if m in at && m < at[k] {
          var i :| 0 <= i < |at| && at[i] == m;
          assert at[..k][i] == m;
        }
        if m in at[..k] {
          var i :| 0 <= i < k && at[..k][i] == m;
          assert at[i] in at;
        }
      }
    }
    SameIncreasing(Ones(mask, at[k]), at[..k]);
  }

  lemma {:induction false} SameIncreasing(a: seq<nat>, b: seq<nat>)
    requires Increasing(a) && Increasing(b) && SameMembers(a, b)
    ensures a == b
  {
    hide Increasing, SameMembers;
    SameEnds(a, b);
    if a != [] {
      SameIncreasing(a[..|a| - 1], b[..|b| - 1]);
      assert a == a[..|a| - 1] + [a[|a| - 1]] && b == b[..|b| - 1] + [b[|b| - 1]];
    }
  }

  ghost predicate Increasing(a: seq<nat>) {
    forall i, j :: 0 <= i < j < |a| ==> a[i] < a[j]
  }

  ghost predicate SameMembers(a: seq<nat>, b: seq<nat>) {
    forall m: nat :: m in a <==> m in b
  }

  lemma SameEnds(a: seq<nat>, b: seq<nat>)
    requires Increasing(a) && Increasing(b) && SameMembers(a, b)
    ensures a == [] <==> b == []
    ensures a != [] && b != [] ==>
              && a[|a| - 1] == b[|b| - 1]
              && Increasing(a[..|a| - 1]) && Increasing(b[..|b| - 1]) && SameMembers(a[..|a| - 1], b[..|b| - 1])
  {
    assert a != [] ==> a[0] in a && a[|a| - 1] in a;
    assert b != [] ==> b[0] in b && b[|b| - 1] in b;
    if a != [] && b != [] {
      AllButLast(a);
      AllButLast(b);
      assert a[|a| - 1] in b && b[|b| - 1] in a;
      var x, y := a[..|a| - 1], b[..|b| - 1];
      forall m: nat ensures m in x <==> m in y {
        assert m in a <==> m in b;
      }
    }
  }

  lemma AllButLast(a: seq<nat>)
    requires a != [] && Increasing(a)
    ensures forall m: nat :: m in a[..|a| - 1] <==> m in a && m != a[|a| - 1]
    ensures forall m: nat :: m in a ==> m <= a[|a| - 1]
  {
    var n := |a| - 1;
    assert a == a[..n] + [a[n]];
  }

  /** When there is no layout, and why: an option that cannot be sanitized, or else a named input of which no
      name is in the output matrix. */
  lemma LayoutLaw(s: Setup)
    requires Supported(s.format)
    ensures (exists i :: 0 <= i < |s.options| && Sanitized(32, s.options[i]).None?) ==> LayoutFor(s) == Err(BadOption)
    ensures (forall i :: 0 <= i < |s.options| ==> Sanitized(32, s.options[i]).Some?) ==>
              && Output(s).Ok?
              && if InputMatrix(s.format).None? || Output(s).value.None? then
                   LayoutFor(s) == Ok(Layout(s.format.channels, 0, None))
                 else if forall c :: 0 <= c < |Inputs(s)| ==>
                           Inputs(s)[c] !in OutNames(s) || Inputs(s)[c] in ["", "X"] then
                   LayoutFor(s) == Err(BadFormat)
                 else LayoutFor(s).Ok?
  {
    hide Sanitized, InputMatrix, OutputMatrix, Known, Reconciled, Fields, MNEMONICS, NewAt;
    LastOptionCounts(OwnMatrix(s.driver), s.options);
    OutputIsUsable(s);
    if Output(s).Ok? {
      if InputMatrix(s.format).None? || Output(s).value.None? {
        Devices.NothingToReconcile(OrderOf(s.driver), s.format.channels, InputMatrix(s.format), Output(s).value);
      } else {
        var at := ReconcilingLaw(OrderOf(s.driver), s.format.channels, InputMatrix(s.format).value, Output(s).value.value);
        NothingNew(Inputs(s), OutNames(s), at);
      }
    }
  }

  /** The name of the speaker that bit `m` of a channel mask stands for in the file format. The bits from
      the eleventh on stand for speakers that have no name here. */
  function Speaker(m: nat): string {
    if m < |WavNames()| then WavNames()[m] else ""
  }

  /** The speaker at which a reader that goes by the mask plays slot `j`. */
  function SpeakerOfSlot(mask: nat, j: nat): string {
    if j < |Ones(mask, 32)| then Speaker(Ones(mask, 32)[j]) else ""
  }

  /** A reader that goes by the mask plays every input of a known name at the speaker of that name. */
  ghost predicate HeardInPlace(inputs: seq<string>, outNames: seq<string>) {
    var mask := MaskBetween(inputs, outNames);
    forall c: nat :: FirstMapped(inputs, outNames, c) ==>
      SpeakerOfSlot(mask, |Ones(mask, Place(inputs[c], outNames))|) == inputs[c]
  }

  /** That is so if and only if the output matrix has, at each position in use, the name that the file
      format gives it. */
  lemma HeardInPlaceIff(inputs: seq<string>, outNames: seq<string>)
    requires |outNames| <= 32
    ensures forall m: nat :: Bit(MaskBetween(inputs, outNames), m) ==> m < |outNames|
    ensures HeardInPlace(inputs, outNames) <==>
            forall m: nat :: Bit(MaskBetween(inputs, outNames), m) ==> Speaker(m) == outNames[m]
  {
    var mask := MaskBetween(inputs, outNames);
    MaskOfPlaces(inputs, outNames);
    hide Speaker, Ones, Place;
    forall c: nat | FirstMapped(inputs, outNames, c)
      ensures Bit(mask, Place(inputs[c], outNames))
      ensures SpeakerOfSlot(mask, |Ones(mask, Place(inputs[c], outNames))|) == Speaker(Place(inputs[c], outNames))
    {
      MaskBits(inputs, outNames, c);
      OnesRank(mask, Place(inputs[c], outNames), 32);
    }
    forall m: nat | Bit(mask, m)
      ensures m < |outNames| && exists c: nat :: FirstMapped(inputs, outNames, c) && Place(inputs[c], outNames) == m
    {
      SomeFirstMapped(inputs, outNames, m);
    }
  }

  lemma SomeFirstMapped(inputs: seq<string>, outNames: seq<string>, m: nat)
    requires Bit(MaskBetween(inputs, outNames), m)
    ensures m < |outNames| && exists c: nat :: FirstMapped(inputs, outNames, c) && Place(inputs[c], outNames) == m
  {
    MaskOfBits(Places(inputs, outNames), m);
    var i :| 0 <= i < |inputs| && Places(inputs, outNames)[i] == m;
    assert Place(inputs[i], outNames) == m;
    MappedName(inputs, outNames, inputs[i]);
    assert FirstMapped(inputs, outNames, ChannelOf(inputs[i], inputs));
  }

  /** Without a "matrix" option it is always so. */
  lemma OwnMatrixIsHeardInPlace(s: Setup)
    requires Named(s) && s.options == []
    ensures Output(s).Ok? && Output(s).value.Some? && HeardInPlace(Inputs(s), OutNames(s))
  {
    WavMatrix();
    hide InputMatrix, LayoutFor, FieldsFrom, HeardInPlace;
    HeardInPlaceIff(Inputs(s), OutNames(s));
  }

  /** A recording conforms to the file format exactly when frames, channels and bytes of a sample
      multiply to an even number (and the RIFF length fits 32 bits). */
  lemma RecordingConforms(s: Setup, buffers: seq<seq<byte>>)
    requires s.driver.WavDriver? && Openable(s) && Fitting(WiringFor(s), buffers)
    ensures var frames := WiringFor(s).Frames(|Concat(buffers)|);
            var n := frames * LayoutFor(s).value.channels * Bytewidth(s.format);
            Wav.Conforms(RecordedFile(s, buffers, true)) <==>
            n % 2 == 0 && Wav.HEADER_LEN + n - 8 < Files.U32
  {
    PayloadIsConverted(s, buffers);
    ReducedFits(WiringFor(s), buffers);
    hide WiringFor, LayoutFor, Fitting, Concat, Wav.Conforms, Wav.Finished, Wiring.Frames, Wiring.Valid;
    var layout := LayoutFor(s).value;
    Wav.WavConforms(layout.channels, s.format.bits, s.format.rate, layout.mask,
                    HandedAll(Reduced(WiringFor(s)), buffers));
  }

  // ----- The AU file

  /** The slot names that the AU driver sets are those the core would use anyway. */
  lemma AuSlotsChangeNothing(format: Format, channels: nat, inter: Option<string>, machine: Endian)
    ensures NamedWiring(format, Accepts(FmtBig, channels, Au.Slots(channels, inter)), machine) ==
            NamedWiring(format, Accepts(FmtBig, channels, inter), machine)
  {
  }

  /** Without a "matrix" option an AU file has as many channels as the client, but of named inputs only
      the first "L" and the first "R" are written, to the first two: the others are silent. */
  lemma AuPlaysLeftAndRight(s: Setup, j: nat)
    requires s.driver.AuDriver? && s.options == [] && Supported(s.format)
    requires InputMatrix(s.format).Some? && j < s.format.channels
    ensures Openable(s) && LayoutFor(s).value.channels == s.format.channels
    ensures PlayedChannel(s.format, Answer(AuDriver, LayoutFor(s).value), j) ==
            if j == 0 then ChannelOf("L", Inputs(s))
            else if j == 1 then ChannelOf("R", Inputs(s))
            else -1
  {
    LeftRightIsKnown();
    Devices.NothingToReconcile(Fixed, s.format.channels, InputMatrix(s.format), None);
    hide Reconciled, InputMatrix, FieldsFrom, ChannelOf;
  }

  /** What a reader of the AU file finds: the format and the payload, of which PayloadKeepsSamples
      speaks. */
  lemma AuRecordingIsRead(s: Setup, buffers: seq<seq<byte>>, seekable: bool)
    requires s.driver.AuDriver? && Supported(s.format) && Taken(s) && Fitting(WiringFor(s), buffers)
    requires |Payload(s, buffers)| < Files.U32
    ensures
      var read := Au.Parse(RecordedFile(s, buffers, seekable));
      && read.Some? && read.value.payload == Payload(s, buffers)
      && read.value.header.channels == LayoutFor(s).value.channels % Files.U32
      && read.value.header.encoding ==
         (if s.format.bits == 8 then 2 else 3)
      && read.value.header.sampleRate == s.format.rate % Files.U32
  {
    hide Au.Parse, Au.Finished, LayoutFor, WiringFor, Fitting, Concat;
    ReducedFits(WiringFor(s), buffers);
    Au.AuRoundTrip(LayoutFor(s).value.channels, s.format.bits, s.format.rate,
                   HandedAll(Reduced(WiringFor(s)), buffers), seekable);
  }

  // ----- An example: stereo with its channels exchanged

  function RightLeft(machine: Endian): Setup {
    Setup(WavDriver, [], Format(16, 44100, 2, FmtLittle, Some("R,L")), machine)
  }

  /** A matrix of two known names is clean. */
  lemma CleanPair(a: string, b: string, max: int)
    requires a in MNEMONICS && b in MNEMONICS && max >= 2
    ensures Sanitized(max, a + "," + b) == Some(a + "," + b) && Fields(a + "," + b) == [a, b]
  {
    hide MNEMONICS, Join, FieldsFrom;
    JoinOne(b);
    JoinCons(a, [b]);
    assert [a] + [b] == [a, b];
    assert Join([a, b]) == a + "," + b;
    KnownIsFieldName(a);
    KnownIsFieldName(b);
    TokensOfJoin([a, b]);
    FieldsOfJoin([a, b]);
    assert Tokens(a + "," + b)[..2] == [a, b];
  }

  lemma RightLeftMatrix(machine: Endian)
    ensures InputMatrix(RightLeft(machine).format) == Some("R,L") && Fields("R,L") == ["R", "L"]
  {
    WavNameIsKnown(0);
    WavNameIsKnown(1);
    CleanPair("R", "L", 2);
    assert "R" + "," + "L" == "R,L";
    hide MNEMONICS, Sanitized, FieldsFrom;
  }

  /** Its first channel belongs in the second slot and its second in the first. */
  lemma RightLeftPlaces()
    ensures FirstMapped(["R", "L"], WavNames(), 0) && FirstMapped(["R", "L"], WavNames(), 1)
    ensures MaskBetween(["R", "L"], WavNames()) == 3 && PopCount(3) == 2
    ensures |Ones(3, Place("R", WavNames()))| == 1 && |Ones(3, Place("L", WavNames()))| == 0
  {
    hide Place, Ones, PopCount, MaskOf;
    Routing.LettersDiffer();
    FirstTwo();
    PlaceAt(WavNames(), 0, "L");
    PlaceAt(WavNames(), 1, "R");
    hide WavNames;
    assert Places(["R", "L"], WavNames()) == [1, 0];
    MaskOfTwo();
  }

  lemma FirstTwo()
    ensures WavNames()[0] == "L" && WavNames()[1] == "R" && "L" != "R"
  {
    Routing.LettersDiffer();
  }

  lemma MaskOfTwo()
    ensures MaskOf([1, 0]) == 3 && PopCount(3) == 2 && |Ones(3, 1)| == 1 && |Ones(3, 0)| == 0
  {
    assert [1, 0][..1] == [1] && [1][..0] == [];
    assert MaskOf([1]) == 2;
    assert Ones(3, 1) == [0] && PopCount(3) == 2;
  }

  /** All that is asked for above of a recording is met. */
  lemma RightLeftIsNamed(machine: Endian)
    ensures Named(RightLeft(machine)) && LayoutFor(RightLeft(machine)).value.channels == 2
    ensures Inputs(RightLeft(machine)) == ["R", "L"]
    ensures Output(RightLeft(machine)) == Ok(Some(WAV_MATRIX)) && OutNames(RightLeft(machine)) == WavNames()
  {
    var s := RightLeft(machine);
    RightLeftMatrix(machine);
    RightLeftPlaces();
    WavMatrix();
    hide InputMatrix, FieldsFrom, MNEMONICS, MaskNames, FirstMapped, Ones, Place, PopCount, NothingMaps, LayoutFor;
    EmptyMask(["R", "L"], WavNames());
    RecordingOpens(s);
    NamedLayout(s);
  }

  lemma OneFrameFits(w: Wiring, frame: seq<byte>)
    requires w.Valid() && w.bytewidth == w.inputChannels == w.outputChannels == 2 && |frame| == 4
    ensures Fitting(w, [frame]) && w.Frames(|frame|) == 1
  {
  }

  lemma RightLeftFits(machine: Endian, frame: seq<byte>)
    requires |frame| == 4
    ensures Named(RightLeft(machine)) && Fitting(WiringFor(RightLeft(machine)), [frame])
    ensures Concat([frame]) == frame && WiringFor(RightLeft(machine)).Frames(|frame|) == 1
  {
    hide LayoutFor, WiringFor, InputMatrix, Fitting, Wiring.Valid, Wiring.Frames;
    RightLeftIsNamed(machine);
    OneFrameFits(WiringFor(RightLeft(machine)), frame);
  }

  // ----- An example: an option that exchanges the speakers

  function Exchanged(machine: Endian): Setup {
    Setup(WavDriver, ["R,L"], Format(16, 44100, 2, FmtLittle, Some("L,R")), machine)
  }

  lemma OneOption(own: Option<string>, option: string, clean: string)
    requires Sanitized(32, option) == Some(clean)
    ensures OutputMatrix(own, [option]) == Ok(Some(clean))
  {
    assert OutputMatrix(Some(clean), [option][1..]) == Ok(Some(clean));
  }

  lemma ExchangedMatrices(machine: Endian)
    ensures Output(Exchanged(machine)) == Ok(Some("R,L")) && Fields("R,L") == ["R", "L"]
    ensures InputMatrix(Exchanged(machine).format) == Some("L,R") && Fields("L,R") == ["L", "R"]
  {
    hide MNEMONICS, Sanitized, FieldsFrom, OutputMatrix;
    WavNameIsKnown(0);
    WavNameIsKnown(1);
    CleanPair("R", "L", 32);
    CleanPair("L", "R", 2);
    assert "R" + "," + "L" == "R,L" && "L" + "," + "R" == "L,R";
    OneOption(OwnMatrix(WavDriver), "R,L", "R,L");
  }

  /** Inputs "L,R" and option "R,L": the mask says front left and front right, but the first slot has
      the right channel. */
  lemma ExchangedSpeakers(machine: Endian)
    ensures var s := Exchanged(machine);
            && Output(s) == Ok(Some("R,L")) && InputMatrix(s.format) == Some("L,R")
            && MaskBetween(Inputs(s), OutNames(s)) == 3 && !HeardInPlace(Inputs(s), OutNames(s))
  {
    ExchangedMatrices(machine);
    ExchangedMask();
    hide MaskBetween, HeardInPlace, Fields, Output, InputMatrix;
  }

  lemma ExchangedMask()
    ensures MaskBetween(["L", "R"], ["R", "L"]) == 3
    ensures !HeardInPlace(["L", "R"], ["R", "L"])
  {
    Routing.LettersDiffer();
    LookupAt(["R", "L"], 0);
    LookupAt(["R", "L"], 1);
    assert Places(["L", "R"], ["R", "L"]) == [1, 0];
    assert [1, 0][..1] == [1] && [1][..0] == [];
    assert MaskOf([1]) == 2;
    HeardInPlaceIff(["L", "R"], ["R", "L"]);
    assert Bit(3, 0) && Speaker(0) == "L";
    hide HeardInPlace;
  }
}
