/** An open audio device: reconciling the channel layouts when it is opened, and playing. */
module Devices {
  import opened Bytes
  import opened MatrixSyntax
  import opened ChannelMatrix
  import opened Routing
  import opened Interleave
  import opened Conversion
  import opened Opening

  const DEF_SWAP_BUF_SIZE := 1024

  const UINT_32 := 0x1_0000_0000

  const INT_LIMIT := 0x8000_0000

  /** All output channels below `n` hold their converted samples. */
  ghost predicate ChannelsDone(buf: seq<byte>, w: Wiring, samples: seq<byte>, n: nat)
    requires w.Valid() && w.Whole(|samples|) && n <= w.outputChannels
  {
    forall f, j, b | 0 <= f < w.Frames(|samples|) && 0 <= j < n && 0 <= b < w.bytewidth ::
      Index(f, j, b, w.outputChannels, w.bytewidth) < |buf| &&
      buf[Index(f, j, b, w.outputChannels, w.bytewidth)] == w.OutByte(samples, f, j, b)
  }

  /** The samples that output channel `j` is given. */
  ghost function OutSamples(w: Wiring, samples: seq<byte>, j: nat): (s: seq<seq<byte>>)
    requires w.Valid() && w.Whole(|samples|) && j < w.outputChannels
    ensures |s| == w.Frames(|samples|)
  {
    var n := w.Frames(|samples|);
    if w.Source(j) < 0 then Silences(n, w.bytewidth)
    else
      var s := ChannelSamples(samples, n, w.Source(j), w.inputChannels, w.bytewidth);
      if w.swap then Reversed(s) else s
  }

  lemma OutSamplesBytes(w: Wiring, samples: seq<byte>, f: nat, j: nat, b: nat)
    requires w.Valid() && w.Whole(|samples|) && j < w.outputChannels
    requires f < w.Frames(|samples|) && b < w.bytewidth
    ensures |OutSamples(w, samples, j)[f]| == w.bytewidth
    ensures OutSamples(w, samples, j)[f][b] == w.OutByte(samples, f, j, b)
  {
    hide Size, Index, ChannelSamples, Quotient;
    var c := w.Source(j);
    if c >= 0 {
      var at := if w.swap then w.bytewidth - 1 - b else b;
      ChannelSampleByte(samples, w.Frames(|samples|), c, w.inputChannels, w.bytewidth, f, at);
    }
  }

  /** The pass over one more channel leaves the channels before it as they are. */
  lemma PassCompletes(before: seq<byte>, after: seq<byte>, w: Wiring, samples: seq<byte>, i: nat)
    requires w.Valid() && w.Whole(|samples|) && i < w.outputChannels
    requires ChannelsDone(before, w, samples, i)
    requires Passed(before, after, OutSamples(w, samples, i), i, w.outputChannels, w.bytewidth)
    ensures ChannelsDone(after, w, samples, i + 1)
  {
    hide Size, Index, OutSamples, Wiring.OutByte;
    forall f, j, b | 0 <= f < w.Frames(|samples|) && 0 <= j < i + 1 && 0 <= b < w.bytewidth
      ensures Index(f, j, b, w.outputChannels, w.bytewidth) < |after|
      ensures after[Index(f, j, b, w.outputChannels, w.bytewidth)] == w.OutByte(samples, f, j, b)
    {
      IndexParts(f, j, b, w.outputChannels, w.bytewidth);
      if j == i {
        OutSamplesBytes(w, samples, f, j, b);
        assert Stands(after, OutSamples(w, samples, i), f, b, i, w.outputChannels, w.bytewidth);
      }
    }
  }

  /** `num_bytes*output_channels/input_channels` is the size of the same number of frames. */
  lemma OutBytes(w: Wiring, n: nat)
    requires w.Valid() && w.Whole(n)
    ensures n * w.outputChannels / w.inputChannels == Size(w.Frames(n), w.outputChannels, w.bytewidth)
  {
    var frames, ic, oc, bw := w.Frames(n), w.inputChannels, w.outputChannels, w.bytewidth;
    assert n * oc == (frames * ic * bw) * oc == (frames * oc * bw) * ic by {
      Rearrange(frames, ic, bw, oc);
    }
    DivModUnique(n * oc, Size(frames, oc, bw), 0, ic);
  }

  lemma Rearrange(a: nat, b: nat, c: nat, d: nat)
    ensures (a * b * c) * d == (a * d * c) * b
  {
  }

  class Device {
    const machine: Endian
    var clientFormat: Endian
    var driverFormat: Endian
    var swapBuffer: array?<byte>
    var inputChannels: nat
    var outputChannels: nat
    var bytewidth: nat
    var order: Order
    var outputMatrix: Option<string>
    var outputMask: nat
    var inputMap: Option<seq<int>>
    var interMatrix: Option<string>
    var interPermute: Option<seq<int>>

    function View(): Wiring
      reads this
    {
      Wiring(bytewidth, inputChannels, outputChannels, interPermute,
             SwapNeeded(bytewidth, clientFormat, driverFormat))
    }

    /** `_create_device` and the driver's `device_init`, which can declare an output layout. */
    constructor (format: Format, machine: Endian, order: Order, outputMatrix: Option<string>)
      ensures this.machine == machine && clientFormat == RealByteFormat(format.byteFormat, machine)
      ensures StandsFor(format.byteFormat, machine, clientFormat)
      ensures this.order == order && this.outputMatrix == outputMatrix
      ensures Fresh()
    {
      this.machine, this.order, this.outputMatrix := machine, order, outputMatrix;
      clientFormat, driverFormat := RealByteFormat(format.byteFormat, machine), Little;
      swapBuffer, inputMap, interMatrix, interPermute := null, None, None, None;
      inputChannels, outputChannels, bytewidth, outputMask := 0, format.channels, 0, 0;
    }

    /** Nothing has been decided about the device yet. */
    ghost predicate Fresh()
      reads this
    {
      swapBuffer == null && interMatrix.None? && interPermute.None? && inputMap.None? && outputMask == 0
    }

    /** The "matrix" option: a valid matrix replaces the driver's own. */
    method SetMatrixOption(value: string) returns (error: Option<Error>)
      modifies this`outputMatrix
      ensures outputMatrix == Sanitized(32, value)
      ensures error == if Sanitized(32, value).None? then Some(BadOption) else None
    {
      outputMatrix := SanitizeMatrix(32, Some(value));
      return if outputMatrix.None? then Some(BadOption) else None;
    }

    /** `ao_device_load_options`, for the values of the "matrix" options in their order. */
    method LoadOptions(options: seq<string>) returns (error: Option<Error>)
      modifies this`outputMatrix
      ensures var output := OutputMatrix(old(outputMatrix), options);
              if output.Ok? then error.None? && outputMatrix == output.value else error == Some(output.error)
    {
      hide Sanitized;
      error := None;
      for i := 0 to |options|
        invariant OutputMatrix(outputMatrix, options[i..]) == OutputMatrix(old(outputMatrix), options)
      {
        error := SetMatrixOption(options[i]);
        if error.Some? {
          return;
        }
        assert options[i..][1..] == options[i + 1..];
      }
      error := None;
    }

    /** `_open_device` up to the driver's open: reconcile the output layout with the input. */
    method Prepare(format: Format) returns (r: Result<Layout>)
      requires Fresh() && format.channels > 0
      requires outputMatrix.Some? ==> |Tokens(outputMatrix.value)| <= 32
      modifies this
      ensures outputMatrix == old(outputMatrix) && order == old(order)
      ensures clientFormat == old(clientFormat) && swapBuffer == null && interPermute.None?
      ensures r == Reconciled(order, format.channels, InputMatrix(format), outputMatrix)
      ensures r.Ok? && r.value.inter.Some? ==> outputMatrix.Some? && InputMatrix(format).Some?
      ensures r.Ok? ==>
                && outputChannels == r.value.channels && interMatrix == r.value.inter
                && outputMask == r.value.mask
                && inputChannels == format.channels && bytewidth == (format.bits + 7) / 8
      ensures r.Ok? && r.value.inter.Some? ==>
                inputMap == Some(InputMap(format.channels, InputMatrix(format).value, outputMatrix.value))
    {
      hide InputMap, Reconciled, InputMatrix;
      var matrix := PrepareInputMatrix(format);
      if outputMatrix.Some? && matrix.Some? {
        InputFits(format);
        var map_;
        r, map_ := Reconcile(order, format.channels, matrix.value, outputMatrix.value);
        ReconciledNames(order, format.channels, matrix.value, outputMatrix.value);
        inputMap := Some(map_);
        if r.Err? {
          return;
        }
        outputChannels, outputMask, interMatrix := r.value.channels, r.value.mask, r.value.inter;
      } else {
        outputChannels := format.channels;
        r := Ok(Layout(outputChannels, 0, None));
        NothingToReconcile(order, format.channels, matrix, outputMatrix);
      }
      inputChannels := format.channels;
      bytewidth := (format.bits + 7) / 8;
    }

    /** Sanitize the format's channel matrix, with the special case of "M". */
    static method PrepareInputMatrix(format: Format) returns (matrix: Option<string>)
      ensures matrix == InputMatrix(format)
    {
      matrix := SanitizeMatrix(format.channels, format.matrix);
      if format.channels == 1 && matrix.Some? && matrix.value == "M" {
        matrix := None;
      }
    }

    /** Match the final slot names with the input channels. */
    method SetUpPermutation(format: Format, driver: DriverOpen)
      requires Playable(format, driver)
      requires interMatrix == driver.inter && outputChannels == driver.channels
      requires inputChannels == format.channels && interPermute.None?
      modifies this`interMatrix, this`interPermute
      ensures interPermute == NamedWiring(format, driver, machine).permute
      ensures interPermute.Some? <==> InputMatrix(format).Some?
      ensures interMatrix == if interPermute.Some? && old(interMatrix).None? then Some("L,R") else old(interMatrix)
    {
      var matrix := PrepareInputMatrix(format);
      if matrix.Some? {
        if interMatrix.None? {
          interMatrix := Some("L,R");
        }
        var perm := BuildPermutation(interMatrix.value, outputChannels, matrix.value, inputChannels);
        PermutationIsRouting(format, driver, perm);
        interPermute := Some(perm);
      }
    }

    /** A permutation that leaves every channel in its place is not kept. */
    method DropIdentity()
      requires interPermute.Some? ==> |interPermute.value| == outputChannels
      modifies this`interPermute
      ensures View() == Reduced(old(View()))
      ensures interPermute ==
              if old(interPermute).Some? && outputChannels == inputChannels &&
                 forall j :: 0 <= j < outputChannels ==> old(interPermute).value[j] == j
              then None else old(interPermute)
    {
      if interPermute.Some? && outputChannels == inputChannels {
        var i := 0;
        while i < outputChannels && interPermute.value[i] == i
          invariant 0 <= i <= outputChannels && unchanged(this)
          invariant forall j :: 0 <= j < i ==> interPermute.value[j] == j
        {
          i := i + 1;
        }
        if i == outputChannels {
          interPermute := None;
        }
      }
    }

    /** `_open_device` from the driver's open on: set up the permutation for the final slot names,
        drop it if it changes nothing, and get a swap buffer if one is needed. */
    method Finish(format: Format, driver: DriverOpen) returns (error: Option<Error>)
      requires clientFormat == RealByteFormat(format.byteFormat, machine)
      requires inputChannels == format.channels && bytewidth == (format.bits + 7) / 8
      requires swapBuffer == null && interPermute.None?
      requires driver.Accepts? ==> Playable(format, driver)
      modifies this
      ensures driver.Refuses? <==> error == Some(OpenDevice)
      ensures driver.Accepts? ==>
                && error.None?
                && View() == Reduced(NamedWiring(format, driver, machine))
                && (swapBuffer != null <==> BufferNeeded(View()))
                && outputChannels == driver.channels && StandsFor(driver.byteFormat, machine, driverFormat)
                && (swapBuffer != null <==>
                    || (bytewidth > 1 && clientFormat != driverFormat)
                    || inputChannels != outputChannels || interPermute.Some?)
      ensures swapBuffer == null || (fresh(swapBuffer) && swapBuffer.Length == 1024)
    {
      if driver.Refuses? {
        return Some(OpenDevice);
      }
      outputChannels, interMatrix := driver.channels, driver.inter;
      SetUpPermutation(format, driver);
      DropIdentity();
      driverFormat := RealByteFormat(driver.byteFormat, machine);
      if (bytewidth > 1 && clientFormat != driverFormat) || inputChannels != outputChannels || interPermute.Some? {
        ReallocSwapBuffer(DEF_SWAP_BUF_SIZE);
      }
      return None;
    }

    /** `_realloc_swap_buffer`: the buffer only grows, and keeps what it holds. */
    method ReallocSwapBuffer(minSize: nat)
      modifies this`swapBuffer
      ensures old(swapBuffer) != null || minSize > 0 ==> swapBuffer != null && minSize <= swapBuffer.Length
      ensures old(swapBuffer) == null && minSize > 0 ==> swapBuffer.Length == minSize
      ensures old(swapBuffer) != null ==>
                swapBuffer.Length == if minSize > old(swapBuffer.Length) then minSize else old(swapBuffer.Length)
      ensures old(swapBuffer) != null ==> old(swapBuffer.Length) <= swapBuffer.Length
      ensures old(swapBuffer) != null ==> old(swapBuffer[..]) <= swapBuffer[..]
      ensures swapBuffer == old(swapBuffer) || fresh(swapBuffer)
    {
      var size := if swapBuffer == null then 0 else swapBuffer.Length;
      if minSize > size {
        var temp := new byte[minSize](_ => 0);
        for i := 0 to size
          invariant fresh(temp) && unchanged(this)
          invariant swapBuffer != null ==> swapBuffer[..] == old(swapBuffer[..])
          invariant swapBuffer != null ==> temp[..i] == swapBuffer[..i]
        {
          temp[i] := swapBuffer[i];
        }
        swapBuffer := temp;
      }
    }

    /** The size of the driver buffer, by unsigned 32-bit arithmetic. */
    method OutBytesFor(n: nat) returns (outBytes: nat)
      requires View().Valid() && View().Whole(n) && n * outputChannels < UINT_32
      ensures outBytes == Size(View().Frames(n), outputChannels, bytewidth)
    {
      OutBytes(View(), n);
      outBytes := (n * outputChannels) % UINT_32 / inputChannels;
    }

    /** The pass of `ao_play` for output channel `i`. */
    method ConvertChannel(i: nat, samples: seq<byte>, outBytes: nat)
      requires View().Valid() && View().Whole(|samples|) && i < outputChannels && swapBuffer != null
      requires outBytes == Size(View().Frames(|samples|), outputChannels, bytewidth) <= swapBuffer.Length
      requires ChannelsDone(swapBuffer[..], View(), samples, i)
      modifies swapBuffer
      ensures ChannelsDone(swapBuffer[..], View(), samples, i + 1)
    {
      hide ChannelsDone, Passed, Size;
      ghost var before, frames := swapBuffer[..], View().Frames(|samples|);
      var swap := bytewidth > 1 && clientFormat != driverFormat;
      var ic := if interPermute.Some? then interPermute.value[i] else i;
      if ic == -1 {
        BufferZero(swapBuffer, i, bytewidth, outputChannels, outBytes, frames);
      } else if swap {
        BufferPermuteSwap(swapBuffer, i, bytewidth, outputChannels, outBytes, samples, ic, inputChannels, frames);
      } else {
        BufferPermute(swapBuffer, i, bytewidth, outputChannels, outBytes, samples, ic, inputChannels, frames);
      }
      PassCompletes(before, swapBuffer[..], View(), samples, i);
    }

    /** `ao_play`, up to the call of the driver: `handed` is what the driver is given to play. */
    method Play(samples: seq<byte>) returns (handed: seq<byte>)
      requires View().Valid() && View().Whole(|samples|)
      requires |samples| < UINT_32
      requires swapBuffer != null ==>
                 |samples| * outputChannels < UINT_32 &&
                 |samples| * outputChannels / inputChannels < INT_LIMIT
      modifies this`swapBuffer, swapBuffer
      ensures old(swapBuffer) == null ==> handed == samples && swapBuffer == null
      ensures old(swapBuffer) != null ==>
                handed == View().Convert(samples) &&
                swapBuffer != null && old(swapBuffer.Length) <= swapBuffer.Length
      ensures swapBuffer == old(swapBuffer) || fresh(swapBuffer)
    {
      hide ChannelsDone, Size, Wiring.Convert;
      if swapBuffer == null {
        return samples;
      }
      ghost var w := View();
      var outBytes := OutBytesFor(|samples|);
      ReallocSwapBuffer(outBytes);
      NoneDone(swapBuffer[..], w, samples);
      var i := 0;
      while i < outputChannels
        invariant i <= outputChannels && View() == w && swapBuffer != null
        invariant outBytes == Size(w.Frames(|samples|), outputChannels, bytewidth) <= swapBuffer.Length
        invariant swapBuffer == old(swapBuffer) || fresh(swapBuffer)
        invariant old(swapBuffer.Length) <= swapBuffer.Length
        invariant ChannelsDone(swapBuffer[..], w, samples, i)
      {
        ConvertChannel(i, samples, outBytes);
        i := i + 1;
      }
      handed := swapBuffer[..outBytes];
      DoneIsConverted(swapBuffer[..], w, samples, handed);
    }
  }

  lemma NoneDone(buf: seq<byte>, w: Wiring, samples: seq<byte>)
    requires w.Valid() && w.Whole(|samples|)
    ensures ChannelsDone(buf, w, samples, 0)
  {
  }

  lemma InputFits(format: Format)
    requires InputMatrix(format).Some? && format.channels > 0
    ensures |Fields(InputMatrix(format).value)| <= format.channels
  {
    SanitizedIsCanonical(format.channels, format.matrix.value, InputMatrix(format).value);
  }

  lemma ReconciledNames(order: Order, channels: nat, input: string, output: string)
    ensures var r := Reconciled(order, channels, Some(input), Some(output));
            r.Ok? ==> r.value.inter.Some?
  {
  }

  lemma NothingToReconcile(order: Order, channels: nat, input: Option<string>, output: Option<string>)
    requires input.None? || output.None?
    ensures Reconciled(order, channels, input, output) == Ok(Layout(channels, 0, None))
  {
  }

  lemma PermutationIsRouting(format: Format, driver: DriverOpen, perm: seq<int>)
    requires driver.Accepts? && InputMatrix(format).Some? && format.channels > 0
    requires |perm| == driver.channels
    requires forall j :: 0 <= j < |perm| ==>
               perm[j] == SlotChannel(Fields(SlotNames(driver.inter)), Fields(InputMatrix(format).value), format.channels, j)
    ensures perm == RoutingOf(Fields(SlotNames(driver.inter)), Fields(InputMatrix(format).value), driver.channels)
  {
    forall j | 0 <= j < |perm|
      ensures perm[j] == Routed(Fields(SlotNames(driver.inter)), Fields(InputMatrix(format).value), j)
    {
      MonoFallbackIsDead(format, Fields(SlotNames(driver.inter)), j);
    }
  }

  lemma DoneIsConverted(buf: seq<byte>, w: Wiring, samples: seq<byte>, out: seq<byte>)
    requires w.Valid() && w.Whole(|samples|)
    requires ChannelsDone(buf, w, samples, w.outputChannels)
    requires out <= buf && |out| == Size(w.Frames(|samples|), w.outputChannels, w.bytewidth)
    ensures out == w.Convert(samples)
  {
    hide Index, Wiring.OutByte, Wiring.Convert;
    forall f, j, b | 0 <= f < w.Frames(|samples|) && 0 <= j < w.outputChannels && 0 <= b < w.bytewidth
      ensures Index(f, j, b, w.outputChannels, w.bytewidth) < |out|
      ensures out[Index(f, j, b, w.outputChannels, w.bytewidth)] == w.OutByte(samples, f, j, b)
    {
      IndexInRange(f, j, b, w.Frames(|samples|), w.outputChannels, w.bytewidth);
    }
    ConvertIs(w, samples, out);
  }
}
