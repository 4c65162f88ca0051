# A verified model of libao's channel routing, ring buffers and file writers

libao plays PCM audio through interchangeable drivers. Its core (`src/audio_out.c`) keeps a table of
drivers, reads channel matrices such as `"L,R,LFE"`, reconciles the client's channels with those of
the driver under three ordering policies, and rewrites the client's interleaved samples into the
layout and byte order the driver wants. Drivers then move the bytes on: through a ring of blocks
shared with the Windows wave device, a byte ring shared with a CoreAudio render callback, fixed
4096-byte writes to EsounD, a padding scratch buffer for ALSA, or a WAV or AU file whose header is
patched when it is closed.

This project models those parts in Dafny and proves what they are for: a sample keeps its meaning from
the client's buffer to the driver; nothing is lost, repeated or reordered in the rings and
re-chunkers, under every interleaving with the device; and a file reads back as what was played.

## How it is arranged

The originals change state step by step, so they are methods over arrays and classes with loops. Each is
proved against a specification function or a state machine, and the theorems are about these.

| file | what it holds |
|---|---|
| `Basics.dfy`, `Bytes.dfy`, `Interleave.dfy`, `Files.dfy` | byte strings, sample values, index arithmetic of interleaved samples, header fields |
| `MatrixSyntax.dfy`, `Mnemonics.dfy`, `ChannelMatrix.dfy` | syntax of channel matrices, the table of names, the string-walking loops |
| `Rendering.dfy`, `ChannelMask.dfy`, `Routing.dfy` | rendering names in a buffer of fixed size; masks of output positions; which input each slot plays under each policy |
| `Conversion.dfy`, `Opening.dfy`, `Device.dfy` | the strided loops, the wiring that opening decides on, `ao_play` over a swap buffer |
| `Recording.dfy` | the whole way: open a device on a WAV or AU file with options, play, close, read the file back |
| `WmmRing.dfy`, `WmmDevice.dfy` | the ring of wave blocks as a state machine, and the driver that runs on it |
| `MacRing.dfy`, `MacDevice.dfy` | the byte ring as a state machine, and the producer and the callback that share it |
| `Esd.dfy`, `Alsa.dfy` | the two re-chunkers |
| `Wav.dfy`, `Au.dfy` | the file writers, and readers for what they write |
| `DriverTable.dfy`, `DriverRegistry.dfy` | the comparator and the lookups; the linked list that is sorted and relinked |

How things are represented:

* A byte is an integer from 0 to 255. A C string is the sequence of its characters before the
  terminator; a pointer into it is an index, and the terminator is at the index of its length.
* Widths are written out where they matter: masks are numbers below 2^32, header fields are reduced to
  16 or 32 bits, the product in `ao_play` is taken modulo 2^32.
* What a device does on its own is an input. The wave device's completions and answers, the sizes the
  render callback asks for, and the answers to socket and PCM writes are arbitrary finite
  schedules, and the theorems hold for all of them. A loop that waits for a device is followed for
  as long as its schedule lasts.
* Ghost fields record history: bytes submitted, bytes handed over, blocks still to come.
* The switch on the sample width stands inside the strided loops instead of around them.

Where code and documentation or standard differ, the model follows the code, and each difference is
stated with an input at which it shows and with the exact condition:

* `doc/ao_sample_format.html` gives `"L,CL,C,R,RC,BC"` as an example. The table of names has no `RC`, so
  sanitizing rejects that matrix as soon as it looks at the fifth name
  (`ChannelMatrix.AiffCIsRejected`; what is rejected in general is in `ChannelMatrix.SanitizeMatrix`).
* The WAV writer adds no padding byte after an odd number of payload bytes, though the section "Waveform
  Audio File Format (WAVE)" of the Microsoft/IBM Multimedia Programming Interface and Data
  Specifications 1.0 aligns chunks to words. A finished file conforms exactly if its payload is even
  (`Wav.WavConforms`, `Recording.RecordingConforms`), and a frame of 8-bit mono does not
  (`Wav.OneByteDoesNotConform`).
* A name can be repeated in an input matrix. Under the PERMUTABLE policy the mask then has fewer bits
  than the rendered layout has names. A repeated name can push another one out
  (`Routing.RepeatedNameLosesAChannel`, for `"L,L,R"`), and many repeated names do not fit the
  257-byte buffer in which they are rendered without a check (`Opening.LongInputOverruns`, for one
  "L" and 64 times "LFE"). `Opening.PermutableProposesOnce` says exactly when the device gets a layout
  in which every mapped input is played once; up to 64 input names always fit.
* The driver comparator compares the bytes of two ints in memory order.
  `DriverTable.BigEndianComparator` and `DriverTable.LittleEndianComparator` say exactly for which
  priorities that is their order; for 0 to 255 it is on either machine.
* The fallback to channel "M" for a single input channel never finds a channel, because the matrix "M"
  is dropped before (`Opening.MonoFallbackIsDead`).
* A device that fails to open is closed like any other. On a WAV file that writes two bogus lengths over
  nothing: the file is left empty only in the cases that `Recording.FailedWavIsEmpty` lists, and for an
  empty "matrix" option it is not (`Recording.EmptyOption`). An AU file stays empty
  (`Recording.FailedAuIsEmpty`). The model stops there; the original then closes the C file a second
  time, which is undefined.
* The channel mask in a WAV file counts positions of the output matrix, but a reader takes them for the
  speakers of the file format. With a "matrix" option the two can differ: `Recording.HeardInPlaceIff`
  says exactly when, and `Recording.ExchangedSpeakers` shows it for inputs "L,R" and option "R,L".

## Model

| member | source | states |
|---|---|---|
| Recording.Record | src/audio_out.c:1369-1477 | opening a device on a WAV or AU file with any "matrix" options, playing any whole-frame buffers and closing: the errors, and in every case, also after a failed open or play, the exact contents of the file; all is written exactly when the file has room for it (and, for WAV, can be positioned), and then the file is the header for the reconciled layout and the converted samples |
| Recording.OpenFile | src/audio_out.c:961-1257 | opening fails with the error of the options or of the reconciliation, or with that of the driver exactly if the header does not fit or an AU file is to have a width other than 8 or 16 bits; then the file is what the close makes of what was written; otherwise the device has the reduced wiring and a swap buffer exactly if that wiring needs one |
| Recording.OpenWriter | src/audio_out.c:1111-1116 | the driver writes its header, as far as there is room, and accepts the layout exactly if all of it fits and the width is one it has |
| Recording.FailedWavIsEmpty | src/audio_out.c:1247-1256 | a WAV file on which an open failed is empty if and only if, after a bad option or layout, it cannot be positioned or has no room at byte 4, or, after a header that did not fit, it has no room at all |
| Recording.FailedAuIsEmpty | src/audio_out.c:1247-1256 | an AU file is empty whenever the driver did not get to the header |
| Recording.EmptyOption | src/audio_out.c:1247-1256 | an empty "matrix" option is a bad option, and leaves 68 bytes of zeros and bogus lengths in a WAV file |
| Recording.RecordedIs | src/ao_wav.c:233-271 | the close of either driver turns all that was written into the finished file |
| Recording.RecordingOpens | src/audio_out.c:961-1109 | a layout is found exactly if every "matrix" option can be sanitized and, with a named input, some input name maps |
| Recording.PlayOne | src/audio_out.c:1411-1445 | a play appends what the wiring makes of the buffer, as far as there is room |
| Recording.PlayAll | src/audio_out.c:1411-1445 | successive plays append what the wiring makes of each buffer, fail exactly when the file is full, and then have filled it |
| Recording.WholeBuffersFit | src/audio_out.c:1418-1419 | what the statements on recordings ask of formats and buffers is met by 1 to 32 bits, a layout, and whole frames small enough for 32-bit products |
| Recording.HandedIsConverted | src/audio_out.c:1411-1445 | over any run of plays, all that is handed to the driver is the conversion of all that was played, however the client cuts it and whichever fast path is taken |
| Recording.WavMatrix | src/ao_wav.c:137-138 | the WAV driver's matrix lists its eleven names, all in the table of names |
| Recording.RecordingIsRead | src/ao_wav.c:150-271 | a reader of the finished file, with or without named inputs, finds the mask and the channels of the layout, the block size, widths, rates and lengths, each by its formula, and the payload |
| Recording.PayloadIsConverted | src/audio_out.c:1411-1445 | the payload of a WAV or AU file is the conversion of all that was played, in whole frames |
| Recording.PayloadKeepsSamples | src/audio_out.c:1122-1200 | for every frame and slot, with or without matrices and options, the file holds the integer the client wrote to the channel that the slot plays, or silence |
| Recording.FileCarries | src/audio_out.c:1122-1200 | the same with the positions in both buffers, the three byte orders a client can ask for, the little-endian order of WAV and the big-endian one of AU, the "L,R" default and the silent values written out |
| Recording.RecordingKeepsSamples | src/audio_out.c:1032-1200 | every input that is the first of a name the output matrix has, be that the driver's own or an option's, is in every frame of the file as the integer the client wrote: in a WAV file in the slot counted by the lower bits of the mask, in an AU file in the slot at its position |
| Recording.LayoutOfNames | src/audio_out.c:1032-1073 | the mask has exactly the bits of the outputs that are inputs; a WAV file has a channel for each, an AU file channels up to the last |
| Recording.LayoutLaw | src/audio_out.c:961-1100 | there is no layout exactly for an option that cannot be sanitized, with that error, and else for a named input of which no name is in the output matrix, with the other; without names the client's channels go straight through |
| Recording.PipedLengths | src/ao_wav.c:154-181 | a WAV file that could not be positioned keeps the lengths of the bogus size |
| Recording.HeardInPlaceIff | src/ao_wav.c:183 | a reader that goes by the channel mask plays every input of a known name at the speaker of that name if and only if the output matrix has, at each position in use, the name that the file format gives it |
| Recording.OwnMatrixIsHeardInPlace | src/ao_wav.c:137-138 | without a "matrix" option it always does |
| Recording.ExchangedSpeakers | src/audio_out.c:920-958 | for inputs "L,R" and option "R,L" the mask is that of front left and front right, but the channels are exchanged |
| Recording.RecordingConforms | src/ao_wav.c:150-271 | a recording conforms to the file format exactly if frames times channels times bytes of a sample is even and the RIFF length fits 32 bits |
| Recording.AuSlotsChangeNothing | src/ao_au.c:171-176 | the "L,R" that the AU driver sets for at most two channels leads to the same wiring as no slot names |
| Recording.AuPlaysLeftAndRight | src/ao_au.c:128-181 | an AU file from named inputs has the first "L" and the first "R" in its first two channels, and silence in the others |
| Recording.AuRecordingIsRead | src/ao_au.c:128-230 | a reader of the finished AU file finds the channels, the encoding of 8 or 16 bits, the rate and the payload |
| Recording.RightLeftPlaces | src/audio_out.c:1055-1073 | example: of an input "R,L" the first channel is found in slot 1 and the second in slot 0 |
| Recording.RightLeftFits | src/audio_out.c:1369-1408 | example: 16-bit "R,L" and any one-frame buffer meet all that the statements on recordings ask for |
| MatrixSyntax.TrimParts | src/audio_out.c:643-652 | trimming takes white space off both ends, all of it, and nothing else |
| MatrixSyntax.TrimUnique | src/audio_out.c:643-652 | whatever white space surrounds a trimmed name, trimming gives the name |
| MatrixSyntax.WhiteSpace | src/audio_out.c:643-652 | white space is the six characters of the C locale and no others |
| MatrixSyntax.TokensAreFieldNames | src/audio_out.c:722-777 | every token of every string is trimmed and free of commas |
| MatrixSyntax.FieldsOfJoin | src/audio_out.c:684-711 | splitting at commas undoes joining, for every nonempty list of comma-free names |
| MatrixSyntax.TokensOfJoin | src/audio_out.c:722-777 | tokenizing the comma-join of trimmed comma-free names gives the names back |
| MatrixSyntax.JoinOfFields | src/audio_out.c:722-777 | joining the fields of any string gives the string back |
| Mnemonics.NoNameFollowsItsExtension | src/audio_out.c:621-629 | no name of the table follows a longer one that it begins, and no name occurs twice |
| Mnemonics.TableOfNames | src/audio_out.c:621-629 | the table is the 45 names of the library, in its order |
| ChannelMatrix.NextField | src/audio_out.c:642-652 | skipping space, seeking the comma and cutting space off the end yields the trimming of the current field |
| ChannelMatrix.SanitizeMatrix | src/audio_out.c:632-682 | succeeds if and only if every token before the `maxchannels`-th is in the table; the result has as many fields as that bound and the tokens allow, field by field the tokens, in no more characters than the input |
| ChannelMatrix.SanitizingLaw | src/audio_out.c:632-682 | the same of the function that the method is tied to |
| ChannelMatrix.SanitizedIsCanonical | src/audio_out.c:632-682 | the result's fields are the names asked for, it is no longer than the input, and sanitizing it again changes nothing |
| ChannelMatrix.AiffCIsRejected | doc/ao_sample_format.html:84 | the documented matrix "L,CL,C,R,RC,BC" is rejected exactly if at least five channels are looked at |
| ChannelMatrix.CountFields | src/audio_out.c:726-743 | the first pass counts as many fields as the second pass copies |
| ChannelMatrix.TokenizeMatrix | src/audio_out.c:722-777 | gives the trimmed comma-separated fields, in order |
| ChannelMatrix.FindNamedField | src/audio_out.c:684-711 | the scan stops at the first field of the wanted name, though its inner loop compares the same two strings over and over |
| ChannelMatrix.FindChannel | src/audio_out.c:684-711 | gives the first channel of that name; -1 exactly if there is none or the name is "X" |
| ChannelMatrix.PrefixLookupIsExact | src/audio_out.c:1146-1153 | the lookup that compares only a prefix finds the entry itself for every name of the table |
| ChannelMask.BitIsDigit | src/audio_out.c:808-811 | bit `m` is the `m`-th binary digit of the mask |
| ChannelMask.SetBitBits | src/audio_out.c:808-811 | setting a bit sets that bit and no other |
| ChannelMask.SetBitAdds | src/audio_out.c:808-811 | setting a clear bit adds its weight; setting a set bit changes nothing |
| ChannelMask.PopCountIsOnes | src/audio_out.c:845-852 | the bits counted are the positions whose bit is set |
| ChannelMask.MaxBitIsHighest | src/audio_out.c:854-863 | the highest bit is set and no set bit is above it |
| ChannelMask.ChannelmaskBits | src/audio_out.c:845-852 | counts the bits of the mask |
| ChannelMask.ChannelmaskMaxbit | src/audio_out.c:854-863 | gives the position of the highest bit, -1 for the empty mask |
| ChannelMask.MaskOfBits | src/audio_out.c:779-821 | a bit of the mask is set exactly if some input name maps to that position |
| ChannelMask.MatrixToChannelmask | src/audio_out.c:779-821 | bit `m` of the mask is set if and only if output `m` is an input, no placeholder, and first of its name; the map has the first position of each input that is an output and no placeholder, and -1 for every other channel |
| ChannelMask.MaskBetweenNames | src/audio_out.c:779-821 | the same of the mask of any two lists of names |
| ChannelMask.ChannelmaskToMatrix | src/audio_out.c:823-843 | renders the output names, at most 32, at the set bits, in map order, with single commas, if and only if they fit 256 characters |
| ChannelMask.MaskNamesAreAtBits | src/audio_out.c:823-843 | the names rendered are those at the set bits, all of them, in increasing order |
| ChannelMask.MaskRenderingFits | src/audio_out.c:823-843 | over at most 32 known output names they always fit |
| ChannelMask.MatrixIntersect | src/audio_out.c:865-901 | renders the input names that map, in input order, with repetitions, and stays inside its buffer if and only if they fit 256 characters |
| ChannelMask.MappedFieldsAreShared | src/audio_out.c:865-901 | the names rendered are the inputs that are outputs and no placeholder, all of them, in their order, with repetitions |
| ChannelMask.IntersectionFits | src/audio_out.c:865-901 | with known output names, at most 64 input names always fit |
| Rendering.AppendName | src/audio_out.c:890-894 | appending a comma and a name keeps the rendering, and fails exactly if the rendering with that name does not fit |
| ChannelMask.MaskRoundTrip | src/audio_out.c:779-843 | converting the rendering of a mask back gives the mask; a nonzero mask renders to as many names as it has bits, all different |
| ChannelMask.IntersectCount | src/audio_out.c:865-901 | at least as many names are shared as the mask has bits, and as many exactly if none is repeated |
| Routing.FixedPlacement | src/audio_out.c:1034-1053 | FIXED: every mapped input plays at its place in the output matrix, and the channels end at the highest place used |
| Routing.CollapsiblePlacement | src/audio_out.c:1055-1073 | COLLAPSIBLE: every mapped input plays in the slot given by the rank of its bit; slots have different names |
| Routing.PermutablePlacement | src/audio_out.c:1075-1094 | PERMUTABLE, no mapped name repeated: the slots play exactly the mapped inputs, in increasing order |
| Routing.FixedPlaysOnce | src/audio_out.c:1034-1053 | FIXED: every first mapped input plays in exactly one slot, if and only if no such name is repeated among the outputs in use |
| Routing.CollapsiblePlaysOnce | src/audio_out.c:1055-1073 | COLLAPSIBLE: every first mapped input plays in exactly one slot, always |
| Routing.PermutablePlaysOnce | src/audio_out.c:1075-1094 | PERMUTABLE, of the routing: every first mapped input plays in exactly one slot, if and only if the first mapped names, as many as there are channels, differ |
| Routing.RepeatedNameLosesAChannel | src/audio_out.c:1075-1094 | for "L,L,R" on "L,R" both slots play the first "L", and "R" is lost |
| Opening.Reconcile | src/audio_out.c:1032-1100 | channel count, mask, slot names and errors are those of the policy, names that do not fit their buffer are told apart, and the input map has the first position of each input that is an output, -1 for the others |
| Opening.ReconcilingLaw | src/audio_out.c:1032-1100 | by the positions of the outputs that are inputs: none is a bad format; FIXED keeps the output matrix up to the last; COLLAPSIBLE has a slot for each, named as there; PERMUTABLE has as many channels and slots named as the shared inputs, if these fit 256 characters; an undefined policy fails; the mask has the bits of the positions |
| Opening.InputMatrixLaw | src/audio_out.c:1018-1027 | an input matrix is used if and only if there is one, the names that are looked at are all in the table, and it is not a single channel "M"; what is used are these names |
| Opening.FindSlotChannel | src/audio_out.c:1146-1161 | a slot plays the first input channel of its exact name, or else, with a single input channel, the one named "M" |
| Opening.BuildPermutation | src/audio_out.c:1131-1177 | the permutation vector has, for each slot of the final layout, that channel; -1 beyond the names |
| Opening.MonoFallbackIsDead | src/audio_out.c:1158-1161 | the fallback to "M" never changes a slot |
| Opening.LastOptionCounts | src/audio_out.c:920-958 | the "matrix" options succeed if and only if each can be sanitized, and then the last one counts; without options the driver's own matrix does |
| Opening.OutputMatrixIsUsable | src/audio_out.c:920-958 | after any "matrix" options the output matrix has at most 32 names, all known; the only error is that of an option |
| Opening.ProposedLayout | src/audio_out.c:1032-1100 | reconciliation gives no layout exactly when no input name maps, the policy is undefined, or the slot names do not fit their buffer; otherwise the proposed names are those of the policy, all known, with at least as many names as channels |
| Opening.SlotsUsuallyFit | src/audio_out.c:1032-1100 | the slot names fit, except perhaps under PERMUTABLE with more than 64 input names |
| Opening.PermutableProposesOnce | src/audio_out.c:1075-1094 | PERMUTABLE, of the device: it gets a layout in which every first mapped input plays in exactly one slot if and only if some input maps, the mapped names fit 256 characters, and the first of them, as many as there are channels, differ |
| Opening.LongInputOverruns | src/audio_out.c:865-901 | one "L" and n times "LFE" have two different first mapped names, but do not fit the buffer if and only if n is at least 64 |
| Opening.ProposedLayoutIsPlayed | src/audio_out.c:1122-1177 | a driver that takes the proposed layout as it is plays the routing that the policy promises |
| Opening.FastPathRefinesConversion | src/audio_out.c:1202-1242 | leaving out the swap buffer or an identity permutation gives, byte for byte, what the general conversion would |
| Opening.EndToEndRouting | src/audio_out.c:1122-1200 | in every frame, slot `j` has the integer the client wrote to the first input of its name, and silence (128 for 8 bits, else 0) exactly if the slot has no name, "X", or a name no input has |
| Opening.EndToEndIntegers | src/audio_out.c:428-437 | the same with nothing left to other definitions: the positions in both buffers, little-endian, big-endian and native order on both sides, straight channels without an input matrix, the first input of the slot's name with one, 128 or 0 otherwise |
| Bytes.SampleValueLaw | src/audio_out.c:488-604 | a sample of one byte is that byte, a wider one its number in two's complement |
| Interleave.IndexParts | src/audio_out.c:525-604 | different frames, channels and places have different bytes |
| Interleave.PartsIndex | src/audio_out.c:525-604 | every byte of a buffer of whole frames belongs to a frame, a channel and a place |
| Conversion.BufferZero | src/audio_out.c:488-523 | writes silence to one channel in every frame and touches no byte of another |
| Conversion.BufferPermute | src/audio_out.c:562-604 | copies one input channel to one output channel in every frame and touches no byte of another |
| Conversion.BufferPermuteSwap | src/audio_out.c:525-560 | the same, with the bytes of each sample reversed |
| Conversion.ConvertSample | src/audio_out.c:1411-1445 | every sample of the conversion is the sample it is wired to, reversed if need be, or silence |
| Conversion.ConvertPreservesValues | src/audio_out.c:1411-1445 | read in the driver's byte order it is the integer that the client wrote in its own |
| Conversion.StraightConversion | src/audio_out.c:1228-1242 | with equal channels, no permutation and no swap the conversion is the buffer itself |
| Conversion.IdentityPermutation | src/audio_out.c:1202-1211 | an identity permutation can be dropped |
| Conversion.ConvertAppend | src/audio_out.c:1411-1445 | converting two buffers one after the other is converting both together |
| Devices.Device.constructor | src/audio_out.c:441-466 | a new device has the client's byte order, which is little-endian, big-endian or that of the machine as the format says, and has no buffer, map or permutation |
| Devices.Device.SetMatrixOption | src/audio_out.c:923-938 | the "matrix" option replaces the output matrix by its sanitized form, or reports a bad option |
| Devices.Device.LoadOptions | src/audio_out.c:920-958 | of several "matrix" options the last one counts, and the first that cannot be sanitized is an error |
| Devices.Device.Prepare | src/audio_out.c:1011-1109 | up to the driver's open, the device has the reconciled layout, or reports why there is none, or that the names do not fit their buffer |
| Devices.Device.SetUpPermutation | src/audio_out.c:1122-1177 | the permutation routes by name, with "L,R" when the driver names no slots, and is absent without an input matrix |
| Devices.Device.DropIdentity | src/audio_out.c:1202-1211 | the permutation is dropped if and only if channel counts are equal and every channel is in its place |
| Devices.Device.Finish | src/audio_out.c:1111-1242 | after the driver's open the device has the reduced wiring by names and the driver's byte order, and a swap buffer of 1024 bytes if and only if bytes must be reversed, channel counts differ, or a permutation is left |
| Devices.Device.ReallocSwapBuffer | src/audio_out.c:471-485 | the buffer has at least the size asked for, never shrinks, and keeps what it holds |
| Devices.Device.ConvertChannel | src/audio_out.c:1424-1436 | the pass for one output channel completes that channel and leaves those before it |
| Devices.Device.Play | src/audio_out.c:1411-1445 | what the driver is given is the conversion of the client's buffer, or the buffer itself without a swap buffer; all reads and writes are inside their buffers |
| WmmRing.ReleasesTheFront | src/ao_wmm.c:515-545 | one call releases the blocks at the front of the run up to the first that is not done, in sending order, at most as many as the ring has |
| WmmRing.ReleaseTouchesTheFront | src/ao_wmm.c:515-545 | the headers of these blocks are cleared and no other header is touched |
| WmmRing.AllDoneDrains | src/ao_wmm.c:326-353 | once all sent blocks are done one call empties the ring |
| WmmRing.FreeBlock | src/ao_wmm.c:541-544 | the block to be filled is free exactly if not all blocks are sent, and then it is neither sent nor done and has room |
| WmmRing.FillUpOk | src/ao_wmm.c:478-512 | a block goes to the device exactly full, the checks for sent, done and empty blocks never strike, and the ring invariant holds after success and after failure |
| WmmRing.PlayStepProgress | src/ao_wmm.c:556-594 | a pass waits only if every block is sent, and otherwise copies at least one byte |
| WmmRing.PlayStepCopies | src/ao_wmm.c:556-594 | a pass that does not wait copies all that is left or all the block has room for, and a block filled up is handed over, or refused, as pending bytes and chunk together |
| WmmRing.HeldBlockIsNotWritten | src/ao_wmm.c:550-598 | no step writes to a block, or the header of a block, that the device still holds |
| WmmRing.PlayStepKeeps | src/ao_wmm.c:556-594 | a pass of the loop keeps the ring invariant and the conservation of bytes, whether it waits, fills a block in part, or sends it with either answer |
| WmmRing.StepKeeps | src/ao_wmm.c:478-598 | so does every play call, pass, completion and poll, in any order |
| WmmRing.WmmConservation | src/ao_wmm.c:478-598 | over every run the accepted blocks, all exactly full, then the partly filled (or refused) block, then the rest of the current call, are what was submitted; counters stay in range and the sent blocks are the cyclic run from the oldest, with the write index right after it, one further after a failed write |
| WmmDevice.PatchBlock | src/ao_wmm.c:287-292 | blocks in the big buffer do not overlap: writing inside one changes that one only |
| WmmDevice.Wmm.constructor | src/ao_wmm.c:267-323 | the blocks are laid out one after the other, free and empty |
| WmmDevice.Wmm.GetFreeBlock | src/ao_wmm.c:515-545 | the loop does what releasing specifies, and the branches that mend the counters are never taken |
| WmmDevice.Wmm.SendBlock | src/ao_wmm.c:478-512 | a block sent or done is refused and left; an empty one is pretended; any other is written: its header, the counter and the answer in each case, and no other header |
| WmmDevice.Wmm.PlayPass | src/ao_wmm.c:556-594 | one pass of the loop is one step of the state machine |
| WmmDevice.Wmm.Play | src/ao_wmm.c:550-598 | a play is a run of the state machine, for every schedule of completions and answers, and has returned once the device has completed all its blocks as often as there are bytes |
| WmmDevice.MarkedProgress | src/ao_wmm.c:550-598 | after the device has marked all blocks, the next pass copies at least one byte |
| WmmDevice.Wmm.WaitWaveHeaders | src/ao_wmm.c:326-353 | the loop ends exactly with no block sent, and one pass is enough once all blocks are marked |
| WmmDevice.AllMarkedDrains | src/ao_wmm.c:326-353 | marks in any order, followed by one release, empty the ring, also after a failed write |
| MacRing.ChunkExtends | src/plugins/macosx/ao_macosx.c:646-660 | a chunk lies in empty space and extends the wrapped contents at their end |
| MacRing.StepKeeps | src/plugins/macosx/ao_macosx.c:98-174 | every play call, chunk copy, callback and start of the close keeps order, offset and count |
| MacRing.Run | src/plugins/macosx/ao_macosx.c:98-174 | so does every run of these, in any order |
| MacRing.MacFifo | src/plugins/macosx/ao_macosx.c:98-174 | in every state reachable by plays, chunk copies, callbacks and the start of the close in any order, the bytes delivered, then the ring, then the rest of the current call, are what was submitted, with offset and count in range |
| MacRing.CallbackRenders | src/plugins/macosx/ao_macosx.c:121-170 | a silent callback consumes nothing; any other gives the oldest bytes and pads with zeros only while stopping and only after the last byte |
| MacRing.ProducerProgress | src/plugins/macosx/ao_macosx.c:619-664 | the producer waits exactly if the ring is full, and otherwise copies at least one byte |
| MacRing.FullRingProgress | src/plugins/macosx/ao_macosx.c:119-171 | with a full ring a callback makes room if and only if it asks for at least one byte and, unless stopping, for no more than the ring holds; it then takes exactly what it asks for |
| MacRing.StoppingDrains | src/plugins/macosx/ao_macosx.c:714-718 | while stopping, as many nonempty callbacks as there are bytes empty the ring, and then all that was submitted is delivered |
| MacDevice.Mac.AudioCallback | src/plugins/macosx/ao_macosx.c:98-174 | given a single buffer the callback renders and changes exactly what the state machine says, around the end of the ring too; given none or several it changes nothing |
| MacDevice.Mac.CopyChunk | src/plugins/macosx/ao_macosx.c:646-660 | a chunk goes into empty space in one piece and extends the contents at their end; it is all that is left, or fills the ring, or ends at the end of the buffer |
| MacDevice.Mac.Play | src/plugins/macosx/ao_macosx.c:611-667 | a play, with callbacks before each look at the ring, is a run of the state machine; it fails if and only if the unit was not started, cannot be, and some look finds the ring full; it has returned once a callback for one byte up to the size of the ring came as often as there are bytes |
| MacDevice.Mac.Look | src/plugins/macosx/ao_macosx.c:619-664 | one look copies a chunk, or nothing if and only if the ring is full |
| MacDevice.Mac.Drain | src/plugins/macosx/ao_macosx.c:714-718 | the wait of the close ends, and then delivered audio equals submitted audio |
| Esd.ChunkingIsDetermined | src/plugins/esd/ao_esd.c:207-276 | which blocks are written depends on the stream only, not on how the client or the socket cuts it |
| Esd.Device.Write4096 | src/plugins/esd/ao_esd.c:218-239 | writes the whole block through short and interrupted writes, and fails only when the socket is gone |
| Esd.Device.TopUp | src/plugins/esd/ao_esd.c:246-255 | moves bytes from the client to the buffer, up to a whole block |
| Esd.Device.WriteBlocks | src/plugins/esd/ao_esd.c:263-268 | writes whole blocks straight from the client's buffer until less than one is left |
| Esd.Device.Play | src/plugins/esd/ao_esd.c:241-276 | after a successful play the daemon has the stream up to the last multiple of 4096 bytes and the buffer has the rest; fails only when the socket is gone |
| Esd.Device.Close | src/plugins/esd/ao_esd.c:278-303 | the daemon gets what is in the buffer and silence up to a whole block, also after a failed play; after successful plays it has the stream and fewer than 4096 bytes of silence, a multiple of 4096 in all |
| Alsa.PaddedValue | src/plugins/alsa/ao_alsa.c:803-820 | padding multiplies each sample, signed or not, by 256 to the number of added bytes, on either byte order |
| Alsa.PaddedSplit | src/plugins/alsa/ao_alsa.c:792-826 | padding in chunks is padding all at once |
| Alsa.Pad | src/plugins/alsa/ao_alsa.c:803-820 | the loops over byte columns leave the padded samples in the scratch buffer |
| Alsa.Device.PlayInner | src/plugins/alsa/ao_alsa.c:739-773 | all whole frames are transferred in order through short and repeated transfers; fails only when the device is broken |
| Alsa.Device.PlayNextChunk | src/plugins/alsa/ao_alsa.c:792-826 | each chunk has at least one frame, fits the scratch buffer, and continues the padded stream |
| Alsa.Device.Play | src/plugins/alsa/ao_alsa.c:776-830 | without padding the device gets a prefix of the buffer, whole frames, short of it by less than a frame; with padding exactly the samples of all whole frames, each times 256 to the number of added bytes, in order; a failed play has delivered a prefix |
| Alsa.Device.OutputLaw | src/plugins/alsa/ao_alsa.c:776-830 | the same of the output that the method is tied to |
| Files.LittleBytesValue | src/ao_wav.c:47-53 | reading a little-endian field gives the number, up to the width of the field |
| Files.BigBytesValue | src/ao_au.c:55-59 | the same for big-endian fields |
| Wav.HeaderLayout | src/ao_wav.c:150-206 | the identifiers, format code, sub-format and fixed sizes of the header, byte by byte |
| Wav.HeaderFieldsAt | src/ao_wav.c:150-206 | the offset, width and byte order of every other field |
| Wav.ParseEncoded | src/ao_wav.c:150-206 | a reader finds every field where the header has it |
| Wav.PatchedLengths | src/ao_wav.c:233-271 | patching the two lengths gives the file with these lengths in the header and changes no other byte |
| Wav.WavRoundTrip | src/ao_wav.c:150-271 | a reader recovers the format, the RIFF length (size less 8), the data length (size less 68) and the buffers played, if and only if the RIFF length fits 32 bits |
| Wav.WavConforms | src/ao_wav.c:150-271 | a finished file consists of padded chunks, as the file format asks, if and only if the payload has an even number of bytes and the RIFF length fits 32 bits |
| Wav.OneByteDoesNotConform | src/ao_wav.c:222-271 | one frame of 8-bit mono gives a file that can be read but does not conform |
| Wav.Writer.Open | src/ao_wav.c:150-216 | writes the 68-byte extensible header for the format, as far as there is room, and fails exactly if there is not enough |
| Wav.Writer.Play | src/ao_wav.c:222-231 | appends the buffer, as far as there is room, and fails exactly if there is not enough |
| Wav.Writer.Close | src/ao_wav.c:233-271 | writes the two lengths at their places in whatever there is, even nothing, as far as there is room; succeeds exactly if the file can be positioned and has room for a header |
| Wav.ClosedWhole | src/ao_wav.c:233-271 | where there is a whole header the close sets the two lengths in it |
| Wav.ClosedBytes | src/ao_wav.c:233-271 | every byte of a closed file: the two lengths where they go as far as there is room, what was there, zeros in between |
| Wav.ClosedEmpty | src/ao_wav.c:233-271 | an empty file stays empty if and only if it cannot be positioned or has no room at byte 4 |
| Wav.ClosedEmptyFile | src/ao_wav.c:233-271 | otherwise, given room, zeros and the lengths -8 and -68 are in it, and no reader takes it |
| Au.HeaderLayout | src/ao_au.c:128-163 | the magic number, header size and empty text byte by byte, and the offset of every other field |
| Au.PatchedSize | src/ao_au.c:197-230 | patching the size changes no other byte |
| Au.AuRoundTrip | src/ao_au.c:128-230 | a reader recovers format and payload, and the data size (size less 28), or the unknown size from a pipe, if and only if the size fits 32 bits, is not known, or wraps to the unknown size |
| Au.Writer.Open | src/ao_au.c:128-181 | writes the 28-byte header, as far as there is room, and sets "L,R" for at most two channels without slot names; fails exactly for widths other than 8 and 16 bits, writing nothing, or if the header does not fit |
| Au.Writer.Close | src/ao_au.c:197-230 | always succeeds; writes the size at its place exactly if the file can be positioned and is not empty |
| Au.ClosedWhole | src/ao_au.c:197-230 | where there is a whole header the close sets the size in it |
| Au.ClosedBytes | src/ao_au.c:197-230 | every byte of a closed file that is not empty: the size where it goes as far as there is room, what was there, zeros in between |
| DriverTable.MemCmpIsBigOrder | src/audio_out.c:327-333 | comparing strings of bytes of one length is comparing the big-endian numbers they hold |
| DriverTable.ComparatorAgrees | src/audio_out.c:327-333 | for priorities from 0 to 255 the comparator orders by falling priority on either byte order |
| DriverTable.BigEndianComparator | src/audio_out.c:327-333 | on a big-endian machine it is right about any two ints exactly if they have the same sign |
| DriverTable.LowestDecides | src/audio_out.c:327-333 | `memcmp` is decided by the first byte that differs |
| DriverTable.HighestDecides | src/audio_out.c:327-333 | the order of little-endian numbers is decided by the last byte that differs |
| DriverTable.LittleEndianComparator | src/audio_out.c:327-333 | on a little-endian machine the comparator is right about two different ints if and only if the lowest and the highest byte in which they differ, the top one signed, order them the same way |
| DriverTable.EqualPriorities | src/audio_out.c:327-333 | equal priorities compare equal on either machine |
| DriverTable.LittleEndianComparatorBeyondAByte | src/audio_out.c:327-333 | for instance it puts priority 1 before 256 there |
| DriverTable.SortedIsDescending | src/audio_out.c:337-382 | the sorted list has falling priorities |
| DriverTable.IdOfOwnName | src/audio_out.c:1482-1497 | every driver's own name leads to its own number exactly if no two drivers share a name |
| DriverTable.ConfiguredDefault | src/audio_out.c:219 | a configured name that some driver has makes the first driver of that name the default; one that no driver has is as good as none |
| DriverTable.DefaultIsBest | src/audio_out.c:210-242 | without a valid configured name the default is a usable live driver of the highest positive priority, and -1 exactly if there is none |
| DriverRegistry.Registry.Relink | src/audio_out.c:363-366 | the list visits the nodes of the array in its order, each once, and ends |
| DriverRegistry.Registry.MakeInfoTable | src/audio_out.c:337-382 | the list keeps its nodes, is sorted and acyclic, for priorities from 0 to 255 by falling priority, and the table agrees with it |
| DriverRegistry.Registry.GetDriver | src/audio_out.c:387-402 | gives the node at that place in the list, and none outside the range |
| DriverRegistry.Registry.DriverId | src/audio_out.c:1482-1497 | gives the place of the first driver of that name, or -1 |
| DriverRegistry.Registry.FindDefaultDriverId | src/audio_out.c:210-242 | gives the first driver of the configured name if there is one, or else the first usable candidate |
| DriverRegistry.Registry.DriverInfo | src/audio_out.c:1508-1526 | agrees with the info table at every number |

## Left out

- Driver discovery: loading plugins, scanning directories, configuration files, and options other than "matrix". The driver list starts as any nonempty acyclic list whose drivers' self-tests have fixed answers.
- Allocation failures, and the messages, verbosity levels and timing of all drivers.
- `qsort`, `memcmp`, `memcpy`, `memset` and the string functions as library code: `DriverRegistry.Sort` is an insertion sort, of which only "sorted permutation" is used, and the others are specified by what they compute.
- What the original does when slot names overrun the 257-byte buffer in which they are rendered: this is undefined, and the model ends the opening with an outcome of its own, `Overrun`.
- Hardware negotiation in all drivers, and failure to start the CoreAudio unit at close.
- Formats without channels or with samples wider than 32 bits, and drivers that ask for more channels than the client has when there is no input matrix to say what these should play.
- Plays of buffers that do not hold whole frames, and plays after a failed play.
- The loop that looks for unmapped input channels, whose only effect is a warning (`src/audio_out.c:1178-1196`).
- Slot names that are neither empty nor in the table of names: a driver that reports one makes the original look up a missing entry. PulseAudio's own 44-name matrix is one that exceeds a 32-bit mask and is left out for that reason.
- The choice of the ALSA padding width (`src/plugins/alsa/ao_alsa.c:673-676`): the width in bytes is a parameter.
- Fairness of devices: a device that never completes a block, or a callback that never comes, makes the originals wait for ever. The model proves that every wait makes progress once the device does, not that it does.
- The mutex of the macOS driver: what happens while it is held is one step.
- Write errors of files other than running out of room, and the second `fclose` after a failed open.
- Recording.OpenFile: starts from one of the two file drivers and an open file; the errors for an unknown driver number, a live driver, and a file that exists or cannot be opened are left out.
- WmmDevice.Wmm.constructor: does not model a header that the device refuses to prepare.
- WmmDevice.Wmm.PlayPass: buffers below 2^31 bytes, because the original compares an int.
- Alsa.Device.Play: buffers below 2^32 bytes of fewer than 2^31 frames when padding, because these counts are 32-bit and int; without padding below 2^31 bytes, because the original multiplies the frames of a transfer and their size as ints (`src/plugins/alsa/ao_alsa.c:769`).
- Alsa.Device.PlayInner: below 2^31 bytes, for the same product.
- Esd.Device.Play: buffers below 2^32 bytes, and when something is buffered less than 2^31 bytes with it, because the original adds the two as an int.
- WmmDevice.Wmm.Play: buffers below 2^31 bytes; the loop is followed for as many passes as the schedule has ticks, because the device may never free a block.
- MacDevice.Mac.Play: the loop is followed for as many looks at the ring as the schedule has entries; what happens while the unit is being started is left out.
- ChannelMask.MatrixToChannelmask: at most 32 output names, because the original shifts a 32-bit one by the position.
- The other drivers (null, raw, OSS, NAS, aRts, sndio, Sun, IRIX, AIX, Roar, PulseAudio): thin wrappers, or loops like those modelled.
