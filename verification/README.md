# minihf verification model

A Dafny model of the firmware and host library of a small HF digital-mode transmitter, with proofs of what its
encoders, its serial protocol, its transmit engine and its clock arithmetic guarantee. Each module models one part
of the system:

| module | what it models |
|---|---|
| `Machine`, `Bits` | C integer widths, character tests, division facts; bits of numbers and of byte buffers |
| `WsprCoding`, `Wspr` | the WSPR encoder: callsign padding, mixed-radix packing, the K=32 rate-1/2 convolutional code, the bit-reversal interleaver, the sync merge, and a receiver written for the proofs |
| `FtxBits`, `FtxText`, `FtxFields`, `FtxPayload` | the FT8-family 77-bit payload: bit packing in place, the base-42 bignum, callsign, hash, grid, report and section fields, the message layouts, and a receiver |
| `Cobs`, `Packet`, `Uart`, `HostReader`, `HostLink` | the serial protocol: byte stuffing, packets on both ends, frame reassembly in the receive interrupt and in the host's reader thread, and the concurrent request/reply link between host callers and device |
| `TxEngine` | the transmit engine: timer interrupt, work item, start and stop, interleaved step by step |
| `Rtty`, `Cw` | the two text generators, and receivers for both |
| `Si5351a` | divider fractions, the register encoding and the driver's four functions that use them |
| `PayloadUtils` | the payload writer and cursor |

Code that works by changing things step by step is a method over arrays or a class, proved against a specification
function; the laws are lemmas about those functions. The receivers (`Wspr.Decode`, `FtxPayload.Receive`,
`Cw.Decoded`, `Rtty.Printed` and so on) are not in the repository: they are the independent readers that the
round-trip statements are about.

Three things are worth knowing when reading the statements.

* Several laws hold only for some inputs. Those are stated as equivalences: the law holds **if and only if** a
  condition on the input holds. `Wspr.HeardExact`, `Wspr.SymbolsExact`, `FtxPayload.PayloadExact`,
  `FtxText.FreeTextReceived`, `Uart.DelimiterSafe`, `HostLink.ClashExact`, `TxEngine.OrderMatters`,
  `Rtty.OverTheAir`, `Cw.RoundTrip`, `Si5351a.AccurateExactly` and `PayloadUtils.RoundTrip` are of this kind.
* What the tables and constants of the source are is stated apart from the functions that use them, in another
  form: the taps of the convolutional code as delays (`WsprCoding.ConvolveDelays`), character sets as arithmetic
  (`FtxText.TextCharValue`, `FtxText.CallCharValue`), field numbers (`FtxFields.C28Numbers`, `FtxFields.G15Numbers`),
  packets byte by byte (`Packet.BuiltSpelled`), the receivers' own alphabets (`Rtty.GlyphIs`, `Cw.LetterIs`), and some
  worked examples (`Wspr.Example`, `FtxText.CallExample`, `FtxText.HashExample`, `FtxFields.CallsignExample`).
* `HostLink` and `TxEngine` quantify over every run of a step machine: any interleaving of callers, reader thread,
  link and worker, and a timer expiry between any two steps.

Where the code and what is written about it differ, the model follows the code:

* `validate_callsign` accepts callsigns that the packing cannot represent; AAAAAA and AB0AAA, both accepted, are
  sent as the same symbols (`Wspr.ValidCallsignsCollide`), and so are a callsign such as K1ABC and the same with a
  stroke in front (`Wspr.StrokeCollides`). A callsign of six characters that is aligned with a blank loses its last
  one, so K1ABCD and K1ABCE, both accepted, are both sent as K1ABC (`Wspr.CutCallSent`). Exactly which messages share
  their symbols is `Wspr.SymbolsExact`, and exactly which are heard as asked for is `Wspr.HeardExact`.
* Free text and telemetry are right-aligned in 72 bits, but the payload copies the top 71 of them, so the field
  holds half the value (`FtxText.FieldIsHalf`). Free text survives the payload exactly when it is blank and
  telemetry exactly when it is all zero (`FtxPayload.PayloadExact`); what a receiver sees of the others is
  `FtxPayload.FreeTextSeen` and `FtxPayload.TelemetrySeen`.
* The receive interrupt takes up to 302 bytes out of its ring and decodes them into a buffer of 300 before it looks
  at the length. The buffer holds whatever the decoder writes exactly when it gets at most 301 non-zero bytes
  (`Uart.DelimiterSafe`); frames as the protocol builds them are shorter.
* Of the transmitter count of a Field Day message the payload carries whether it is over 16 and nothing else
  (`FtxPayload.TransmittersSeen`); the four-bit number beside it is a field of its own.
* A long run of spaces in a CW text makes a gap that 32 bits do not hold: at one word a minute 597 spaces between two
  letters are lost (`Cw.LongGapLost`).
* The transmit engine enables the power supply once per keyed symbol and disables it once at the end. On a supply
  that counts enables that switches off only a single symbol (`TxEngine.CountingSupplyOff`).
* A CW word gap of one space is nine dots long, not the seven of ITU-R M.1677-1 section 2.4: six for the space and
  two more before the next character (`Cw.IdealMore`). The code is decodable from the real gaps (`Cw.RoundTrip`).
* An FT8 grid is accepted by `encode_g15` with letters up to Z, but only A to R are read back
  (`FtxFields.G15Exact`).
* A packet id is reused after 65536 calls whether or not an old reply is still around (`HostLink.IdReused`). Up to
  then, and as long as every earlier call with the next id was answered, no id clashes (`HostLink.FewCallsNoClash`,
  `HostLink.AnsweredIdsFree`).
* The state field of a RTTY Roundup message has room for two letters, so the table entries NWT and PEI cannot be
  asked for (`FtxFields.StorableS13`).
* A clock request below one hertz can be accepted with a quotient cut to 32 bits; a PLL frequency at which it happens
  with the board's crystal is in `Si5351a.BelowOneHertz`.

Check the project with `dafny verify dfyconfig.toml`.

## Model

| member | source | states |
|---|---|---|
| Wspr.Invertible | src/modes/encoders/wspr.c:200-221 | for every valid message, a receiver that strips the sync, de-interleaves, sequentially decodes and divides out the fields recovers the padded callsign, the upper-case grid and the power, if and only if the padded callsign has the standard shape |
| Wspr.HeardExact | src/modes/encoders/wspr.c:200-221 | what a receiver hears, blanks around the callsign dropped, is the upper-case callsign that was asked for with its grid and power, if and only if the padded callsign has the standard shape and padding cut nothing off |
| Wspr.DecodedExact | src/modes/encoders/wspr.c:123-135 | a number that decodes to a callsign decodes to one of the standard shape and is what that callsign is packed into |
| Wspr.NumbersDiffer | src/modes/encoders/wspr.c:104-135 | no other standard-shape text that reads as the same callsign is packed into the same 28 bits |
| Wspr.DecodeSymbols | src/modes/encoders/wspr.c:200-221 | what that receiver makes of any valid message, standard shape or not |
| Wspr.EncodePaddedExact | src/modes/encoders/wspr.c:123-135 | a callsign of the standard shape packs below 2^28 and mixed-radix division gives it back |
| Wspr.GridPowerExact | src/modes/encoders/wspr.c:137-151 | grid and power pack into 22 bits and division gives both back |
| Wspr.DecodePacked | src/modes/encoders/wspr.c:153-163 | the two packed fields come back from the channel symbols, the first modulo 2^28 |
| Wspr.PaddingReversible | src/modes/encoders/wspr.c:104-121 | padding loses nothing exactly when the aligned callsign fits in six characters |
| Wspr.ValidCallsignsCollide | src/modes/encoders/wspr.c:75-87 | callsign validation is weaker than the standard shape: two accepted callsigns give the same symbols |
| Wspr.SameWeightCollides | src/modes/encoders/wspr.c:127-129 | callsigns that agree after the third character collide whenever the first three have the same combined weight |
| Wspr.PadCallsign | src/modes/encoders/wspr.c:104-121 | the loop fills the buffer with the aligned upper-case callsign and blanks, and terminates it |
| Wspr.PackMessage | src/modes/encoders/wspr.c:153-163 | the eleven bytes, read as bits, are the low 28 bits of the callsign number, the 22 bits of the locator field and 38 zeros |
| Wspr.PackedLayout | src/modes/encoders/wspr.c:153-163 | the seven shifted and masked bytes are that bit string, for every pair of numbers |
| Wspr.LayoutInjective | src/modes/encoders/wspr.c:153-163 | two bit strings are equal exactly when the callsign numbers agree modulo 2^28 and the locator fields agree |
| Wspr.PackedDistance | src/modes/encoders/wspr.c:153-198 | packed messages with different stored fields are sent as symbols that differ in at least four positions |
| Wspr.SymbolsExact | src/modes/encoders/wspr.c:200-221 | two valid messages have the same symbols exactly when their callsign numbers agree modulo 2^28, their upper-case grids agree and their powers agree; otherwise the symbols differ in at least four positions |
| Wspr.StandardCallsDistinct | src/modes/encoders/wspr.c:200-221 | valid messages whose padded callsigns have the standard shape share their symbols exactly when the six padded characters, the grid and the power agree, and when padding cuts neither callsign, exactly when the callsigns themselves do, up to letter case |
| Wspr.CutCallsCollide | src/modes/encoders/wspr.c:104-121 | valid callsigns that padding cuts are padded alike exactly when their first five letters and digits agree |
| Wspr.CutCallSent | src/modes/encoders/wspr.c:75-121 | K1ABCD and K1ABCE are valid, have a padded form of the standard shape, and are sent as the same symbols |
| Wspr.StrokeCollides | src/modes/encoders/wspr.c:75-87 | every valid callsign of up to five characters that padding aligns with a blank shares its number with the one that has a stroke in front |
| Wspr.ValidExact | src/modes/encoders/wspr.c:75-98 | which callsigns, grids and powers the entry point accepts, by character codes and by arithmetic |
| Wspr.GridPowerIs | src/modes/encoders/wspr.c:137-151 | the locator and power field in numbers, -1 when a locator letter is not in A to R |
| Wspr.Example | src/modes/encoders/wspr.c:123-151 | the numbers of K1ABC FN42 37 |
| Wspr.Encode | src/modes/encoders/wspr.c:200-221 | -1 and no change for a bad grid, otherwise 0 and the message's channel symbols |
| Wspr.Generate | src/modes/encoders/wspr.c:223-265 | succeeds exactly for valid messages; then symbol i is keyed on for its duration at the tone offset of channel symbol i, all 162 are there, and the sequence starts at its first symbol |
| WsprCoding.MinimumDistance | src/modes/encoders/wspr.c:153-198 | different 88-bit streams that agree behind bit 50 are sent as symbols that differ in at least four positions (`Wspr.SymbolsExact` applies this to messages) |
| WsprCoding.ParityIsXorOfAllBits | src/modes/encoders/wspr.c:59-66 | the five folding shifts compute the XOR of all 32 bits |
| WsprCoding.ConvolveLinear | src/modes/encoders/wspr.c:165-179 | the code is linear over XOR for streams of any length |
| WsprCoding.ConvolveDelays | src/modes/encoders/wspr.c:165-179 | coded bit 2 i is the XOR of the input bits 0, 4, 6, 8, 9, 12, 14, 20, 22, 23, 25, 28, 29, 30 and 31 places before i, coded bit 2 i + 1 of those 0, 1, 2, 6, 10, 11, 12, 13, 16, 21, 22, 26, 29, 30 and 31 places before |
| WsprCoding.ChannelSpelled | src/modes/encoders/wspr.c:165-198 | every one of the 162 symbols: which coded bit it carries, from which input bits that comes, and its synchronisation bit |
| WsprCoding.SyncIs | src/modes/encoders/wspr.c:11-21 | where the ones of the synchronisation vector are |
| WsprCoding.DeconvolveConvolve | src/modes/encoders/wspr.c:165-179 | the code is causally invertible: each input bit follows from its output pair and the bits before it |
| WsprCoding.FirstDifferenceShows | src/modes/encoders/wspr.c:173-176 | at the first differing input bit both output bits differ, because both generators tap the newest bit |
| WsprCoding.LastDifferenceShows | src/modes/encoders/wspr.c:173-176 | the last differing input bit changes both outputs 31 steps later, because both generators tap the oldest bit |
| WsprCoding.DifferenceTransmitted | src/modes/encoders/wspr.c:181-198 | every coded difference shows up at its own place in the channel symbols |
| WsprCoding.BitReverse8Reverses | src/modes/encoders/wspr.c:68-73 | the three mask-and-shift swaps reverse the eight bits |
| WsprCoding.ReverseInvolution | src/modes/encoders/wspr.c:68-73 | reversing twice gives the counter value back |
| WsprCoding.ReverseIs | src/modes/encoders/wspr.c:68-73 | the reversed counter value in numbers |
| WsprCoding.SlotsArePermutation | src/modes/encoders/wspr.c:181-191 | the interleaver's counter loop writes each of the 162 slots exactly once |
| WsprCoding.SlotsByReversal | src/modes/encoders/wspr.c:181-191 | the slots are written in the order of their bit-reversed numbers |
| WsprCoding.DeinterleaveInterleaved | src/modes/encoders/wspr.c:181-191 | the interleaver is undone by reading the slots in writing order |
| WsprCoding.DecodeChannelSymbols | src/modes/encoders/wspr.c:165-198 | sync, interleaver and code together are undone on the 81 coded bits, and symbols are below four |
| WsprCoding.ConvolveInto | src/modes/encoders/wspr.c:165-179 | the register loop fills the array with the coded stream |
| WsprCoding.InterleaveInto | src/modes/encoders/wspr.c:181-191 | the running source counter places every coded symbol in its slot |
| WsprCoding.MergeSync | src/modes/encoders/wspr.c:193-198 | each symbol is twice the data bit plus the sync bit |
| FtxBits.PackBits | src/modes/ftx.c:9-20 | overwrites exactly the given stretch of bits with the value's low bits and leaves all other bits unchanged |
| FtxBits.UnpackBits | src/modes/ftx.c:22-33 | returns the number spelled by the stretch of bits |
| FtxBits.PackBytes | src/modes/ftx.c:35-48 | overwrites exactly the given stretch with the source's leading bits and leaves all other bits unchanged |
| FtxText.EncodeF71 | src/modes/ftx.c:240-271 | the nine bytes are the exact big-endian base-42 value of the right-justified text, below 2^71 |
| FtxText.MultiplyAdd | src/modes/ftx.c:262-267 | the carry loop multiplies the bignum by 42 and adds, with no carry out of byte 0 |
| FtxText.CarryStep | src/modes/ftx.c:263-267 | each carry stays at most 41 |
| FtxText.TextBuffersInjective | src/modes/ftx.c:240-271 | two texts get the same nine bytes exactly when they agree after justification, upper-casing and blanking |
| FtxText.TextRecovered | src/modes/ftx.c:259-260 | a text is recovered from its number exactly when all its characters are in the set |
| FtxText.TextValueOfTextOf | src/modes/ftx.c:258-268 | every number below base^n is the value of its own spelling, so the spelling is a bijection |
| FtxText.FieldIsHalf | src/modes/ftx.c:480 | the payload field is the top 71 bits of the buffer, half the right-aligned value |
| FtxText.FreeTextReceived | src/modes/ftx.c:477-484 | free text survives the payload exactly when it is blank |
| FtxText.C58Recovered | src/modes/ftx.c:273-296 | the 58-bit field gives the padded callsign back exactly when its characters are in the set |
| FtxText.CallCharValue | src/modes/ftx.c:274 | the values of characters in a full callsign: digits from 1, capitals from 11, the stroke 37, everything else 0 |
| FtxText.TextCharValue | src/modes/ftx.c:241 | the values of characters in free text: the same and five signs from 37 |
| FtxText.HexCharValue | src/modes/ftx.c:443-449 | the values of hexadecimal digits |
| FtxText.CallExample | src/modes/ftx.c:273-296 | PJ4/K1ABC is numbered 166563865821947300 |
| FtxText.ComputeC58 | src/modes/ftx.c:273-296 | the loop computes the base-38 value, below 2^58 |
| FtxText.HashesNest | src/modes/ftx.c:371-397 | the 10- and 12-bit hashes are the leading bits of the 22-bit hash |
| FtxText.HashIs | src/modes/ftx.c:371-397 | the hash in numbers: times 47055833459, 64 bits of that, the top 10, 12 or 22 of them, and 0 for other widths |
| FtxText.HashExample | src/modes/ftx.c:371-397 | the three hashes of PJ4/K1ABC |
| FtxText.ComputeHash | src/modes/ftx.c:371-397 | the loop computes the top bits of the wrapped 64-bit product, and 0 for other widths |
| FtxText.EncodeT71 | src/modes/ftx.c:433-472 | the nibble loop right-aligns the value of the hexadecimal digits, with the top bit clear |
| FtxText.HexDigitsAre | src/modes/ftx.c:433-452 | the first 18 digits in capitals, the first one cut to 7 when there are 18 |
| FtxFields.C28Exact | src/modes/ftx.c:62-163 | a token is read back from its number exactly when it is canonical, and then it is below 2^28 |
| FtxFields.C28FieldExact | src/modes/ftx.c:62-163 | the same for the 28 bits that the payload stores |
| FtxFields.LastToken | src/modes/ftx.c:147-155 | the last standard callsign is numbered 2^28 - 1: the ranges fill the field |
| FtxFields.ModifierExact | src/modes/ftx.c:89-100 | a CQ modifier is read back from its base-27 value exactly when it is letters only |
| FtxFields.AlignUnaligned | src/modes/ftx.c:117-132 | aligning a callsign on its digit undoes writing it without padding |
| FtxFields.AlignedIs | src/modes/ftx.c:110-132 | the last digit among the first three characters becomes the third of six, everything else moves with it or is blank |
| FtxFields.C28Numbers | src/modes/ftx.c:62-105 | DE, QRZ and CQ are 0, 1 and 2, numbered CQs follow from 3, hashes from 2063592 |
| FtxFields.ModifierExamples | src/modes/ftx.c:89-100 | CQ DX is 1135 and CQ POTA 327407 |
| FtxFields.CallsignNumberIs | src/modes/ftx.c:134-156 | a standard callsign's number in mixed radix from 6257896, by character codes |
| FtxFields.CallsignExample | src/modes/ftx.c:107-156 | K1ABC is 10214965 |
| FtxFields.ComputeC28 | src/modes/ftx.c:62-163 | the branches and loops compute the token number |
| FtxFields.G15Exact | src/modes/ftx.c:165-218 | grid, report or acknowledgement is read back exactly with letters A to R and reports from -30 up |
| FtxFields.G15Numbers | src/modes/ftx.c:165-218 | the numbers of the 15-bit field: grids, the four acknowledgements from 32401, reports from 32435 |
| FtxFields.G25Exact | src/modes/ftx.c:220-238 | a six-character grid fits 25 bits and is read back exactly when it is valid |
| FtxFields.G25Number | src/modes/ftx.c:220-238 | the number of a six-character grid in mixed radix, 0 for anything else |
| FtxFields.SectionExact | src/modes/ftx.c:298-329 | a section is read back exactly when it is in the table |
| FtxFields.Sections0 | src/modes/ftx.c:299-319 | the first five sections by name; Sections1 to Sections16 name the other 79 |
| FtxFields.SearchTable | src/modes/ftx.c:322-328 | the scan returns the first place of the text, or the table's length |
| FtxFields.S13Exact | src/modes/ftx.c:331-369 | a serial number or state is read back exactly when it is in range or in the table |
| FtxFields.TableNumbers | src/modes/ftx.c:298-369 | unknown sections and states, serial numbers over 7999 and unknown classes are numbered 0, states from 8001 |
| FtxFields.States0 | src/modes/ftx.c:339-357 | the first five states by name; States1 to States12 name the other 60 |
| FtxFields.ReportsExact | src/modes/ftx.c:409-421 | three-bit reports survive exactly from 2 to 9, five-bit ones exactly when even and from -30 to 32; odd ones lose one, and what is out of range is clamped or 0 |
| FtxPayload.PayloadExact | src/modes/ftx.c:474-601 | reading the 77 bits back gives the kind and every field, up to letter case and padding and with the transmitter count of Field Day reduced to its over-16 flag, exactly for the messages whose fields are canonical: free text only when blank, telemetry only when zero |
| FtxPayload.PayloadTiled | src/modes/ftx.c:474-601 | the fields of every message tile bits 0 to 76 and bits 77 to 79 are zero |
| FtxPayload.PayloadInjective | src/modes/ftx.c:474-601 | canonical messages have the same payload exactly when they are the same message up to letter case, padding and, for Field Day, transmitter counts on the same side of 16 |
| FtxPayload.TransmittersSeen | src/modes/ftx.c:499-516 | changing the transmitter count of a Field Day message changes the payload exactly when it crosses 16 |
| FtxPayload.ViewSame | src/modes/ftx.c:474-601 | letter case, padding and the exact transmitter count do not change the payload |
| FtxPayload.FreeTextSeen | src/modes/ftx.c:477-484 | what a receiver makes of any free text: the spelling of half its value |
| FtxPayload.TelemetrySeen | src/modes/ftx.c:517-522 | what a receiver makes of any telemetry: the bytes of half its value |
| FtxPayload.FreeTextsCollide | src/modes/ftx.c:477-484 | two free texts share a payload exactly when half their values are equal |
| FtxPayload.EncodePayload | src/modes/ftx.c:474-601 | the packing calls fill the ten bytes with exactly the message's bits |
| FtxPayload.ReadBack | src/modes/ftx.c:9-33 | a field read at its offset gives its value, cut to its width |
| FtxPayload.Advance | src/modes/ftx.c:9-20 | packing the next field keeps the ones already there |
| FtxPayload.EncodeDxpedition | src/modes/ftx.c:485-498 | the packing calls of this kind produce exactly its fields, then zeros |
| FtxPayload.DxpeditionReads | src/modes/ftx.c:485-498 | where each field of this kind is and what it holds, i3 and n3 included |
| FtxPayload.DxpeditionExact | src/modes/ftx.c:485-498 | this kind is read back exactly when its fields are canonical |
| FtxPayload.EncodeFieldDay | src/modes/ftx.c:499-516 | the packing calls of this kind produce exactly its fields, then zeros |
| FtxPayload.FieldDayReads | src/modes/ftx.c:499-516 | where each field is and what it holds; n3 tells more than 16 transmitters |
| FtxPayload.FieldDayExact | src/modes/ftx.c:499-516 | this kind is read back exactly when its fields are canonical |
| FtxPayload.EncodeStandard | src/modes/ftx.c:523-550 | the packing calls of kinds 1 and 2 produce exactly their fields, then zeros |
| FtxPayload.StandardReads | src/modes/ftx.c:523-550 | where each field is and what it holds |
| FtxPayload.StandardExact | src/modes/ftx.c:523-550 | kinds 1 and 2 are read back exactly when their fields are canonical |
| FtxPayload.EncodeRttyRoundup | src/modes/ftx.c:551-566 | the packing calls of this kind produce exactly its fields, then zeros |
| FtxPayload.RttyRoundupReads | src/modes/ftx.c:551-566 | where each field is and what it holds |
| FtxPayload.RttyRoundupExact | src/modes/ftx.c:551-566 | this kind is read back exactly when its fields are canonical |
| FtxPayload.EncodeNonStandard | src/modes/ftx.c:567-580 | the packing calls of this kind produce exactly its fields, then zeros |
| FtxPayload.NonStandardReads | src/modes/ftx.c:567-580 | where each field is and what it holds |
| FtxPayload.NonStandardExact | src/modes/ftx.c:567-580 | this kind is read back exactly when its fields are canonical |
| FtxPayload.EncodeEuropeanVhf | src/modes/ftx.c:581-597 | the packing calls of this kind produce exactly its fields, then zeros |
| FtxPayload.EuropeanVhfReads | src/modes/ftx.c:581-597 | where each field is and what it holds |
| FtxPayload.EuropeanVhfExact | src/modes/ftx.c:581-597 | this kind is read back exactly when its fields are canonical |
| FtxPayload.EncodeBytes | src/modes/ftx.c:477-484 | free text and telemetry: the buffer's top 71 bits, then the type fields |
| FtxPayload.BytesRead | src/modes/ftx.c:517-522 | the field holds half the buffer's value, and the type fields tell the kind |
| FtxPayload.TelemetryReceived | src/modes/ftx.c:517-522 | telemetry survives the payload exactly when all nine bytes are zero |
| Cobs.RoundTrip | src/protocol/cobs.c:3-61 | decoding undoes encoding for every byte sequence, empty ones, long runs and trailing zeros included |
| Cobs.EncodedSpelled | src/protocol/cobs.c:3-31 | the encoding in three equations: a run without zeros, a run before a zero, and a run of 254 before anything |
| Cobs.FormOf | src/protocol/cobs.c:3-31 | every byte string is of one of those forms |
| Cobs.EncodedNonZero | src/protocol/cobs.c:3-31 | an encoding has no zero byte |
| Cobs.EncodedLength | src/protocol/cobs.c:3-31 | an encoding of n bytes is at most n + n/254 + 1 long, and never empty |
| Cobs.Encode | src/protocol/cobs.c:3-31 | the loop that patches code bytes backwards computes the encoding |
| Cobs.Decode | src/protocol/cobs.c:33-61 | the loop computes the decoding, returns 0 for a malformed input, writes no more than the bytes it touches, malformed inputs included, and leaves what is behind them alone |
| Cobs.CopyBlock | src/protocol/cobs.c:48-53 | the inner loop copies a block, or as much of it as there is, and tells which |
| Cobs.TouchedDecoded | src/protocol/cobs.c:33-61 | a decoding fills exactly the bytes the loop writes |
| Cobs.TouchedShorter | src/protocol/cobs.c:33-61 | fewer bytes are written than read, for malformed inputs too |
| Cobs.RoomExact | src/protocol/cobs.c:33-61 | a buffer holds what is written for every input of n bytes exactly when n is at most its size and one |
| Packet.ParseExact | src/protocol/packet_parser.c:24-46 | the device's parser accepts exactly the byte strings that start with a built packet and returns its type, id and payload, and the host's parser agrees with it on every input |
| Packet.BuiltSpelled | src/protocol/packet_parser.c:58-77 | the packet byte by byte: 0xAA, type, id low byte first, length, payload, CRC low byte first |
| Packet.FrameRoundTrip | src/protocol/packet_parser.c:58-84 | a frame ends with its only zero, and what stands before it arrives on either end with type, id and payload |
| Packet.SendPacket | src/protocol/packet_parser.c:58-84 | nothing for an oversized payload, otherwise the stuffed packet and a delimiter |
| Packet.FillPacket | src/protocol/packet_parser.c:58-77 | the buffer holds the packet byte by byte, CRC included |
| Packet.ParseDispatch | src/protocol/packet_parser.c:24-56 | a handler runs exactly for packets that parse and whose type is in the command table |
| Uart.Reassembly | src/uart_handler.c:26-81 | however received bytes and worker turns interleave, the frames that get through are an order-preserving selection of those sent, and all of them exactly when the queue never overflows |
| Uart.PacketsArrive | src/uart_handler.c:26-81 | from an idle receiver the device sees an order-preserving selection of the packets sent, each with its type, id and payload, and every one of them when the queue never overflows |
| Uart.DelimitersClear | src/uart_handler.c:44-46 | n delimiters in a row empty the ring exactly when it held no more than n times the 302 bytes that the interrupt takes at once |
| Uart.Resynchronises | src/uart_handler.c:34-81 | whatever up to 512 bytes the ring holds after noise or a torn frame, as many delimiters as empty it, one for up to 302 bytes and two for any, are enough to receive what follows; and exactly when the decoder left its buffer on the way, which up to 301 bytes it never does |
| Uart.DelimiterSafe | src/uart_handler.c:44-50 | a delimiter keeps the decoder inside its 300-byte buffer, for every content of the ring without zeros, exactly when the ring holds at most 301 bytes |
| Uart.KeepingUpSuffices | src/uart_handler.c:26-32 | a worker that keeps up with the delimiters keeps the queue from overflowing |
| Uart.FrameArrives | src/uart_handler.c:44-64 | a delimiter empties the ring and queues the decoded packet, or drops it when the queue is full |
| Uart.FrameDropped | src/uart_handler.c:44-64 | a malformed, empty or too long frame changes nothing but the ring |
| Uart.RingHolds | src/uart_handler.c:62-64 | other bytes wait in the ring of 512 and are lost when it is full |
| Uart.Handler.OnRxByte | src/uart_handler.c:41-64 | any received byte changes the ring, the queue and the work item as the step function says; whether the decoder wrote behind its 300 bytes is recorded |
| Uart.Handler.GetFromRing | src/uart_handler.c:44-46 | takes the first 302 bytes out of the ring, or all of them if there are fewer |
| Uart.Handler.Isr | src/uart_handler.c:34-64 | an interrupt handles the bytes of the receive register one by one |
| Uart.Handler.RxDispatch | src/uart_handler.c:26-32 | the worker hands on every queued packet in order and leaves the ring alone |
| HostReader.HostReassembly | minihf_api/src/lib.rs:382-428 | whatever frames arrive, damaged ones included, and however the bytes are split over reads, the host finds in order the packet of each frame that is one and keeps the bytes of the unfinished frame |
| HostReader.HostPacketsArrive | minihf_api/src/lib.rs:382-428 | every packet the device frames is found, in order, with its type, id and payload, for every split over reads, and behind a torn frame too once a delimiter has closed it |
| HostReader.SplitsDoNotMatter | minihf_api/src/lib.rs:399-410 | reading in pieces finds the same packets and leaves the same bytes as reading all at once |
| HostReader.DrainedEarly | minihf_api/src/lib.rs:408-410 | taking complete frames out before more bytes come changes nothing |
| HostReader.Reader.OnBytes | minihf_api/src/lib.rs:407-428 | one turn of the thread takes out every complete frame and hands on its packet, and leaves no delimiter in the buffer |
| HostReader.ReadFrame | minihf_api/src/lib.rs:412-415 | a frame gives its packet when it is not empty, decodes and parses |
| HostReader.Position | minihf_api/src/lib.rs:408 | the scan finds the first delimiter or none |
| HostLink.TransactReturnsItsReply | minihf_api/src/lib.rs:452-491 | in every run in which no id clashes, a transact that returns a NACK or a payload returns what the device replied when it ran that very request: a NACK exactly for a reply of type 0xFE, otherwise the reply's payload |
| HostLink.EveryRun | minihf_api/src/lib.rs:382-491 | in every run, lost frames and reused ids included, each command runs at most once, no reply is consumed twice, and a consumed reply is one the device sent |
| HostLink.ClashExact | minihf_api/src/lib.rs:458 | a call may begin exactly when its id does not clash: a clash is what makes some continuation hand a reply to the wrong caller |
| HostLink.FewCallsNoClash | minihf_api/src/lib.rs:458 | with fewer than 65536 calls begun, no id clashes, whatever is on its way |
| HostLink.AnsweredIdsFree | minihf_api/src/lib.rs:452-491 | when every earlier call with the next id returned a payload or a NACK, the id does not clash |
| HostLink.FewCallsGuarded | minihf_api/src/lib.rs:382-491 | every run of at most 65536 calls is one in which no id clashes |
| HostLink.CarefulHostIsServed | minihf_api/src/lib.rs:452-491 | a host that takes an id again only after every call that had it was answered, or makes at most 65536 calls, gets the device's reply to its own request, as a NACK or a payload, from every call that returns one |
| HostLink.LosslessCall | minihf_api/src/lib.rs:452-491 | on a quiet open link without losses a call of commands 1 to 8 ends with a NACK exactly when the handler failed, otherwise with the data of the three queries and with an empty payload for the other five |
| HostLink.UnansweredCall | minihf_api/src/lib.rs:452-491 | every other command leaves its call waiting |
| HostLink.ReplyKinds | src/radio/radio_cmd.c:26-238 | which commands are replied to, with which type, id and payload |
| HostLink.StepsSpelled | minihf_api/src/lib.rs:403-458 | what a begin, an arrival, a read and a run of the worker do in every state, in numbers |
| HostLink.PollTakes | minihf_api/src/lib.rs:476-487 | a waiting call whose reply is in the map takes it, in every state |
| HostLink.OtherEnds | minihf_api/src/lib.rs:452-475 | a call ends by timeout, closed port, I/O error or without waiting exactly as each happens |
| HostLink.ClashHarms | minihf_api/src/lib.rs:458 | from any clash there is a run in which a caller consumes another call's reply |
| HostLink.IdReused | minihf_api/src/lib.rs:458 | the bound is tight: a run of exactly 65536 calls without a clash, the first of which was replied to too late, after which every transact clashes |
| HostLink.RequestsStep | src/radio/radio_cmd.c:26-238 | no step puts a request in two places or runs a command again |
| HostLink.AnswersStep | minihf_api/src/lib.rs:403-424 | every reply on its way, in the map under its id, or consumed is one that the device sent |
| HostLink.OnePlaceStep | minihf_api/src/lib.rs:403-482 | no step puts a reply in two places |
| HostLink.HonestStep | minihf_api/src/lib.rs:474-487 | a finished transact reports what it took from the map: a NACK exactly for type 0xFE, otherwise that payload |
| HostLink.ExclusiveStep | minihf_api/src/lib.rs:452-491 | without a clash, whatever can be replied to under a waiting call's id stays that call's own |
| HostLink.MiniHf.BeginCall | minihf_api/src/lib.rs:452-460 | refuses an oversized payload, otherwise takes the next id, as one step of the link |
| HostLink.MiniHf.WriteFrame | minihf_api/src/lib.rs:462-467 | hands the frame to the port exactly when it is open |
| HostLink.MiniHf.PollOnce | minihf_api/src/lib.rs:476-487 | one look into the map: takes the reply under the id, if any, and reports a NACK exactly for type 0xFE, else the payload |
| HostLink.MiniHf.RoutePacket | minihf_api/src/lib.rs:414-424 | packets of type 0xFC are logged, all others filed under their id |
| HostLink.MiniHf.ClosePort | minihf_api/src/lib.rs:368-378 | closing stops the reader thread, drops the port and every parked reply, and keeps the id counter |
| TxEngine.EveryRun | src/radio/tx_engine.c:31-98 | in every run, with expiries between any two steps: at rest the engine is active exactly when a sequence is set, within its bounds, with exactly one of timer and work ready, and neither when idle; a tick that runs belongs to the playing sequence |
| TxEngine.OrderMatters | src/radio/tx_engine.c:51-54 | stopping the timer before cancelling the work is exactly what keeps stale ticks out |
| TxEngine.WorkFirstStale | src/radio/tx_engine.c:51-54 | with the two calls swapped a tick of the old sequence advances the new one |
| TxEngine.StartPlaysInOrder | src/radio/tx_engine.c:31-98 | a started sequence plays its symbols in order, one per expiry, keyed as each symbol says, round after round when repeating; otherwise each exactly once, and then the transmitter is off and the engine idle |
| TxEngine.PlaysThrough | src/radio/tx_engine.c:31-98 | from every engine at rest, a start followed by k expiries with their work items has applied the first k + 1 symbols; a sequence that does not repeat is over after as many as it has symbols, idle and with the transmitter off |
| TxEngine.RoundGoesOn | src/radio/tx_engine.c:64-98 | an expiry and the work item it submits bring the next symbol, the first again, or the end |
| TxEngine.TickGoesOn | src/radio/tx_engine.c:68-98 | so does a work item that is pending |
| TxEngine.StopSilences | src/radio/tx_engine.c:51-58 | a stop leaves the engine at rest with the transmitter off |
| TxEngine.CountingSupplyOff | src/radio/tx_engine.c:98-119 | if the supply counted its enables, a sequence of keyed symbols would end switched off exactly when it has one symbol and none was outstanding |
| TxEngine.InvStep | src/radio/tx_engine.c:31-98 | every step of every job keeps what holds at its point |
| TxEngine.TenSteps | src/radio/tx_engine.c:31-49 | a start without expiries in between leaves the first symbol applied and the timer armed |
| TxEngine.FiveSteps | src/radio/tx_engine.c:51-58 | a stop without expiries in between leaves the engine idle and the transmitter off |
| TxEngine.TickSteps | src/radio/tx_engine.c:68-98 | what the work item does without expiries in between: next symbol, wrap, or completion |
| TxEngine.Transmitter.StartNow | src/radio/tx_engine.c:31-49 | a null or empty sequence changes nothing, otherwise the fields end as the ten steps do |
| TxEngine.Transmitter.StopNow | src/radio/tx_engine.c:51-58 | the fields end as the five steps do |
| TxEngine.Transmitter.WorkHandler | src/radio/tx_engine.c:68-98 | the fields end as the work item's steps do |
| TxEngine.Transmitter.TimerExpiry | src/radio/tx_engine.c:64-66 | expiry disarms the timer and submits the work |
| Rtty.OverTheAir | src/modes/encoders/rtty.c:87-153 | demodulating groups of seven and printing from the letters shift gives the upper-cased text without unencodable characters, if and only if the tones differ or there is nothing to send |
| Rtty.CharacterSpelled | src/modes/encoders/rtty.c:71-85 | the seven symbols of a code, keyed, with tone and length each: start, five bits lowest first, stop |
| Rtty.CharactersTimed | src/modes/encoders/rtty.c:71-85 | every symbol of a transmission is keyed and lasts a bit, or a stop if it ends a character |
| Rtty.GlyphIs | src/modes/encoders/rtty.c:16-29 | the transmitter's two tables agree with the teleprinter's own alphabet |
| Rtty.EncodableIs | src/modes/encoders/rtty.c:31-69 | which characters have a code |
| Rtty.ShiftsOptimal | src/modes/encoders/rtty.c:112-150 | no code sequence that prints the same text from the letters shift is shorter than the generated one |
| Rtty.TextRoundTrip | src/modes/encoders/rtty.c:137-150 | the generated codes print the sent text from any shift |
| Rtty.PrintedIsCoded | src/modes/encoders/rtty.c:16-69 | a code that prints a character under a shift is the code found for it, and asks for no other shift |
| Rtty.CodePrints | src/modes/encoders/rtty.c:31-69 | the code found for a character prints that character under the shift it asks for |
| Rtty.Tones | src/modes/encoders/rtty.c:97-107 | the tones are the shift apart, symmetric when centred, and swapped by a reversed shift |
| Rtty.FindCode | src/modes/encoders/rtty.c:31-69 | the two table scans find the code and the shift, or nothing |
| Rtty.PushBaudot | src/modes/encoders/rtty.c:71-85 | appends a start bit, the five data bits lowest first and a stop bit, and leaves the rest of the array alone |
| Rtty.Generate | src/modes/encoders/rtty.c:109-150 | the emitting pass fills exactly the seven symbols per code that the sizing pass reserved |
| Cw.RoundTrip | src/modes/encoders/cw.c:54-121 | at any speed with a dot of at least a microsecond, a receiver of marks and gaps reads the upper-cased text without unsupported characters and leading spaces, if and only if the longest gap fits in 32 bits |
| Cw.SpacesFit | src/modes/encoders/cw.c:82-84 | two letters with n spaces between are read back exactly when 6 n + 3 dots fit in 32 bits |
| Cw.LongGapLost | src/modes/encoders/cw.c:82-84 | at one word a minute 596 spaces between two letters are read back and 597 are not |
| Cw.ReadExactly | src/modes/encoders/cw.c:54-121 | a receiver reads a text from symbols exactly when they are that text's ideal timing |
| Cw.EmittedIsIdeal | src/modes/encoders/cw.c:78-117 | patching gaps as the text goes by gives that timing: one dot inside a character, three plus six per space between characters, one plus six per space at the end |
| Cw.IdealMore | src/modes/encoders/cw.c:81-114 | a space lengthens the last gap by six dots, a character by two |
| Cw.EmittedAlternates | src/modes/encoders/cw.c:97-112 | the symbols strictly alternate, starting keyed and ending unkeyed |
| Cw.TooFastCollides | src/modes/encoders/cw.c:50-52 | above 1200000 words a minute a dot lasts no time and A and N give the same symbols |
| Cw.LetterIs | src/modes/encoders/cw.c:10-48 | the Morse tree reads an element string as a character exactly when it is that character's code in the table |
| Cw.IdealFits | src/modes/encoders/cw.c:83-95 | all durations fit in 32 bits exactly when the longest gap does |
| Cw.Generate | src/modes/encoders/cw.c:54-121 | the array has exactly the counted capacity and holds exactly the emitted symbols |
| Cw.Lengthen | src/modes/encoders/cw.c:82-84 | only the last symbol changes, and only when it is a gap |
| Cw.Key | src/modes/encoders/cw.c:97-113 | appends a mark and a one-dot gap for each element |
| Si5351a.RegistersExact | drivers/clock_control/clock_si5351a.c:308-331 | the eight registers decode to P1, P2, P3 with (P1 + 512) c + P2 = 128 (a c + b) and P2 < c, exactly when c has 20 bits and P1 has 18, as for every proper fraction |
| Si5351a.BlockRead | drivers/clock_control/clock_si5351a.c:320-331 | the masks and shifts keep 18 bits of P1 and 20 of P2 and P3 |
| Si5351a.RegisterMap | drivers/clock_control/clock_si5351a.c:31-40 | the register numbers of the PLLs, outputs and controls |
| Si5351a.ControlRead | drivers/clock_control/clock_si5351a.c:404-428 | a control register read by its fields: powered up, own multisynth, the chosen PLL, strongest drive, integer mode exactly for a whole divider |
| Si5351a.AcceptedExactly | drivers/clock_control/clock_si5351a.c:292-386 | the accepted ranges and the error numbers |
| Si5351a.Clock.AcceptedOutputs | drivers/clock_control/clock_si5351a.c:372-462 | what the two output functions accept, in numbers |
| Si5351a.ParametersRepresent | drivers/clock_control/clock_si5351a.c:308-318 | P1, P2 and P3 stand for a + b/c |
| Si5351a.PllClose | drivers/clock_control/clock_si5351a.c:350-370 | the feedback divider undershoots the frequency by less than a millionth of the crystal |
| Si5351a.StoredClose | drivers/clock_control/clock_si5351a.c:336-370 | the product of crystal and divider, rounded as doubles are and cut, is that close below the requested frequency |
| Si5351a.StoredBrackets | drivers/clock_control/clock_si5351a.c:336-370 | the stored frequency is the exact VCO frequency cut to whole hertz, or one below a whole one |
| Si5351a.PinAccurate | drivers/clock_control/clock_si5351a.c:336-462 | from crystal to pin: for every VCO frequency set and every accepted request from one hertz up, crystal times feedback divider over output divider is at least the request and above it by less than a part in 5900000 |
| Si5351a.AccurateExactly | drivers/clock_control/clock_si5351a.c:431-462 | an accepted output divider is in [f, f (1 + 1/6000000)) exactly when the frequency ratio fits in 32 bits |
| Si5351a.AccurateFromOneHertz | drivers/clock_control/clock_si5351a.c:431-462 | from one hertz up every accepted divider is that accurate |
| Si5351a.BelowOneHertz | drivers/clock_control/clock_si5351a.c:455 | with a 25 MHz crystal and the PLL at 738734375 Hz, which is stored exactly, a request for a millihertz is accepted with the divider 88 |
| Si5351a.Clock.SetPll | drivers/clock_control/clock_si5351a.c:292-348 | the errors exactly for bad arguments, the block in the PLL's registers, the product of crystal and divider cut to an integer as the stored frequency, within one of the exact one when it fits in 32 bits, nothing else changed |
| Si5351a.Clock.SetPllFreq | drivers/clock_control/clock_si5351a.c:350-370 | success leaves registers that stand for a divider within the undershoot, and stores the frequency itself when the crystal divides it, else at most a millionth of the crystal and a hertz less |
| Si5351a.Clock.SetMs | drivers/clock_control/clock_si5351a.c:372-429 | the errors exactly for bad arguments; the block, then the control register, also when the second transfer fails |
| Si5351a.Clock.SetMsFreq | drivers/clock_control/clock_si5351a.c:431-462 | success leaves registers that stand for a divider, accurate exactly when the ratio fits and always from one hertz up |
| PayloadUtils.RoundTrip | include/protocol/payload_utils.h:13-186 | fields written without an error and read back by the same types: no read error, exactly the written bytes consumed, and the same values exactly when each string's destination holds it |
| PayloadUtils.WritingExact | include/protocol/payload_utils.h:106-186 | writing reports an error exactly when a string is over 255 bytes or the fields do not fit, and otherwise writes exactly their bytes |
| PayloadUtils.FieldRead | include/protocol/payload_utils.h:19-98 | reading a field consumes exactly its bytes |
| PayloadUtils.ReadingExact | include/protocol/payload_utils.h:19-98 | reading errs exactly when the bytes run out, and what it then gives; otherwise which bytes it takes and what they mean |
| PayloadUtils.LittleEndian | include/protocol/payload_utils.h:19-61 | numbers are written and read lowest byte first |
| PayloadUtils.SeenWhole | include/protocol/payload_utils.h:74-98 | a string is read whole exactly when its destination holds it with a terminating zero |
| PayloadUtils.Writer.PutNumber | include/protocol/payload_utils.h:122-150 | appends a little-endian number, or only sets the error flag |
| PayloadUtils.Writer.PutBytes | include/protocol/payload_utils.h:152-160 | appends the bytes, or only sets the error flag |
| PayloadUtils.Writer.PutPstr | include/protocol/payload_utils.h:162-182 | appends length and string, or only sets the error flag |
| PayloadUtils.Cursor.GetNumberOf | include/protocol/payload_utils.h:19-61 | reads a little-endian number, or 0 with the error flag |
| PayloadUtils.Cursor.GetBytesInto | include/protocol/payload_utils.h:63-72 | copies the bytes, or zeros with the error flag |
| PayloadUtils.Cursor.GetPstrInto | include/protocol/payload_utils.h:74-98 | copies what the destination holds, terminates it, and consumes the whole string |

## Left out

- I2C, GPIO, UART register access, RTC, OLED, board set-up, logging and wall-clock time: input and output. A bus transfer that succeeds or fails is a parameter of the clock driver's methods, a timeout is a step of its own.
- CRC internals: the CRC is any function that both ends share. Corrupted frames that pass it, partly written frames and a full transmit ring are not modelled; the link drops whole frames.
- The Rust byte-stuffing crate: the C functions stand for both ends.
- HostReader.Reader.OnBytes: hands back the packets of a read together; that each is routed under the map's lock before the next frame is cut is `HostLink.MiniHf.RoutePacket`.
- Floating point: WSPR and RTTY tones are reals, without the rounding of the source's floats, and the host's f64 frequency is left out. The clock driver's product of doubles is any multiple of 2^-52 hertz within a part in 2^51 of the exact value, exact when the divider is a whole number.
- Si5351a.Clock.SetPll: a product above 32 bits, whose conversion C leaves undefined, is cut to 32 bits.
- Bit and stop durations of RTTY: computed in floats by the source, they are part of the configuration here.
- Memory allocation failure and null pointers, except the null sequence of the transmit engine.
- Uart.Handler.OnRxByte: the byte of memory behind the decoder's 300 is a spare place of the array and the write to it is recorded; which variable lies there in the firmware, and what its change does, is not modelled. The two length bytes in front of a queued message are not modelled either.
- Uart.Resynchronises: for the same reason the ring and the queue are taken to be unharmed by a delimiter that made the decoder write there; the lemma says exactly when that happens.
- HostLink.TransactReturnsItsReply: requests and replies are whole packets; that bytes become packets again is `Uart.PacketsArrive` on the device and `HostReader.HostPacketsArrive` on the host.
- HostLink.IdReused: says that the clash is reached, not how long it takes; real time is not modelled.
- TxEngine.StartPlaysInOrder: says what is played as far as a run goes, with expiries anywhere; that a sequence left alone is played to its end is `TxEngine.PlaysThrough`, and that expiries keep coming is the kernel's. How long the timer runs for a symbol is not modelled. The transmitter is keyed or not: that a single disable of the power supply switches it off rests on the regulator driver not counting enables, and that driver is not part of this model (`TxEngine.CountingSupplyOff` says what a counting one would do).
- Shifts, masks and bitwise operators of the packers and of the register block are written as divisions, remainders and bit sequences; `parity` and `bit_reverse8` are modelled on bits.
- Character strings have no terminator; `Rtty.OverTheAir` and its companions require that a text holds no NUL, as a C string cannot. Characters above 127 count as unsupported.
- Union members that the C structures overlay are separate constructors here.
- The range checks, clamps and small conversions of the command handlers, of the frequency clamp and of the host's typed calls: easy members. Of the handlers only the rule of one reply with the request's id is kept.
- HostLink.MiniHf.ClosePort: that the reader thread may handle one more packet after the flag is cleared is the `Read` step of the link.
- FtxFields.S13Exact: states whose names have three letters are read back too, although the source's field has no room for them (`FtxFields.StorableS13`).
- The section and state tables are searched as written; that their entries are distinct is not needed and not stated.
- `src/modes/encoders/ft8.c` is empty.
