# Verified models of the modem's codecs, framers and signal loops

This project models, in Dafny 4.11, the parts of the repository whose correctness
rests on an argument rather than on a single line of code, and proves that
argument. The code that the source writes as loops over arrays and as objects with
fields is written that way here, as methods and classes, and each of them is proved
against a specification on whole histories: the bits, bytes or samples heard so
far, and what they mean as a batch. The properties of the system are then lemmas
about those specifications.

`dafny verify dfyconfig.toml` checks everything.

## What is modelled

* **FT8** (`Ft8Source`, `Ft8Message`, `Ft8Numbering`, `Ft8Payload`, `Ft8Crc`, `Ft8Ldpc`,
  `Ft8MinSum`, `Ft8Correction`, `Ft8Symbols`, `Ft8EndToEnd`). Message packing, CRC-14, the LDPC(174,91) encoder,
  check and min-sum decoder, tone mapping and LLRs, and unpacking. The generator is
  any matrix of the declared row shape and the check table any table of at most
  seven edges a row; arithmetic on energies and LLRs is over the reals, with the
  source's refusal of non-finite inputs kept. The chain is closed: any energies in
  which every transmitted tone is the strict maximum of its symbol give back exactly
  the message text. One exception is a property of the code: a blank free text packs
  to the all-zero payload, which the receive path (`src/ft8/rx.rs`) drops, so it is
  accepted for transmission and never reported.
* **KISS** (`Kiss`, `KissDeframing`). The three encoders, and the deframer as a
  machine that agrees with a batch reading of the whole byte stream. A segment that
  holds nothing but one escape byte is dropped without an error, as in the code.
* **Asynchronous decoding** (`Asynk`). Any number of feeds, each a pump and a worker
  with a chunk queue, sharing one frame queue and a consumer that may hang up: a
  step system, with theorems over every schedule. A feed is a script of reads; the
  decoder is any function of its state and a 16-bit sample.
* **Tone correlation and envelopes** (`Correlator`, `ToneMeaning`, `Envelope`,
  `EnvelopeMeaning`). The sliding-window
  sums, the multiply-shift normalisation, the two-pole smoother and the
  discriminator metric. The sine table is any function into [-32767, 32767].
* **Digipeating** (`Digipeat`, `RelayPolicy`, `DupeRing`). The relay rule with its in-place path
  rewrite, termination across any network of stations, and the duplicate ring
  against an unbounded ledger. Fingerprints are uninterpreted numbers.
* **FX.25** (`Fx25Tags`, `Fx25`, `Fx25Receiving`). Tags, wrapper, tag hunter and block
  collector, on both sides of a Reed-Solomon encoder that is any function yielding
  the parity length it is asked for.
* **Modulators and receive filter** (`Rate`, `Modulator`, `Baseband`, `Fir`, `FirDrift`). The
  exact-rate cell accumulator, the continuous-phase AFSK modulator, the baseband
  modulator with one bit of lookahead, and the split-ring FIR with its trackers.
  The trackers' shifts round down, so the baseline sinks; how fast it can, when that
  overflows a register, and an input on which it does are part of the results.
* **Maidenhead locators** (`Geo`). Exact integer encoding, decoding, parsing and
  coarsening.

Agreement of code with its specification, and of two directions with each other,
says nothing of what both take for granted. So the numbers, orders, signs and scales
that other stations and listeners rely on are stated once more, in literal terms, as
lemmas of their own: `Ft8Numbering`, `ToneMeaning`, `EnvelopeMeaning` and `RelayPolicy`
hold nothing else, and most other modules some.

`Prelude`, `Arith`, `Sums`, `Hamming` and `Bits` hold shared vocabulary and facts. FT8 bytes taken
apart bit by bit are sequences of eight booleans.

## Model

| member | source | states |
|---|---|---|
| `Ft8Source.CallsignRoundTrip` | src/ft8.rs:967-1011 | unpacking inverts packing for every callsign or token the packer accepts, up to upper case |
| `Ft8Source.AcceptedCalls` | src/ft8.rs:1275-1337 | a callsign packs if and only if it is one of three tokens or has the published shape under one of the two alignments |
| `Ft8Source.PlacesRoundTrip` | src/ft8.rs:990-1011 | the mixed-radix callsign number fits its field and its six digits come back |
| `Ft8Source.TailRoundTrip` | src/ft8.rs:1354-1381 | every trailer the packer accepts (locator, report, acknowledgements) renders back to its text |
| `Ft8Numbering.CallsignOrder` | src/ft8.rs:1290-1337 | of two aligned callsigns the one with the earlier character (the space, digits, letters) where they first differ has the smaller number |
| `Ft8Numbering.CallsignNumbers` | src/ft8.rs:224-240 | the first callsign is 6257896, the last 2^28 - 1, and K1ABC is 10214965 |
| `Ft8Numbering.TokenNumbers` | src/ft8.rs:224-230 | DE, QRZ and CQ are 0, 1 and 2 |
| `Ft8Numbering.RefusedAt` | src/ft8.rs:1275-1300 | what a slash, a blank or an eighth character after letters and digits is refused as |
| `Ft8Numbering.UpperCases` | src/ft8.rs:1275-1300 | exactly the small letters are raised, each to its capital |
| `Ft8Numbering.TailNumbers` | src/ft8.rs:1354-1405 | the published number of every trailer that is no locator, and the range of reports |
| `Ft8Numbering.GridOrder` | src/ft8.rs:1354-1381 | locators are numbered alphabetically, up to 32399 |
| `Ft8Numbering.ReportReads` | src/ft8.rs:920-965 | a report reads as its sign and two digits, behind the R of an acknowledgement |
| `Ft8Numbering.TailsRead` | src/ft8.rs:920-965 | how the other trailers read, with and without acknowledgement |
| `Ft8Numbering.MessageReads` | src/ft8.rs:920-965 | how a whole message reads: capitals, and single spaces between its parts |
| `Ft8Message.StandardRoundTrip` | src/ft8.rs:1093-1130 | every accepted standard message unpacks to exactly its upper-cased text, inside the text buffer |
| `Ft8Message.FreeTextRoundTrip` | src/ft8.rs:1132-1170 | every accepted free text unpacks to its upper-cased form with surrounding spaces trimmed |
| `Ft8Message.FreeTextFits` | src/ft8.rs:1155-1166 | thirteen base-42 digits fit the 71-bit field, so the 7 + 64 bit split loses nothing |
| `Ft8Numbering.StandardNumber` | src/ft8.rs:1093-1130 | callsign, rover flag, callsign, rover flag, acknowledgement, trailer and type stand at their places among the 77 bits |
| `Ft8Numbering.StandardRefusals` | src/ft8.rs:1093-1130 | exactly a token as second callsign and an acknowledgement of anything but a locator or a report are refused |
| `Ft8Numbering.FreeNumber` | src/ft8.rs:1155-1170 | the text's number stands above six zero bits |
| `Ft8Numbering.FreeTextNumber` | src/ft8.rs:243-250 | that number is the base-42 one of the published alphabet, first character weightiest |
| `Ft8Message.NeverTruncates` | src/ft8.rs:837-907 | no payload at all, valid or not, renders to more than the 24-byte buffer |
| `Ft8Payload.BitWriter.Push` | src/ft8.rs:1205-1218 | after pushing, the bytes hold the earlier bits followed by the value's low bits, most significant first |
| `Ft8Payload.ScanAndPackC28` | src/ft8.rs:1275-1337 | the scan loop, whose result goes to the specified alignment rule, computes the callsign specification, error cases and their order included |
| `Ft8Payload.StandardMessage` | src/ft8.rs:1093-1130 | the writer produces the specified 77-bit layout, or the specified error |
| `Ft8Payload.FreeTextMessage` | src/ft8.rs:1132-1170 | likewise for free text |
| `Ft8Payload.ReadBits` | src/ft8.rs:910-916 | reads the number that a bit range spells |
| `Bits.BitOfNumber` | src/ft8.rs:910-916 | bit i of an octet, and of any field, is its number's bit of that place from the top |
| `Ft8Payload.Ft8Text.PushBytes` | src/ft8.rs:843-857 | appends as much as fits and keeps what was there |
| `Ft8Payload.RenderMessage` | src/ft8.rs:885-1011 | the unpacking loops compute the message specification on every ten bytes |
| `Ft8Crc.Crc14` | src/ft8.rs:1416-1432 | the loop over bytes leaves in the register what feeding the 77 bits and five zeros leaves in it |
| `Ft8Crc.CrcIsRemainder` | src/ft8.rs:1409-1432 | polynomial division over GF(2): a 14-bit field completes the payload and its five zeros to a multiple of x^14 + 0x2757 if and only if it is the CRC |
| `Ft8Crc.VerifiesIffMultiple` | src/ft8.rs:813-827 | a 91-bit message verifies if and only if, five zeros inserted before the CRC, it is a multiple of the generator polynomial |
| `Ft8Crc.AddCrcBytes` | src/ft8.rs:1438-1453 | payload then CRC, left-justified in twelve bytes with clear spare bits |
| `Ft8Crc.VerifyCrcBytes` | src/ft8.rs:814-827 | accepts exactly when the stored field equals the recomputed CRC, and returns the payload |
| `Ft8Crc.VerifyInvertsAdd` | src/ft8.rs:813-827 | a 91-bit message verifies if and only if it is the protected form of its own payload |
| `Ft8Crc.FeedLinear` | src/ft8.rs:1416-1432 | the register loop is linear over XOR of registers and of inputs |
| `Ft8Crc.FeedIsLoad` | src/ft8.rs:1416-1432 | feeding up to 14 bits equals XORing them into the register and stepping on zeros |
| `Ft8Crc.BurstDetected` | src/ft8.rs:1413-1432 | any nonzero change confined to 14 consecutive payload bits changes the CRC and fails verification |
| `Ft8Crc.PolynomialValue` | src/ft8.rs:207 | the polynomial's bits spell 0x2757 |
| `Ft8Ldpc.ParseGeneratorRow` | src/ft8.rs:347-365 | a 91-bit generator integer is repacked column for column with clear spare bits |
| `Ft8Ldpc.RowParity` | src/ft8.rs:1463-1468 | AND, XOR and popcount over bytes give the GF(2) dot product of the row and the word's front |
| `Ft8Ldpc.LdpcEncode` | src/ft8.rs:1458-1473 | systematic encoding: message bits followed by one parity bit per generator row |
| `Ft8Ldpc.LdpcCheck` | src/ft8.rs:1492-1505 | returns the number of parity bits in which a word differs from re-encoding its own first 91 bits |
| `Ft8Ldpc.NoFailureIffCodeword` | src/ft8.rs:1475-1505 | the count is zero exactly on the codewords |
| `Ft8Ldpc.FailuresDependOnErrorOnly` | src/ft8.rs:1475-1505 | the count depends on the error alone, and an error goes unseen exactly when it is a codeword |
| `Ft8MinSum.ScanRow` | src/ft8.rs:737-757 | one pass finds the overall sign, the two smallest magnitudes and where the smallest is |
| `Ft8MinSum.UpdateRow` | src/ft8.rs:735-767 | the two-minimum form gives each edge 0.8 times the product of the other edges' signs and the minimum of their magnitudes |
| `Ft8MinSum.SumPosterior` | src/ft8.rs:721-729 | a posterior is the channel value and every message about its bit |
| `Ft8MinSum.LdpcDecode` | src/ft8.rs:707-797 | non-finite input is refused; otherwise the result is the first of 40 textbook rounds whose hard decision satisfies every check, or failure |
| `Ft8MinSum.ValidWordUnchanged` | src/ft8.rs:707-797 | an input whose hard decision satisfies every check is returned as it is |
| `Ft8MinSum.DecodedWordIsSound` | src/ft8.rs:707-797 | a decoded word satisfies every check and is the earliest such round; failure means none of the rounds does |
| `Ft8Correction.WeakErrorsCorrected` | src/ft8.rs:707-797 | wrong channel decisions, alone in their checks, weaker than 0.8 times their neighbours and outweighed by them, are all put right: the decoder returns the word |
| `Ft8Correction.OneRoundCorrects` | src/ft8.rs:735-767 | after one round every bit of it is the word's |
| `Ft8Correction.LoneErrorCorrected` | src/ft8.rs:707-797 | the same of a single wrong bit, with the weights in numbers of shared checks |
| `Ft8Correction.NoInformation` | src/ft8.rs:772-797 | a value of zero counts as a clear bit: an input of zeros decodes to the all-zero word |
| `Ft8Symbols.SymbolsFromCodeword` | src/ft8.rs:1512-1528 | sync arrays at 0, 36 and 72, and the Gray-mapped tone of every three-bit group between them |
| `Ft8Symbols.SymbolsAreTones` | src/ft8.rs:1512-1528 | all 79 symbols are tones 0 to 7 |
| `Ft8Symbols.CostasHasDistinctDisplacements` | src/ft8.rs:209-213 | no two pairs of sync tones are the same distance apart in time and frequency |
| `Ft8Symbols.CostasIsPublished` | src/ft8.rs:209-213 | the sync tones are 3 1 4 0 6 5 2 |
| `Ft8Symbols.DataFillsGaps` | src/ft8.rs:1512-1528 | data symbols fill, in order, exactly the places the sync arrays leave free |
| `Ft8Symbols.NeighboursDifferInOneBit` | src/ft8.rs:215-220 | neighbouring tones differ in one bit; the lowest is all zeros, the highest all ones |
| `Ft8Symbols.ToneOfGroup` | src/ft8.rs:215-220 | the published tone of every three-bit group, first bit weightiest |
| `Ft8Symbols.LlrsFromEnergies` | src/ft8.rs:652-683 | each LLR is the difference of the best energies for a zero and a one, over the mean energy |
| `Ft8Symbols.HardDecisionRecoversWord` | src/ft8.rs:652-683 | when every transmitted tone is the strict maximum of its symbol, the LLR signs are the transmitted word |
| `Ft8Symbols.LoneToneRatios` | src/ft8.rs:652-683 | with all energy in one tone a symbol every ratio is 8, positive for a clear bit, whatever the energy |
| `Ft8EndToEnd.MessageFromCodeword` | src/ft8.rs:799-804 | the first 91 bits, spare bits cleared |
| `Ft8EndToEnd.ChannelSymbols` | src/ft8.rs:1179-1187 | payload bytes to the 79 symbols of its protected, encoded word |
| `Ft8EndToEnd.ReceiveSymbols` | src/ft8/rx.rs:356-375 | the receive loops compute the receive specification, each drop included |
| `Ft8EndToEnd.PayloadArrives` | src/ft8.rs:652-827 | strict-maximum energies bring the transmitted payload through every stage |
| `Ft8EndToEnd.StandardArrives` | src/ft8.rs:1093-1130 | a standard message arrives as exactly its upper-cased text |
| `Ft8EndToEnd.FreeTextArrives` | src/ft8.rs:1132-1170 | free text arrives upper-cased and trimmed if and only if it is not blank |
| `Ft8EndToEnd.BlankTextVanishes` | src/ft8/rx.rs:369-374 | a single space is accepted for transmission and never reported |
| `Ft8EndToEnd.ReportsAreChecked` | src/ft8/rx.rs:356-375 | whatever is reported came from a word satisfying every check under a matching CRC |
| `Kiss.CommandByteRoundTrip` | src/kiss.rs:185-202 | decoding inverts encoding, with the port of `Return` reported as 0; no command byte is an escape byte, and only data on port 12 is a delimiter |
| `Kiss.CommandByteExact` | src/kiss.rs:203-226 | an accepted byte is the encoding of what it decodes to, and exactly the unknown nibbles are refused |
| `Kiss.CommandCodes` | src/kiss.rs:185-226 | the seven commands are 0 to 6 below the port, and `Return` is 255 |
| `Kiss.FendOnlyDelimits` | src/kiss.rs:293-439 | the delimiter is the first and last byte of a frame and no other |
| `Kiss.EscapePairs` | src/kiss.rs:62-69 | inside a frame 0xC0 never occurs and 0xDB only before 0xDC or 0xDD |
| `Kiss.EscapedOctets` | src/kiss.rs:62-69 | 0xC0 goes out as 0xDB 0xDC and 0xDB as 0xDB 0xDD |
| `Kiss.PlainContent` | src/kiss.rs:293-337 | content free of both goes out as it is |
| `Kiss.EncodedLenIsExact` | src/kiss.rs:231-239 | the announced length is the length of the frame on the wire |
| `Kiss.EncodeInto` | src/kiss.rs:293-337 | the buffer gets the frame and nothing else changes, or the exact size is asked for and nothing changes |
| `Kiss.KissFrameIter.Next` | src/kiss.rs:380-439 | the lazy encoder yields the same frame byte by byte |
| `KissDeframing.KissDeframer.Push` | src/kiss.rs:527-590 | on every byte stream, from every reachable state, the events are those of the batch reading |
| `KissDeframing.BatchSnoc` | src/kiss.rs:527-590 | what one more byte adds to the batch reading |
| `KissDeframing.SegmentsSplit` | src/kiss.rs:527-560 | after a delimiter a stream is read independently of what came before |
| `KissDeframing.UnescapeInvertsEscape` | src/kiss.rs:540-580 | unescaping undoes escaping |
| `KissDeframing.EncodedFramesDelivered` | src/kiss.rs:293-590 | any sequence of encoded frames that fit is delivered exactly, whatever was heard before |
| `KissDeframing.DanglingEscape` | src/kiss.rs:527-560 | a segment closed inside an escape reports the delimiter as the bad byte if and only if it is more than that escape byte |
| `KissDeframing.BadEscape` | src/kiss.rs:560-575 | an escape byte before anything but 0xDC or 0xDD is reported with that byte, and the rest of the segment with it |
| `KissDeframing.SegmentVerdict` | src/kiss.rs:527-560 | a closed segment is refused as too large exactly beyond the capacity, and as an unknown command exactly by its first byte |
| `KissDeframing.NothingBeforeFend` | src/kiss.rs:563-565 | nothing is read before the first delimiter |
| `KissDeframing.LoneEscapeIsDropped` | src/kiss.rs:527-545 | a lone escape byte between delimiters reports nothing |
| `Asynk.DeliveredIsPrefix` | src/asynk.rs:350-439 | on every schedule, each feed's delivered items are a prefix of what its decoder yields on the whole input, and no queue outgrows its bound |
| `Asynk.CompleteMeansAll` | src/asynk.rs:350-439 | when every task has ended, a consumer that stayed has received everything, errors last |
| `Asynk.NeverStuck` | src/asynk.rs:350-439 | until all tasks have ended and the queue is drained, some step other than a hang-up is enabled |
| `Asynk.StepCostsLess` | src/asynk.rs:350-439 | every step of any task lowers one cost |
| `Asynk.SchedulesAreBounded` | src/asynk.rs:350-439 | so every schedule is finite, bounded by the initial cost |
| `Asynk.MaximalSchedulesDeliverAll` | src/asynk.rs:332-439 | a schedule that has run to its end delivers everything in order to a consumer still there |
| `Asynk.OddByteReported` | src/asynk.rs:368-399 | the end-of-file error is reported exactly when the byte count is odd, after every frame |
| `Asynk.SamplesArrive` | src/asynk.rs:425-439 | the bytes of 16-bit samples, low byte first, yield exactly the decoder's frames for those samples |
| `Asynk.FailureIsLast` | src/asynk.rs:400-421 | interruptions change nothing; a failure ends the reading and is the last item |
| `Asynk.WaitsExactlyWhenFull` | src/asynk.rs:332-421 | a send waits if and only if 64 items, or four chunks, are queued and the other side is there |
| `Asynk.HangUpEndsFeed` | src/asynk.rs:370-421 | after a hang-up the worker gives up at its next frame and the pump at its next chunk |
| `Asynk.StepKeepsInv` | src/asynk.rs:350-439 | each step conserves, feed by feed, what has been sent and what is outstanding |
| `Asynk.ChunkReader.Read` | src/asynk.rs:227-262 | blocking reads hand out the chunks' bytes in order and report the first error after them |
| `Correlator.PhaseIsMultiple` | src/discriminator.rs:265-290 | the free-running reference: sample k is at k increments modulo one turn |
| `Correlator.SlideSum` | src/discriminator.rs:265-290 | adding the new product and taking away the one that left gives the exact sum of the last ones |
| `Correlator.MultiplyShiftIsDivision` | src/discriminator.rs:226-262 | the rounded-up reciprocal gives the exact quotient and never overflows 64 bits, for every window up to 181 |
| `Correlator.ScaleIsDivision` | src/discriminator.rs:226-262 | the normalisation is truncating division by 256 times the length, for every window length and every sum a window can hold |
| `Correlator.PowerBound` | src/discriminator.rs:265-292 | the power is non-negative and bounded by the loudest sample |
| `Correlator.ToneCorrelator.Push` | src/discriminator.rs:265-292 | over every run the returned power is that of the exact sums of the last samples; no wrapping or saturating operation acts |
| `ToneMeaning.PowerIgnoresPhase` | src/discriminator.rs:200-292 | for a table that alternates by half turns the power is unchanged when the reference is turned by a quarter |
| `ToneMeaning.PowerIsToScale` | src/discriminator.rs:265-292 | a level of 256 y held for the window against a reference standing still reads y times the reference, in both sums |
| `Envelope.OrthogonalWindowIsShortest` | src/discriminator.rs:123-134 | the window is the shortest whole number of tone-shift periods that covers a bit, and fits the ring |
| `Envelope.ISqrtIsRoot` | src/discriminator.rs:417-429 | the integer square root |
| `Envelope.PolesFit` | src/discriminator.rs:417-429 | on every run both smoothing stages stay between zero and the peak amplitude |
| `Envelope.PolesComeToRest` | src/discriminator.rs:417-429 | from any reachable state enough silence brings both stages to exactly zero |
| `Envelope.SilenceConverges` | src/discriminator.rs:417-492 | and the metric with them, for good |
| `Envelope.MetricFits` | src/discriminator.rs:483-492 | the metric is bounded by 256 times the loudest sample, so the clamp never acts |
| `EnvelopeMeaning.MetricPoints` | src/discriminator.rs:483-492 | the metric is non-negative when the mark is the louder throughout and non-positive when the space is |
| `EnvelopeMeaning.FirstStep` | src/discriminator.rs:417-429 | from rest an amplitude passes both poles in turn, divided by 2^shift in each |
| `EnvelopeMeaning.AmplitudeIsRoot` | src/discriminator.rs:417-429 | the amplitude is the root of the power, rounded down |
| `EnvelopeMeaning.SmoothingIs` | src/discriminator.rs:383-394 | the shift grows by one every eight samples a bit, from 16 on and up to three |
| `EnvelopeMeaning.WindowIs` | src/discriminator.rs:123-134 | for tones less than three quarters of a baud apart the shortest whole number of beats that covers a bit in 240 samples, if any; otherwise the bit, up to 240 |
| `EnvelopeMeaning.PhaseStepIsNearest` | src/types.rs:138-141 | the phase step is within half a unit of the tone's share of 2^32 |
| `Envelope.NewDiscriminator` | src/discriminator.rs:357-405 | refuses exactly the configurations with fewer than two samples a bit; otherwise window, increments and smoothing shift as configured, with nothing heard |
| `Envelope.QuadratureCorrelator.constructor` | src/discriminator.rs:379-404 | window, increments and smoothing shift for rates already checked, at rest |
| `Envelope.QuadratureCorrelator.PushEnvelopes` | src/discriminator.rs:417-429 | the envelopes are those of the whole history of each tone |
| `Envelope.QuadratureCorrelator.Push` | src/discriminator.rs:483-492 | the metric is the exact difference of the two envelopes |
| `Digipeat.RelayDecision` | src/digipeat.rs:338-432 | the in-place rule computes the decision specification, refusals included |
| `RelayPolicy.RelayIff` | src/digipeat.rs:338-432 | a frame is relayed if and only if it has at most eight hops and the first unused one is the station's alias or a WIDEn request within class, policy and room |
| `RelayPolicy.RelayChanges` | src/digipeat.rs:364-428 | exactly which hop is replaced by what, under either action |
| `RelayPolicy.KeepKeepsAddresses` | src/digipeat.rs:364-400 | under `Keep`, and for a last request, no address changes and one hop is marked |
| `RelayPolicy.WideRefused` | src/digipeat.rs:386-405 | which refusal a WIDEn hop meets: the class, the count or the room |
| `RelayPolicy.WideNames` | src/digipeat.rs:285-296 | the aliases that carry a count are WIDE1 to WIDE7 |
| `Digipeat.RelayWide` | src/digipeat.rs:387-428 | consuming, or shifting right and inserting, as a replacement in a sequence |
| `Digipeat.ShiftRight` | src/digipeat.rs:404-420 | the shift loop moves the tail one place and leaves the front |
| `Digipeat.RelayRewrites` | src/digipeat.rs:338-432 | a relay replaces the first unused hop by one used hop, or by a used hop and the same alias with one request fewer |
| `Digipeat.RelayLosesWeight` | src/digipeat.rs:338-432 | every relay by any station with any aliases and action strictly lowers the path's weight |
| `Digipeat.ChainsAreBounded` | src/digipeat.rs:338-432 | so no chain of relays is longer than the frame's first path weighs |
| `Digipeat.RelayKeepsUsedFirst` | src/digipeat.rs:338-432 | a used-hops-first path stays one, used hops are never rewritten, and one more is used |
| `DupeRing.Slots.CheckAndInsert` | src/digipeat.rs:544-567 | the slots always hold exactly the last insertions with their ledger times, and the verdict and update are the abstract ring's |
| `DupeRing.RunStaysOk` | src/digipeat.rs:502-567 | after any run the fingerprints in the slots are distinct and each has a time in the ledger |
| `DupeRing.LedgerIsLatestFresh` | src/digipeat.rs:502-567 | a recorded time is that of the latest fresh hearing |
| `DupeRing.DuplicatesAreJustified` | src/digipeat.rs:502-567 | every duplicate follows a fresh hearing of the same fingerprint less than one window earlier |
| `DupeRing.VerdictIff` | src/digipeat.rs:544-567 | a hearing is a duplicate if and only if its fingerprint is among those held and was last reported fresh less than one window before |
| `DupeRing.IdealIff` | src/digipeat.rs:502-567 | and for the unbounded ledger, which forgets nothing, if and only if the latter |
| `DupeRing.RingIsIdealUntilOverwritten` | src/digipeat.rs:502-567 | while fewer insertions than slots have followed a fingerprint's own, every verdict on it is the unbounded ledger's, re-arming included; they part exactly at a hearing that finds it overwritten and still remembered |
| `DupeRing.RingCanPart` | src/digipeat.rs:544-567 | a run on which they do part |
| `DupeRing.RingIsIdealOnSmallTraffic` | src/digipeat.rs:502-567 | over no more fingerprints than slots, every verdict of a run is the unbounded ledger's |
| `Fx25Tags.TagBytesSpellValue` | src/fx25.rs:280-293 | the tags' bits are the published values, byte by byte |
| `Fx25Tags.TagsApart` | src/fx25.rs:278-293 | every two tags differ in exactly 32 bits |
| `Fx25Tags.PublishedTags` | src/fx25.rs:278-293 | the eleven published values in order, each with its code |
| `Fx25Tags.SizesAreNamed` | src/fx25.rs:295-330 | every tag sends the n bytes, k of them data, of the code it is named after |
| `Fx25Tags.MatchIsExact` | src/fx25.rs:948-952 | a word is read as a tag exactly when it is within eight bits of it; order plays no part |
| `Fx25Tags.SmallestForIsBest` | src/fx25.rs:261-342 | the chosen tag holds the frame in least airtime, with most parity among equals; none above 239 bytes |
| `Fx25.WrapWith` | src/fx25.rs:484-529 | tag, data block and parity in the buffer with the rest untouched, or the exact error and no change |
| `Fx25.WrappedLayout` | src/fx25.rs:484-529 | in order: the tag, the frame, HDLC flags to the end of the data, and the parity of the data and its zeros up to 255 |
| `Fx25.Wrap` | src/fx25.rs:445-451 | the same under the smallest fitting tag |
| `Fx25.ByteBits.Next` | src/fx25.rs:613-622 | yields the bytes' bits, least significant first |
| `Fx25.BitOnAir` | src/fx25.rs:613-622 | bit p on the air is place p mod 8 of byte p / 8 |
| `Fx25.AirBitsAppend` | src/fx25.rs:613-622 | bytes sent one after another go out as their bits one after another |
| `Fx25Receiving.TagHunter.Push` | src/fx25.rs:841-918 | on every bit stream, from every reachable state, the blocks handed over are those of the batch reading |
| `Fx25Receiving.BlocksSnoc` | src/fx25.rs:859-918 | what one more bit adds to the batch reading, and the reset after a block |
| `Fx25Receiving.BytesOfAir` | src/fx25.rs:613-622 | reassembling bits inverts sending them |
| `Fx25Receiving.TagLocks` | src/fx25.rs:859-886 | from a reset, a tag with at most eight bits wrong locks itself at its last bit |
| `Fx25Receiving.TagLocksAfter` | src/fx25.rs:859-886 | so it does after any bits that nothing locks in, alone or with its own first 63 bits |
| `Fx25Receiving.TagHunter.HuntsFor64` | src/fx25.rs:859-886 | after any run the hunter is still hunting when fewer than 64 bits have followed its last reset |
| `Fx25Receiving.BlocksAppend` | src/fx25.rs:859-918 | what follows any stream is read after the bits heard since its last reset, and adds to what was already handed over |
| `Fx25Receiving.BlockArrives` | src/fx25.rs:859-918 | the block bytes that follow, damaged or not, reach the decoder in their places |
| `Fx25Receiving.CleanTransmission` | src/fx25.rs:484-622 | the bits of what the wrapper wrote are a transmission in the sense below, with nothing before it and no tag bit flipped |
| `Fx25Receiving.CodewordsArrive` | src/fx25.rs:484-918 | after any traffic that leaves the receiver hunting, transmissions, each after any lead-in that no tag is read in, arrive as exactly the 255-byte words whose data parts were given to the encoder |
| `Rate.AccumulatorIsSchedule` | src/modulator.rs:184-197 | the remainder accumulator produces the cells of the exact schedule |
| `Rate.NoDrift` | src/modulator.rs:20-31 | any run of cells is off the exact length by the difference of the remainders owed, never more |
| `Modulator.PhaseIsContinuous` | src/modulator.rs:203-211 | every sample's phase is the sum modulo 2^32 of all the increments before it |
| `Modulator.StepCount` | src/modulator.rs:20-31 | the number of samples of a run of bits |
| `Modulator.StepsFollowBits` | src/modulator.rs:184-211 | each sample's increment is the mark's in the cell of a one and the space's in that of a zero |
| `Modulator.SteadyTone` | src/modulator.rs:184-211 | ones on end sound the mark tone and zeros the space tone, sample by sample from phase zero |
| `Modulator.Modulator.Feed` | src/modulator.rs:184-197 | selects the tone and owes the cell's exact length; the phase is untouched |
| `Modulator.Modulator.NextI16` | src/modulator.rs:203-211 | one table sample and one increment, while samples are owed |
| `Modulator.I16Samples.Next` | src/modulator.rs:258-273 | yields the head of everything still to come |
| `Modulator.Samples` | src/modulator.rs:226-273 | a fresh modulator's whole output, in exactly floor(bits * rate / baud) samples |
| `Baseband.LookaheadIsBatch` | src/baseband.rs:227-253 | the one-bit-behind stream is the batch waveform, in exactly floor(bits * rate / baud) samples |
| `Baseband.WaveAt` | src/baseband.rs:201-276 | every sample in terms of the one cell it lies in |
| `Baseband.WaveShape` | src/baseband.rs:257-285 | full level beside an equal bit and the sine's half turn between unlike ones, positive for a one |
| `Baseband.WaveIsLocal` | src/baseband.rs:227-276 | bit sequences that agree on a bit and its neighbours have the same samples throughout its cell |
| `Baseband.WhichHalf` | src/baseband.rs:257-276 | which half of its cell a sample is shaped by, the rounding of the phase step included |
| `Baseband.BasebandModulator.StartCell` | src/baseband.rs:201-218 | the next cell in full, at the exact length |
| `Baseband.BasebandModulator.Feed` | src/baseband.rs:227-243 | the previous bit's cell starts with both transitions known; the new bit is pending |
| `Baseband.BasebandModulator.Finish` | src/baseband.rs:246-253 | the last bit's cell, flat in its second half |
| `Baseband.BasebandModulator.NextI16` | src/baseband.rs:257-285 | the next sample of the cell; the clamp never acts |
| `Baseband.BasebandI16Samples.Next` | src/baseband.rs:332-355 | yields the head of everything still to come, flushing once |
| `Baseband.Samples` | src/baseband.rs:174-300 | a fresh modulator's whole output is the batch waveform; too few samples a bit is refused |
| `Fir.TapsSumToUnity` | src/baseband.rs:640-653 | whatever the weights, the quantised taps sum to exactly 2^15 |
| `Fir.BuildTaps` | src/baseband.rs:638-653 | the quantising loop and the residue in the centre tap |
| `Fir.ConstantPasses` | src/baseband.rs:640-703 | a constant held for the filter's length passes through exactly, whatever came before |
| `Fir.FilterForgets` | src/baseband.rs:663-703 | the output depends on the last inputs of the filter's length alone |
| `Fir.PulseReadsTaps` | src/baseband.rs:663-703 | a full-scale sample among silence reads out the taps, the last first |
| `Fir.TapsLenIs` | src/baseband.rs:607-612 | three bits' worth of taps, made odd, from 3 to 15 |
| `Fir.AmplitudeStaysNonNegative` | src/baseband.rs:704-718 | on every run of outputs whatever, the unbounded amplitude estimate is never negative |
| `Fir.TrackersNeverWrap` | src/baseband.rs:704-718 | over 16-bit samples baseline and amplitude together leave the outputs' range by at most one a sample, so for 2^32 - 2^19 - 2 samples no i32 operation overflows and the registers hold exactly the unbounded trackers |
| `Fir.MetricNeverWraps` | src/baseband.rs:709-718 | and so long the metric is exactly the output less the unbounded baseline |
| `Fir.TieDecidesUp` | src/baseband.rs:713-718 | an output on the baseline is decided upward |
| `Fir.NeverOverflowsIff` | src/baseband.rs:709-718 | a run of outputs of any length overflows no i32 operation if and only if no metric exceeds the largest i32 and no residual falls below the smallest |
| `FirDrift.NarrowIsBuilt` | src/baseband.rs:607-660 | the taps of the drift below are the ones the source quantises at two samples a bit |
| `FirDrift.DriftIsReal` | src/baseband.rs:663-718 | the drift has no bound that holds of every run: through those taps the samples 582, 584, -137 over and over lower the baseline and raise the amplitude by one each time round after the second, and overflow once that has happened 2^31 - 513 times, not before |
| `FirDrift.SignIsLost` | src/baseband.rs:709-718 | at the first overflow of that run a metric of 2^31 comes out as -2^31 |
| `Fir.BasebandFilter.Convolve` | src/baseband.rs:689-703 | the two-slice sum is the tap-weighted sum of the last inputs in age order |
| `Fir.BasebandFilter.Push` | src/baseband.rs:663-718 | over every run the metric is the convolution, which the narrowing cast leaves whole, less the baseline of the wrapping 32-bit trackers |
| `Geo.EncodesIndex` | src/geo.rs:304-355 | the encoder spells the index of the coordinate's cell in canonical letters and digits |
| `Geo.LocatorCharacters` | src/geo.rs:304-355 | the published grid: which longitude and latitude every character stands for, in literal units |
| `Geo.CanonicalCases` | src/geo.rs:1267-1317 | letters are taken in either case, stored as capitals in the field and small in the subsquare |
| `Geo.EncodesToIffInCell` | src/geo.rs:304-355 | a locator names exactly the coordinates of one half-open cell |
| `Geo.DecodesToCentre` | src/geo.rs:357-389 | decoding gives the centre of the cell the locator spells |
| `Geo.LocatorRoundTrip` | src/geo.rs:304-389 | re-encoding any locator's centre at its precision gives it back |
| `Geo.WithinHalfACell` | src/geo.rs:304-389 | any coordinate is within half a cell of its locator's centre, longitude modulo 360 degrees and the pole included |
| `Geo.FromBytes` | src/geo.rs:1267-1317 | parsing accepts exactly the texts whose characters have a canonical form, and stores it |
| `Geo.ToPrecision` | src/geo.rs:1379-1391 | coarsening computes the truncated locator |
| `Geo.CoarsenCommutes` | src/geo.rs:1379-1391 | coarsening a fine locator equals encoding coarsely at once |
| `Geo.CoarsenContains` | src/geo.rs:1379-1391 | every coordinate that a locator names is named by its coarsened form too |
| `Geo.CoarsenKeepsCentre` | src/geo.rs:1379-1391 | in particular the fine locator's own centre |

## Left out

- Ft8EndToEnd.PayloadArrives: assumes that the check table annihilates every codeword of the generator; that the shipped tables do is a finite computation over them, and the tables are not part of this model.
- Ft8MinSum.LdpcDecode: LLR arithmetic is over the reals; f32 rounding is not modelled, non-finite values are.
- Ft8Symbols.LlrsFromEnergies: energies are reals; f32 rounding is not modelled, the f32 floor on the mean is.
- Correlator.ToneCorrelator.Push: samples are bounded by 2^17, the bound the source's own exactness argument states for its callers.
- Fir.TrackersNeverWrap: asks that the absolute taps sum to at most twice unity, which bounds the outputs; `Push` has the wrapping semantics of a release build where an operation overflows.
- Fir.BasebandFilter.constructor: asks that no weight exceed the sum of them all, which a low-pass design meets and which bounds the taps.
- Fir.BuildTaps: weights are any reals with a positive sum; the windowed-sinc design that produces them is floating point.
- Fx25Receiving.TagHunter.Push: stops at the Reed-Solomon decoder; the plain HDLC path beside it and the cross-path suppression of duplicates are not modelled.
- Fx25Receiving.CodewordsArrive: that no tag is read in a given lead-in is a finite comparison with the eleven tags, left to the caller; for none at all it always holds.
- Modulator.I16Samples.Next: the f32 sample paths of both modulators are not modelled.
- Asynk.StepKeepsInv: tasks, channels and wake-ups of the runtime are steps of a transition system; real time is not modelled.
- Reed-Solomon coding, HDLC stuffing, AX.25 frames and addresses beyond a digipeater path, the slicer, scrambler, IL2P, M17, WSPR and TNC layers.
- FT8 waveform synthesis, candidate search, synchronisation and SNR estimation around the decoder.
- The AFSK tone-range checks at configuration and the presets built on them.
- Great-circle distance and bearing, APRS position ambiguity and coordinate text.
- The hash behind duplicate fingerprints, and therefore its collisions.
- KISS over a network, WAV and file reading, and allocating convenience wrappers.
- Message texts of errors and `Display` output.
