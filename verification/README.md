# Verified models of the UART parser, the sensor replay and the CAN decoder

This project models the three programs of the repository in Dafny and proves what they are
for. Each component is written in the form the C++ source has (classes with fields, loops,
a shared state stepped by threads) and proved against a separate mathematical description.

## What is modelled

**UART stream parser and CRC-16** (`task1_uart_parser`). `Crc16` has the shift/xor register as
loops over 16-bit words and, over `Gf2Poly`, its meaning: a remainder modulo
x^16 + x^12 + x^5 + 1 over GF(2). `UartStream.UartParser` is the seven-state class with its
buffer, running CRC, in-flight flag and counters; it is proved to follow `UartMachine`, whose
runs are proved to be a greedy, never backtracking reading of the whole stream. `UartErrors`
says exactly which damaged frames get through, `CrcDistance` (over `Divisors`) that one, two or
three flipped bits never do and four can, `CrcParity` that the CRC keeps the message's parity, and
`UartTransmissions` what comes through of a whole stream of damaged frames; `UartEndToEnd` says it
of the class, and `UartWire` spells the wire format and whole inputs out in bytes. The CRC covers Type and Payload and not Length (`DESIGN.md:30-32`), so the error
theorems hold for frames whose length byte is intact.

**JSON parser** (`json_value.cpp`). `JsonGrammar` is the concrete syntax the parser accepts,
down to whitespace and the spelling of strings, with its printer and its meaning. `JsonReader`
reads a document branch by branch, `JsonRoundTrip` proves that it accepts exactly the printed
forms, and `JsonCursor.Parser` is the recursive-descent parser over a moving cursor. `JsonText`
says which characters the syntax is made of and gives a whole text with its value. The
parser reads a subset of RFC 8259 (sections 4 and 7): no arrays, no `\u` escapes.

**CAN signal codec** (`signal_codec.cpp`). `SignalCodec` has the two bit loops and the sign
extension over the operations of `Bits`; the results are quotients and remainders of the
payload read as one 64-bit number. `SignalPacking` is the inverse, for whole frames of
disjoint signals.

**Diagnostics engine** (`diagnostics.cpp`). `DiagnosticsEngine.Engine` updates its maps in
place; `Valid` says that they hold, for every message ID, exactly what the history of calls
determines (`FrameHistory`). `DiagnosticsLaws` says what the counts mean over whole histories
and `LossDetection` which bursts of lost frames the two detectors together report.
`FrameReadings` tells counters and checksums by the bits of a payload, `SilentMessages` what is
said of a message that has not been heard of.

**Replay producers and shared vehicle state** (`task2_sensor_aggregator`). `VehicleState` and
`ReplayProducer` are the sequential parts. `ReplayMachine` is the concurrent program as steps of
any number of producers, a stopper, a reader and a clock, field by field under one lock;
`ReplayThread`, `ReplaySystem` and `ReplayLaws` prove its promises for every schedule, and
`SnapshotOrder` when snapshots never go back, and `ReplayAlone` that the machine's steps,
undisturbed, are the methods of the state manager.
`ReplayRun` is a producer's own loop in an environment given as input: how long each statement
takes and when a stop arrives. The loop's end state is a function of that environment, a run of
the machine, and from it follows what has been applied. A wait ends no sooner than its deadline
or the stop flag, and that a notification ends it is not assumed; `StopWakeup` says when it does.

## Where the code and its documentation differ

The model follows the code.

- `task1_uart_parser/include/uart_parser.hpp:34` calls `discarded_bytes` the bytes skipped while
  hunting. A false start, an AA before a byte that is neither AA nor 55, skips two bytes and
  counts one (`task1_uart_parser/src/uart_parser.cpp:48-51`). `UartMachine.DiscardedCountsSkipped`
  gives the exact count on every stream and says when the comment is right.
- `DESIGN.md:86-90` says that `requestStop` wakes a waiting producer immediately. It sets the
  flag and notifies without holding the mutex of the wait
  (`task2_sensor_aggregator/src/sensor_producer.cpp:28-31`). `StopWakeup.StopWakesUnlessBlocking`
  proves that the wait ends before its deadline unless the notification falls between its test of
  the flag and its block; then only a spurious wake-up ends it before. Shutdown is proved without
  any wake-up.
- The null branch of the JSON parser looks at no character behind the `n`
  (`task3_can_decoder/src/json_value.cpp:21`), so any three characters do: `nope` is null. A text
  that ends sooner takes the cursor past its end (`JsonCursor.Parser.ParseValue` says exactly when
  and how far, `JsonCursor.AnyThreeAreNull` and `JsonCursor.ParseLoneN` show it).
- A snapshot shows -1 for a sensor that has sent nothing
  (`task2_sensor_aggregator/src/vehicle_state.cpp:26-46`), so a log that begins below -1 makes its
  timestamp go back. `SnapshotOrder.NeverBackIff` proves that no other sorted log does.

## Model

| member | source | states |
|---|---|---|
| Crc16.Update | task1_uart_parser/src/crc16.cpp:5-15 | the eight shift/xor rounds of the loop are the register function whose meaning is a polynomial remainder |
| Crc16.Compute | task1_uart_parser/src/crc16.cpp:17-23 | the value returned is congruent to m*x^16 + 0xFFFF*x^(8n) modulo the generator |
| Crc16.UpdatedMeaning | task1_uart_parser/src/crc16.cpp:5-15 | one update divides crc*x^8 + byte*x^16 by x^16+x^12+x^5+1 over GF(2) |
| Crc16.CrcMeaning | task1_uart_parser/src/crc16.cpp:17-23 | for every message the CRC is the dividend modulo the generator, with degree below 16 |
| Crc16.CrcIsTheRemainder | task1_uart_parser/src/crc16.cpp:17-23 | a word is the CRC if and only if it is congruent to the dividend: the remainder is unique |
| Crc16.CrcDifferenceMeaning | task1_uart_parser/src/crc16.cpp:5-23 | the xor of two CRCs is the remainder of the xor of the messages; the initial value cancels |
| Crc16.CrcDifferenceDependsOnXorOnly | task1_uart_parser/src/crc16.cpp:5-23 | equal-length message pairs with the same xor have the same CRC difference |
| CrcParity.CrcKeepsParity | task1_uart_parser/src/crc16.cpp:17-23 | the CRC of any message has an odd number of ones if and only if the message has |
| UartStream.UartParser.constructor | task1_uart_parser/include/uart_parser.hpp:70 | a new parser is idle with all counters zero and nothing delivered |
| UartStream.UartParser.ToWaitSof1 | task1_uart_parser/src/uart_parser.cpp:12-23 | a loss of synchronisation is counted only for an attempt in flight; the parser is idle after |
| UartStream.UartParser.HandleFramingError | task1_uart_parser/src/uart_parser.cpp:25-27 | an abandoned attempt counts one loss of synchronisation |
| UartStream.UartParser.Feed | task1_uart_parser/src/uart_parser.cpp:29-102 | one byte moves fields, buffer, running CRC and counters as one step of the abstract machine, and the class invariant holds after it |
| UartStream.UartParser.FeedHunting | task1_uart_parser/src/uart_parser.cpp:31-52 | hunting for AA 55, including a second AA and the false start that is dropped uncounted |
| UartStream.UartParser.FeedLength | task1_uart_parser/src/uart_parser.cpp:54-59 | the length byte opens an attempt of that length with a fresh CRC |
| UartStream.UartParser.FeedType | task1_uart_parser/src/uart_parser.cpp:61-65 | the running CRC becomes that of Type; an empty payload goes on to the CRC |
| UartStream.UartParser.FeedPayload | task1_uart_parser/src/uart_parser.cpp:67-73 | the byte joins the payload so far within the buffer and the running CRC follows |
| UartStream.UartParser.FeedCrcLo | task1_uart_parser/src/uart_parser.cpp:75-78 | the low CRC byte is kept |
| UartStream.UartParser.FeedCrcHi | task1_uart_parser/src/uart_parser.cpp:80-100 | the attempt is delivered once when its CRC matches and otherwise counted once as CRC failure and sync loss |
| UartStream.UartParser.Accept | task1_uart_parser/src/uart_parser.cpp:84-92 | a matching CRC counts one packet, hands exactly it to the callback and hunts on |
| UartStream.UartParser.Refuse | task1_uart_parser/src/uart_parser.cpp:93-98 | a failing CRC counts one failure and one sync loss and delivers nothing |
| UartStream.UartParser.FeedChunk | task1_uart_parser/src/uart_parser.cpp:6-10 | feeding a chunk is the run over its bytes; from an idle parser it is the greedy reading of them |
| UartStream.UartParser.Finish | task1_uart_parser/src/uart_parser.cpp:104-111 | input ending anywhere but idle counts one partial packet and resets |
| UartStream.UartParser.Reset | task1_uart_parser/src/uart_parser.cpp:113-121 | all parsing fields return to their initial values, the statistics stay |
| UartStream.UartParser.ResetStats | task1_uart_parser/include/uart_parser.hpp:94 | the counters restart at zero and an attempt in flight goes on |
| UartStream.FeedTwoChunks | task1_uart_parser/src/uart_parser.cpp:6-10 | two calls end where one call over the concatenation would |
| UartStream.BalancedMeaning | task1_uart_parser/src/uart_parser.cpp:80-100 | valid_packets counts the packets delivered, crc_failures = sync_losses the attempts refused |
| UartMachine.SealedIsGood | task1_uart_parser/tests/test_uart_parser.cpp:29-45 | the CRC makePacket appends, low byte first, is the one the parser reassembles |
| UartMachine.ChunksDoNotMatter | task1_uart_parser/src/uart_parser.cpp:6-10 | any split of a stream into chunks gives the same run |
| UartMachine.FirstSof | task1_uart_parser/src/uart_parser.cpp:31-52 | the index of the first adjacent AA 55, with none before it, or the length if there is none |
| UartMachine.RunIsGreedy | task1_uart_parser/src/uart_parser.cpp:29-102 | a run over any stream is the greedy reading: first AA 55, length, the whole attempt whatever its CRC, no byte looked at again |
| UartMachine.BytesConserved | task1_uart_parser/src/uart_parser.cpp:29-102 | bytes fed = discarded + dropped false starts + bytes of finished attempts + bytes pending, and the skips are at most twice discarded_bytes |
| UartMachine.DiscardedCountsSkipped | task1_uart_parser/src/uart_parser.cpp:31-52 | on every stream the bytes the greedy reading skips are discarded_bytes plus the false starts (AA before neither AA nor 55) in its skipped stretches; discarded_bytes is that number if and only if no stretch holds one |
| UartMachine.DiscardedMissesAFalseStart | task1_uart_parser/src/uart_parser.cpp:48-51 | on AA 00 two bytes are skipped and one is counted |
| UartMachine.FinishReportsCutOff | task1_uart_parser/src/uart_parser.cpp:104-111 | a partial packet is counted if and only if the greedy reading leaves an attempt cut off |
| UartMachine.NoisyStreamRoundTrip | task1_uart_parser/tests/test_uart_parser.cpp:29-45 | any alternation of noise without AA 55 and packets made by makePacket delivers exactly those packets in order without a CRC failure |
| UartMachine.RunStaysReachable | task1_uart_parser/src/uart_parser.cpp:54-73 | the payload never exceeds its length and the length never exceeds a byte |
| UartMachine.RankBoundsTheAttempt | task1_uart_parser/src/uart_parser.cpp:39-100 | an attempt ends within its rank, at most 259 bytes after SOF2, when no AA intervenes |
| UartMachine.Resynchronises | task1_uart_parser/src/uart_parser.cpp:39-100 | after any stream and 260 or more bytes free of AA the parser is idle and the next packet is delivered exactly |
| UartMachine.ResyncBoundIsTight | task1_uart_parser/src/uart_parser.cpp:39-100 | 259 such bytes are not enough |
| UartErrors.GoodIffMultiple | task1_uart_parser/src/uart_parser.cpp:80-99 | a received attempt passes the CRC comparison if and only if the flipped bits form a multiple of the generator |
| UartErrors.UndetectedIffMultiple | task1_uart_parser/src/uart_parser.cpp:61-99 | a damaged frame is delivered exactly in that case and otherwise adds one CRC failure |
| UartErrors.BurstDetected | task1_uart_parser/src/uart_parser.cpp:61-99 | any damage within 16 consecutive bits, CRC word most significant bit first, is never delivered |
| UartErrors.TwoAdjacentBytesDetected | task1_uart_parser/src/uart_parser.cpp:61-99 | any damage to one byte or two adjacent bytes of Type and Payload is never delivered |
| UartErrors.CrcDamageDetected | task1_uart_parser/src/uart_parser.cpp:75-99 | any damage to the CRC bytes alone is never delivered |
| UartErrors.FlipsAreTerms | task1_uart_parser/src/uart_parser.cpp:61-99 | the error polynomial has one term for each flipped bit, whatever the order of the CRC bytes |
| UartErrors.OddFlipsDetected | task1_uart_parser/src/uart_parser.cpp:61-99 | any odd number of flips across Type, Payload and CRC is never delivered |
| UartErrors.WireBurstAcrossTheBoundaryGetsThrough | task1_uart_parser/src/uart_parser.cpp:80-99 | of all damage confined to the last payload byte and the CRC low byte, neighbours on the wire, exactly 0x89 with 0xA1 is delivered |
| CrcDistance.NoShortPeriod | task1_uart_parser/src/crc16.cpp:5-15 | x^d is not 1 modulo the generator for any d from 1 to 4680 |
| CrcDistance.TwoFlipsDetected | task1_uart_parser/src/uart_parser.cpp:61-99 | any two flips across Type, Payload and CRC, however far apart, are rejected |
| CrcDistance.ThreeFlipsDetected | task1_uart_parser/src/uart_parser.cpp:61-99 | any one, two or three flips are rejected |
| CrcDistance.FourFlipsGetThrough | task1_uart_parser/src/uart_parser.cpp:61-99 | in every packet, the empty payload included, some four flips are delivered: the distance is exactly four |
| UartTransmissions.DamagedStream | task1_uart_parser/src/uart_parser.cpp:29-102 | of any alternation of noise without AA 55 and frames damaged anywhere behind the length byte, exactly the frames whose flips form a multiple of the generator are delivered, in order, and every other is one CRC failure |
| UartTransmissions.OnlyIntactArrive | task1_uart_parser/src/uart_parser.cpp:29-102 | when each frame is intact or hit by a burst of up to 16 bits, two flips or an odd number, exactly the intact packets are delivered, in order |
| UartEndToEnd.FeedDamagedFrame | task1_uart_parser/src/uart_parser.cpp:29-102 | of the class: a damaged frame reaches the callback exactly for a multiple of the generator, and bursts, two flips and odd flips only add one failure and one sync loss |
| UartEndToEnd.FeedDamagedStream | task1_uart_parser/src/uart_parser.cpp:29-102 | of the class: fed a whole stream of noise and damaged frames, the callback gets those same packets and each other frame is one failure and one sync loss |
| UartEndToEnd.FeedNoisyStream | task1_uart_parser/tests/test_uart_parser.cpp:29-45 | of the class: noise and packets made by makePacket give the callback exactly those packets in order, and no failure or sync loss |
| UartWire.FirstSofBytes | task1_uart_parser/include/uart_parser.hpp:15-16 | the first attempt of a stream begins at the first byte 0xAA that has 0x55 behind it |
| UartWire.MakePacketBytes | task1_uart_parser/tests/test_uart_parser.cpp:29-45 | makePacket gives 0xAA, 0x55, the length, the type, the payload, then the low and the high byte of the CRC of type and payload |
| UartWire.DocumentedPacket | DESIGN.md:34-36 | for type 01 and payload 10 20 30 these are AA 55 03 01 10 20 30 A2 81 |
| UartWire.FeedPacketBytes | task1_uart_parser/src/uart_parser.cpp:29-102 | of the class: an idle parser fed AA 55, a length, a type, that many bytes and two more delivers exactly that packet if the two are the CRC's low and high byte, and otherwise counts one failure and one sync loss |
| UartWire.ParseWhole | task1_uart_parser/src/uart_parser.cpp:6-111 | of the class: over a whole input to finish, packets, all five counters and the greedy reading agree |
| UartWire.LoneSof1IsPartial | task1_uart_parser/src/uart_parser.cpp:104-111 | an input that ends in the single byte AA leaves one partial packet |
| JsonGrammar.FirstOccurrenceWins | task3_can_decoder/include/json_value.hpp:44 | an object has the keys written in it, each with the value of its first occurrence |
| JsonGrammar.EncodeDecodes | task3_can_decoder/src/json_value.cpp:61-81 | every string, with quotes, backslashes, tabs and newlines, has a spelling that decodes to it |
| JsonCursor.Parser.SkipWhitespace | task3_can_decoder/src/json_value.cpp:29-31 | the cursor moves over exactly the leading whitespace |
| JsonCursor.Parser.Peek | task3_can_decoder/src/json_value.cpp:33 | the next character that is not whitespace, NUL at the end |
| JsonCursor.Parser.ExpectChar | task3_can_decoder/src/json_value.cpp:35-41 | consumes whitespace and that character, or fails |
| JsonCursor.Parser.ParseString | task3_can_decoder/src/json_value.cpp:61-81 | returns the decoded text of the literal read and stops just behind its closing quote |
| JsonCursor.Parser.ParseCharacters | task3_can_decoder/src/json_value.cpp:64-78 | decodes up to the closing quote or the end, a backslash at the very end standing for itself |
| JsonCursor.Parser.ParseNumber | task3_can_decoder/src/json_value.cpp:83-93 | takes the longest run of number characters and fails without one that converts |
| JsonCursor.Parser.ParseBool | task3_can_decoder/src/json_value.cpp:95-99 | true, false or an error, the cursor just behind the literal |
| JsonCursor.Parser.ParseValue | task3_can_decoder/src/json_value.cpp:14-23 | terminates on every text, reads no character out of range and agrees with the reader; the cursor ends past the text if and only if the text, behind whitespace, begins with n and has fewer than four characters, and then four behind that n |
| JsonCursor.AnyThreeAreNull | task3_can_decoder/src/json_value.cpp:21 | an n and any three characters are read as null, before any text |
| JsonCursor.NopeIsNull | task3_can_decoder/src/json_value.cpp:21 | nope is read to its end as null |
| JsonCursor.CutShortIsRead | task3_can_decoder/src/json_value.cpp:21 | what is read is a null of fewer than four characters exactly when the text behind its whitespace begins with n and is that short |
| JsonCursor.ParseLoneN | task3_can_decoder/src/json_value.cpp:21 | of the text n the parser makes null and leaves the cursor at 4 |
| JsonCursor.Parser.ParseObject | task3_can_decoder/src/json_value.cpp:43-59 | the object of the members read, or the error at which reading stopped |
| JsonCursor.Parser.ParseMembers | task3_can_decoder/src/json_value.cpp:47-57 | the loop inserts the members from left to right up to the closing brace |
| JsonCursor.Parser.ParseMember | task3_can_decoder/src/json_value.cpp:48-53 | one key, colon and value are inserted unless the key is present |
| JsonCursor.Parser.ParseSeparator | task3_can_decoder/src/json_value.cpp:54-56 | a comma goes on, a closing brace ends, anything else fails |
| JsonCursor.Parse | task3_can_decoder/src/json_value.cpp:104-107 | the value at the front of the text; what follows it is ignored |
| JsonText.ParseBehindBlank | task3_can_decoder/src/json_value.cpp:29-31 | a space or a character of code 9 to 13 in front of any text changes nothing |
| JsonText.SkipBlanks | task3_can_decoder/src/json_value.cpp:29-31 | skipWhitespace passes exactly those characters and stops at any other |
| JsonText.ParseRespaced | task3_can_decoder/src/json_value.cpp:14-59 | any run of them in front of a document and between any two of its tokens leaves the parsed value the same |
| JsonText.EscapeMeans | task3_can_decoder/src/json_value.cpp:66-77 | behind a backslash n is code 10, t is code 9 and any other character is itself |
| JsonText.PlainMeans | task3_can_decoder/src/json_value.cpp:66-77 | any character but quote and backslash stands for itself |
| JsonText.NumberMeans | task3_can_decoder/src/json_value.cpp:83-93 | a run of the characters 0 to 9, point, e, E, plus and minus is a number when it begins with a digit, behind an optional sign and an optional point, and an error when not |
| JsonText.LiteralsMean | task3_can_decoder/src/json_value.cpp:95-99 | true and false, whatever follows |
| JsonText.ErrorsAre | task3_can_decoder/src/json_value.cpp:14-99 | the error for an empty text, an unknown character, a broken literal and an open string |
| JsonText.ParseText | task3_can_decoder/src/json_value.cpp:14-107 | one whole text, with every kind of value, nested objects, blanks, escapes and a repeated key, and the value it has |
| JsonCursor.ParsePrinted | task3_can_decoder/src/json_value.cpp:14-99 | a document printed behind any whitespace, before any text that does not continue a number, parses to its value with the cursor exactly behind it |
| JsonReader.SpacesThenSkip | task3_can_decoder/src/json_value.cpp:29-31 | a text is its leading whitespace and what skipping leaves |
| JsonRoundTrip.ReadsExactlyThePrintedForms | task3_can_decoder/src/json_value.cpp:14-99 | a document is read with a given rest if and only if the text is whitespace, the document printed, and that rest |
| JsonRoundTrip.PrintIsInjective | task3_can_decoder/src/json_value.cpp:14-99 | no text is the printed form of two documents |
| JsonRoundTrip.EveryWritableValueIsParsed | task3_can_decoder/src/json_value.cpp:14-99 | a value of any nesting is the parse of some text read to its end if and only if its numbers are lexemes that convert |
| SignalCodec.ExtractRaw | task3_can_decoder/src/signal_codec.cpp:5-29 | Intel is LE64/2^start mod 2^len for every length, 64 and more included; Motorola is BE64/2^(64-start-len) mod 2^len within the payload and otherwise the part of that field that lies in it |
| SignalCodec.ExtractIntel | task3_can_decoder/src/signal_codec.cpp:8-16 | the LSB-first loop computes a field of the little-endian number, bits past the payload being zero |
| SignalCodec.ExtractMotorola | task3_can_decoder/src/signal_codec.cpp:17-27 | the MSB-first loop computes a field of the big-endian number for any start and length, bits behind the payload being skipped and bits before it zero |
| SignalCodec.BitOfLE | task3_can_decoder/include/signal_codec.hpp:17-21 | bit k of the little-endian number is bit k%8 of byte k/8 |
| SignalCodec.BitOfBE | task3_can_decoder/include/signal_codec.hpp:23-30 | bit k from the top of the big-endian number is bit 7-k%8 of byte k/8 |
| SignalCodec.ByteOrdersAreDual | task3_can_decoder/src/signal_codec.cpp:8-27 | Motorola on a payload is Intel on its reversed bytes at start 64-start-len |
| SignalCodec.OverrunIsTruncated | task3_can_decoder/src/signal_codec.cpp:17-27 | a Motorola signal past the payload, at either end, is its part inside the payload |
| SignalCodec.ExtractSigned | task3_can_decoder/src/signal_codec.cpp:31-43 | the two's-complement value in [-2^(len-1), 2^(len-1)), or the 64-bit cast for unsigned and full-width signals |
| SignalCodec.OverrunSign | task3_can_decoder/src/signal_codec.cpp:31-43 | a signed Motorola signal not within the payload is negative if and only if it covers the whole payload and the payload's first bit is set |
| SignalCodec.DecodePhysical | task3_can_decoder/src/signal_codec.cpp:45-50 | scale and offset applied to the signed reading exactly when the signal is signed |
| SignalCodec.PhysicalIsLinear | task3_can_decoder/src/signal_codec.cpp:45-50 | one step of the raw number is one scale and zero is the offset |
| SignalPacking.RawIsDeterminedByItsBits | task3_can_decoder/src/signal_codec.cpp:5-29 | two payloads give a signal one value if and only if they agree on its own bits |
| FrameReadings.RawIffHolds | task3_can_decoder/src/signal_codec.cpp:5-29 | the value extracted is the one number of that many bits whose bits are those of the payload bytes at the signal's positions |
| SignalPacking.PackThenExtract | task3_can_decoder/src/signal_codec.cpp:5-29 | extraction inverts packing in both byte orders |
| SignalPacking.ExtractThenPack | task3_can_decoder/src/signal_codec.cpp:5-29 | packing inverts extraction: the payload is unchanged |
| SignalPacking.PackKeepsOtherBits | task3_can_decoder/src/signal_codec.cpp:5-29 | packing changes no bit outside the signal |
| SignalPacking.PackKeepsOtherSignals | task3_can_decoder/src/signal_codec.cpp:5-29 | packing one signal leaves the value of every disjoint one |
| SignalPacking.PackAllThenDecode | task3_can_decoder/src/signal_codec.cpp:5-50 | every signal of a frame packed from pairwise disjoint signals decodes to its value, signed ones exactly |
| SignalPacking.PackAllThenDecodePhysical | task3_can_decoder/src/signal_codec.cpp:45-50 | every signal of a packed frame decodes to its number times scale plus offset, from which the number can be told unless the scale is zero |
| SignalPacking.PackAllKeepsOthers | task3_can_decoder/src/signal_codec.cpp:5-29 | a signal disjoint from all packed ones keeps its value |
| DiagnosticsEngine.Engine.constructor | task3_can_decoder/include/diagnostics.hpp:54 | a new engine knows nothing of any ID |
| DiagnosticsEngine.Engine.OnKnownFrame | task3_can_decoder/src/diagnostics.cpp:13-65 | all maps hold what the history with this frame determines, for every ID, and the anomalies are the gap and then the mismatch of this frame, with its message's ID and name and its time |
| DiagnosticsEngine.Engine.Record | task3_can_decoder/src/diagnostics.cpp:13-65 | the frame changes the entry of its own ID only |
| DiagnosticsEngine.Engine.CheckCounter | task3_can_decoder/src/diagnostics.cpp:18-34 | a gap is reported exactly when the last counter's successor modulo 16 differs; the counter is remembered |
| DiagnosticsEngine.Engine.CheckChecksum | task3_can_decoder/src/diagnostics.cpp:36-59 | a mismatch is reported exactly when the XOR of all eight bytes is not zero |
| DiagnosticsEngine.Engine.OnUnknownFrame | task3_can_decoder/src/diagnostics.cpp:67-73 | one more unknown frame, reported with its ID and time and no name, and no ID touched |
| DiagnosticsEngine.Engine.CheckTimeouts | task3_can_decoder/src/diagnostics.cpp:75-98 | every database ID's flag is set to overdue, its rising edge counted and reported in ID order with ID, name and time, and no other ID touched |
| DiagnosticsEngine.Engine.CheckOne | task3_can_decoder/src/diagnostics.cpp:77-96 | one ID's edge: counted only when overdue and not flagged before |
| DiagnosticsEngine.Engine.IsCurrentlyTimedOut | task3_can_decoder/src/diagnostics.cpp:100-107 | overdue by the history; never seen is overdue, not in the database is not |
| DiagnosticsLaws.RisesAreEdges | task3_can_decoder/src/diagnostics.cpp:75-98 | in every history timeout_events is the number of rising edges of the segments, and the flag is up exactly when the last check of the last segment was overdue |
| DiagnosticsLaws.RisesFollowSegments | task3_can_decoder/src/diagnostics.cpp:75-98 | in every history timeout_events is at least the number of silent segments, and equal to it if and only if no segment has a check in time between two overdue ones |
| DiagnosticsLaws.TimeoutsAreSilentSegments | task3_can_decoder/src/diagnostics.cpp:75-98 | while the checks of each segment run forward in time timeout_events is the number of inter-frame segments with a check later than last + 3 periods, at most frames + 1 |
| DiagnosticsLaws.BackwardChecksRepeatTimeouts | task3_can_decoder/src/diagnostics.cpp:75-98 | one frame and five checks back and forth give three timeouts: the failing side of RisesFollowSegments |
| DiagnosticsLaws.FlagAgreesWithQuery | task3_can_decoder/src/diagnostics.cpp:95-107 | after each check the stored flag and isCurrentlyTimedOut agree for every ID |
| DiagnosticsLaws.ByteAlignedSignalIsTheByte | task3_can_decoder/src/diagnostics.cpp:37-45 | a byte-aligned 8-bit signal is byte start_bit/8 in both byte orders |
| DiagnosticsLaws.BadSumIsAMismatch | task3_can_decoder/src/diagnostics.cpp:36-59 | a checksum fault is an extracted checksum that is not the XOR of the other seven bytes |
| DiagnosticsLaws.InterleavingDoesNotMatter | task3_can_decoder/src/diagnostics.cpp:13-98 | what is kept for an ID equals that of the history with other IDs' frames removed |
| DiagnosticsLaws.CountsAreReports | task3_can_decoder/src/diagnostics.cpp:13-98 | counter, checksum and timeout counts of an ID are the numbers of anomalies of that kind ever reported for it |
| DiagnosticsLaws.Replay | task3_can_decoder/src/diagnostics.cpp:13-98 | any sequence of calls on a new engine returns the anomalies its history determines; frames_received is the number of an ID's frames, each other count the number of its anomalies of that kind, and the unknown count that of unknown frames |
| FrameReadings.FindSignalFinds | task3_can_decoder/include/dbc_database.hpp:29-34 | the first signal with the name, or none if no signal has it |
| FrameReadings.CastMeans | task3_can_decoder/src/diagnostics.cpp:21 | the counter is the raw value less a multiple of 2^32, in the range of int |
| FrameReadings.ExpectedMeans | task3_can_decoder/src/diagnostics.cpp:24 | the expected counter is the successor's remainder by 16, negative for a negative successor |
| FrameReadings.FeedTwo | task3_can_decoder/src/diagnostics.cpp:13-59 | of two frames of a message fed in a row the second raises a gap if and only if the bits of its first signal named counter are not the successor modulo 16 of the first frame's, and, if a signal is named checksum, a mismatch if and only if some bit position has an odd number of ones over the eight bytes |
| SilentMessages.MissedOnce | task3_can_decoder/src/diagnostics.cpp:75-98 | while no frame of a listed message has come, its flag is up and timeout_events is 1 exactly when any check has been made |
| SilentMessages.CheckUnheard | task3_can_decoder/src/diagnostics.cpp:75-107 | of the class: a check before the first frame reports the message missing if it is the first check, leaves timeout_events at 1, and isCurrentlyTimedOut is true at every time |
| SilentMessages.FirstSegment | task3_can_decoder/src/diagnostics.cpp:80-86 | the segment before the first frame is silent if and only if it has a check |
| SilentMessages.FrameThenAsk | task3_can_decoder/src/diagnostics.cpp:100-107 | behind a frame isCurrentlyTimedOut is true exactly at times more than three periods after its timestamp |
| SilentMessages.AskUnlisted | task3_can_decoder/src/diagnostics.cpp:100-107 | an ID not in the database is never timed out |
| LossDetection.GapIffNotMultipleOf16 | task3_can_decoder/src/diagnostics.cpp:18-34 | a burst of losses raises a counter gap if and only if its length is not a multiple of 16 |
| LossDetection.CounterFaultsAreVisibleBursts | task3_can_decoder/src/diagnostics.cpp:18-34 | over any received subsequence counter_faults is the number of bursts not a multiple of 16 |
| LossDetection.OverdueCheckRaises | task3_can_decoder/src/diagnostics.cpp:75-98 | a check later than last + 3 periods, with no frame of the ID since: it or an earlier check behind that frame raises the timeout |
| LossDetection.EveryBurstIsDetected | task3_can_decoder/src/diagnostics.cpp:18-96 | between a frame and the next received of its ID, in any history, a burst is reported for that ID, as a counter gap with the second frame or a timeout before it, when its length is not a multiple of 16 or a check between came later than last + 3 periods |
| LossDetection.DetectedIff | task3_can_decoder/src/diagnostics.cpp:18-96 | and only then: a gap or timeout is reported between the two frames if and only if the length is not a multiple of 16 or such a check was made |
| LossDetection.FaultsCoverBursts | task3_can_decoder/src/diagnostics.cpp:18-96 | over a whole history counter faults and timeouts together are at least the loss bursts, if such a check was made in each burst whose length is a multiple of 16 |
| VehicleState.VehicleStateManager.UpdateGps | task2_sensor_aggregator/src/vehicle_state.cpp:5-10 | sample, receive time and source timestamp of the GPS change together, the other sensors not at all |
| VehicleState.VehicleStateManager.UpdateImu | task2_sensor_aggregator/src/vehicle_state.cpp:12-17 | the same for the IMU |
| VehicleState.VehicleStateManager.UpdateEncoder | task2_sensor_aggregator/src/vehicle_state.cpp:19-24 | the same for the wheel encoder |
| VehicleState.VehicleStateManager.TakeSnapshot | task2_sensor_aggregator/src/vehicle_state.cpp:26-46 | each sensor's sample and timestamp, stale when empty or older than 500, 50 and 100 ms, in nanoseconds of the clock |
| ReplayProducer.SensorReplayProducer.constructor | task2_sensor_aggregator/src/sensor_producer.cpp:7-17 | the events are a permutation of those given, in order of timestamp, and no stall is set |
| ReplayProducer.SensorReplayProducer.InjectStall | task2_sensor_aggregator/src/sensor_producer.cpp:19-22 | sets the time and duration of the stall |
| ReplayProducer.OffsetGrows | task2_sensor_aggregator/src/sensor_producer.cpp:54-59 | truncation by any positive speed keeps the order of due times, for negative timestamps too |
| ReplayProducer.OffsetTruncates | task2_sensor_aggregator/src/sensor_producer.cpp:54-59 | the offset is the timestamp divided by the speed factor, truncated toward zero |
| ReplayThread.ThreadStepKeeps | task2_sensor_aggregator/src/sensor_producer.cpp:37-70 | every step of run keeps order, due times, stall and stop accounting of its producer |
| ReplayThread.ResumedOriginIsLate | task2_sensor_aggregator/src/sensor_producer.cpp:52-59 | re-anchoring makes the stalled event due at the resume time and no later event earlier |
| ReplayThread.RankFalls | task2_sensor_aggregator/src/sensor_producer.cpp:37-70 | every step of run brings its producer nearer the end |
| ReplayThread.ReadyMoves | task2_sensor_aggregator/src/sensor_producer.cpp:47-62 | once the clock has passed a wait's deadline the producer can go on without any notification |
| ReplayRun.Runner.Run | task2_sensor_aggregator/src/sensor_producer.cpp:37-70 | in any environment the loop's fields end where the environment leads the modelled producer, which is done |
| ReplayRun.Runner.ServeEvent | task2_sensor_aggregator/src/sensor_producer.cpp:41-66 | one turn takes the modelled producer from the loop head to the head of the next event, or out of the loop with a stop seen |
| ReplayRun.Runner.StallOut | task2_sensor_aggregator/src/sensor_producer.cpp:47-56 | the stall ends re-anchored at the moment of resuming and before the event's wait, or out of the loop with a stop seen |
| ReplayRun.Runner.Resume | task2_sensor_aggregator/src/sensor_producer.cpp:51-56 | behind the stall the loop is left if and only if a stop was requested; otherwise the replay origin makes the event due at this moment |
| ReplayRun.Runner.AwaitTarget | task2_sensor_aggregator/src/sensor_producer.cpp:58-65 | goes on to the update only when the target has passed and no stop was seen, and leaves the loop only with a stop seen |
| ReplayRun.Runner.Apply | task2_sensor_aggregator/src/sensor_producer.cpp:66 | the event is applied once, for its target, and the fields follow the modelled producer to the next event |
| ReplayRun.OutcomeIsARun | task2_sensor_aggregator/src/sensor_producer.cpp:37-70 | every environment's outcome is a run of the concurrent machine, so every promise about schedules holds of it |
| ReplayRun.OutcomeMeaning | task2_sensor_aggregator/src/sensor_producer.cpp:40-69 | in every environment the producer finishes having applied a prefix of its events, each with the due time the replay origin and the stall give it and not before that time; all of them if no stop comes |
| ReplayRun.Start | task2_sensor_aggregator/src/sensor_producer.cpp:24-70 | a started producer applies what the environment's outcome says: the front of its events in their order, which is timestamp order when they are sorted, each at or after its due time, all of them when never stopped; an event is due its timestamp over the speed factor, in whole milliseconds, after the start, and behind a stall by the same measure after the stalled event, which is due when the stall ends |
| ReplayRun.Replay | task2_sensor_aggregator/src/sensor_producer.cpp:7-70 | made of events in any order, told to stall and started, a producer applies events in timestamp order, each at most as often as given, and exactly those given when it is never stopped |
| ReplaySystem.RunKeeps | task2_sensor_aggregator/src/vehicle_state.cpp:5-46 | every schedule keeps the lock exclusive, the slots whole outside it, and all snapshots atomic |
| ReplayLaws.ProducersApplyInOrder | task2_sensor_aggregator/src/sensor_producer.cpp:40-69 | the applied events are a prefix of the sorted ones, and finished means all applied or stop requested |
| ReplayLaws.ProducersApplyOnTime | task2_sensor_aggregator/src/sensor_producer.cpp:58-66 | no event is applied before it is due, nor before its predecessor |
| ReplayLaws.StallsKeepSilence | task2_sensor_aggregator/src/sensor_producer.cpp:47-66 | the stall precedes the first event that calls for it, leaves at least its duration without an event, and nothing after it is due before it ended |
| ReplayLaws.StallsShowStale | task2_sensor_aggregator/src/sensor_producer.cpp:43-56 | a snapshot taken more than the sensor's threshold after its stall began and before it resumed shows it stale |
| ReplayLaws.StallsAreNotSkipped | task2_sensor_aggregator/src/sensor_producer.cpp:47-56 | an event at or after the configured time is applied only by a producer that has stalled |
| ReplayLaws.StallsHappenOnce | task2_sensor_aggregator/src/sensor_producer.cpp:47-48 | no run changes or repeats a stall that has begun |
| ReplayLaws.AtMostOneAfterStop | task2_sensor_aggregator/src/sensor_producer.cpp:28-31 | after requestStop a producer applies at most one more event, in every schedule |
| ReplayLaws.NoneAfterStop | task2_sensor_aggregator/src/sensor_producer.cpp:58-66 | and none if the producer was not already past its last look at the flag |
| ReplayLaws.ProducersTerminate | task2_sensor_aggregator/src/sensor_producer.cpp:37-70 | a producer of n events has finished after 12(n+1) turns given when its deadline has passed, with notifications lost or not |
| ReplayLaws.NobodyWaitsForever | task2_sensor_aggregator/src/sensor_producer.cpp:47-66 | a producer not done is ready but for its deadline or the lock, and whoever holds the lock can move toward releasing it |
| ReplayLaws.SnapshotsAreConsistent | task2_sensor_aggregator/src/vehicle_state.cpp:26-46 | each snapshot pairs a sensor's sample with the timestamp of the same event, has nonnegative age, and is stale exactly when empty or older than the threshold |
| ReplayLaws.SnapshotsNeverGoBack | task2_sensor_aggregator/src/vehicle_state.cpp:26-46 | once a snapshot shows a sample no later one shows an earlier timestamp, and a timestamp decreases only from the -1 of no sample to one below -1 |
| SnapshotOrder.NegativeTimestampGoesBack | task2_sensor_aggregator/src/vehicle_state.cpp:26-46 | for every sensor whose first timestamp is below -1, among any others, a schedule with a snapshot that shows -1 and a later one that shows it |
| SnapshotOrder.NeverBackIff | task2_sensor_aggregator/src/vehicle_state.cpp:26-46 | no schedule shows the timestamp of a sensor with a sorted log go back if and only if the log is empty or begins at -1 or later |
| ReplayAlone.UpdateAlone | task2_sensor_aggregator/src/vehicle_state.cpp:5-10 | five undisturbed steps of a producer at its update leave its slot whole with sample, time and timestamp of one event, the event applied and the lock free |
| ReplayAlone.SnapshotAlone | task2_sensor_aggregator/src/vehicle_state.cpp:26-46 | the reader's undisturbed steps add the snapshot of one moment over all sensors and release the lock |
| ReplayAlone.UpdateByManager | task2_sensor_aggregator/src/vehicle_state.cpp:5-24 | each update method of the manager leaves the slots those five steps leave |
| ReplayAlone.SnapshotByManager | task2_sensor_aggregator/src/vehicle_state.cpp:26-46 | the manager's snapshot is the one the reader's steps take |
| StopWakeup.StopWakesUnlessBlocking | task2_sensor_aggregator/src/sensor_producer.cpp:28-31 | whatever steps the wait takes and whenever it wakes spuriously, it returns before its deadline if and only if the notification does not fall between its test of the flag and its block, or a spurious wake-up finds it blocked afterwards |
| StopWakeup.PromptStopWakesIff | task2_sensor_aggregator/src/sensor_producer.cpp:28-31 | with nothing between the two, a stop ends a wait before its deadline if and only if it is blocked, has not yet tested the flag or is over, or a spurious wake-up comes |
| StopWakeup.LostStopLastsToTheDeadline | task2_sensor_aggregator/src/sensor_producer.cpp:58-62 | a wait whose notification was lost stays blocked while there is no spurious wake-up, and the deadline ends it |

## Left out

- The three `main.cpp` drivers: argument parsing, printing, CSV export and real sleeping; their replay loops are arbitrary sequences of calls here.
- `csv_reader.cpp`, `frame_log_reader.cpp` and file loading in `dbc_database.cpp`: input files and library number parsing; messages and signals are given data.
- `task3_can_decoder/src/vehicle_state.cpp`: assigns decoded signals to fields by name; one branch tells all there is.
- `JsonValue::has` and `at`: single map lookups.
- JsonCursor.Parser.ParseNumber: keeps the number as its lexeme and does not model the `double` value or the range error `std::stod` raises for a magnitude it cannot represent; the lexemes it cannot start to convert are modelled.
- SignalCodec.DecodePhysical: computes over the reals, without the rounding of `double`.
- SignalCodec.ExtractRaw: Intel signals that meet a bit position from -7 to -1, where the C++ shift amount is negative, are excluded by a precondition; bit positions are unbounded integers, while the sum of start and index is an `int` in C++.
- SignalCodec.ExtractSigned: a nonnegative length is a precondition for a signed signal, because the C++ shift by length - 1 is undefined below zero.
- DiagnosticsEngine.Engine.CheckTimeouts: compares with the integer 3 * period_ms instead of the `double` threshold; the detail texts of anomalies are not modelled.
- DiagnosticsEngine.Engine.CheckCounter: the successor of a counter of 2^31 - 1, an overflow in C++, is taken in unbounded integers.
- DiagnosticsEngine.Engine.CheckChecksum: a checksum start bit outside the payload, for which the C++ index is out of range, is a precondition.
- Overflow of the 64-bit statistics counters: they are natural numbers.
- UartStream.UartParser.FeedCrcHi: the callback is the log `delivered`, each packet with a copy of its payload; a callback that feeds the parser again is not modelled. `length_` is a natural number at most 255.
- ReplayProducer.SensorReplayProducer.constructor: the order of events with equal timestamps, which `std::sort` leaves open, is not promised.
- Thread internals: `SensorReplayProducer::run` is modelled twice, as a loop in `ReplayRun` and, beside other threads, as the steps of `ReplayMachine.StepThread`. Steps are as coarse as one condition, one wait or one shared field; the internals of threads, mutexes and condition variables are not modelled, nor is memory reordering, which the single lock and the sequentially consistent atomics rule out.
- `start` and `join`: a producer's steps begin with the schedule, and joining is waiting for `finished`.
- The speed factor is a positive rational; times are integers of the clock's nanoseconds.
- More than one reader at a time: readers exclude each other by the same lock.
