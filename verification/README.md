# Spiketrace in Dafny

Spiketrace is a Linux daemon that samples the system about once a second, keeps the last minute in a
ring buffer, looks for CPU, memory and swap anomalies, and writes a JSON dump when it finds one. A
command-line viewer reads the dumps back, and a log manager prunes them. This project models that
path from end to end and proves what it guarantees, for every input and over whole runs:

- **JSON.** `JsonValue` holds documents as trees and their compact text. `JsonWriter` is the growing
  buffer with its comma flag and sticky error; `JsonLexer` says what the hand-written reader makes of
  a text and `JsonReader` is that reader, field by field. `JsonRoundTrip` and `JsonNumber` prove that
  one undoes the other, and exactly where it does not. `Rfc8259` is a parser written from the grammar
  of RFC 8259 (sections 2 to 7) alone, to which the printed documents are compared; `AnyJson` compares
  the reader to it on every text of the standard, whoever wrote it.
- **Dumps.** `SpikeDump` is the document of a dump and the writer calls that produce it, `DumpViewer`
  the loops of the viewer. `DumpFigures` says what each member of a dump tells, by its name.
  `DumpReadable`, `DumpRoundTrip`, `DumpLimits`, `DumpEnds`, `DumpJson` and
  `DumpSize` say which dumps read back, what the viewer then shows, on which it never ends, which dumps
  are standard JSON, and how long they get.
- **Detection.** `Cooldown` and `AnomalyDetector` are the detector and its 64-slot cooldown table;
  `Alarms` says when it raises an alarm in terms of the settings and the readings.
  `DetectorRuns` and `Baselines` are about whole runs of it: rate limits, refinement of an unbounded
  table, when alarms fall silent. `ProcTracker` is the bounded buffer over all processes, its two top
  lists and the baselines; `Sampling` puts its runs together with those of the detector, and
  `CooldownLimit` and `KeyLimit` say how far the cooldown reaches in such runs. `ConfigValidation` is
  the validation that those statements take their bounds from.
- **The daemon.** `RingBuffer` is the snapshot history and the search for the start of a spike.
  `Daemon` is the main loop as a transition system over detector, history and dumps, where the
  statements about the parts come together; `DaemonDumps` follows a finding to the document and to what
  the viewer shows of it, and `OriginLimit` the origin index over the runs of the daemon with its sampler.
- **Around it.** `LogManager` is the retention of old dumps, `Sorting` the contract of the library sort
  that it and the tracker call.

Objects that the C code updates in place are classes (`Writer`, `Reader`, `Detector`, `Ring`, `Loop`,
`Tracker`, `Manager`, `ConfigStore`); their methods are proved against functions or relations on
values, and the lemmas are about those.

What turned out not to hold, each with the exact condition under which it does:

- The viewer ends on a dump exactly when it can read it: when every written snapshot has some total RAM
  (otherwise the used percentage is printed as `nan` or `inf`) and every command line decodes to at most
  254 bytes. The sampler's buffer holds 255, so such command lines occur; on every other dump no call of
  the reader ever finds the end of the text (`DumpReadable.DumpReadsBackExactly`,
  `DumpEnds.DumpEndsExactly`).
- Integers read back exactly when they are representable as a double, so the time of a dump for the
  first 104 days after boot; control characters other than newline, carriage return and tab never do
  (`JsonNumber.ReadsBackInt`, `DumpLimits.TimeShownExactly`, `JsonRoundTrip.EscapeInversion`). A reader
  that keeps to the standard gets all of them back (`Rfc8259.ConformsExactly`).
- The hand-written reader gets the tokens of a text that is JSON by the standard exactly when every
  string and name in it has at most 254 characters and none is written with the escapes `\b`, `\f` or `\u`
  (`AnyJson.ReadsJsonExactly`).
- Line 201 of the repository's README.md promises a minimum time between triggers of the same process.
  - For a cooldown key that triggered less than a cooldown ago, it is kept exactly as long as fewer than
    64 other keys have triggered since (`DetectorRuns.CoolingExactly`; a run with 64 is
    `KeyLimit.SixtyFourKeysBreakIt`).
  - For a process, that is, for two reports of one pid, it is kept in every run, but for those 64 keys,
    exactly when processes are not aggregated and the scope is the process or the system
    (`CooldownLimit.KeepsProcessesExactly`). Under the other settings a process can be reported again
    within the cooldown and with nothing in between: when it is no longer new (`CooldownLimit.NewThenOld`),
    when its parent has died (`CooldownLimit.Orphaned`), or when it has changed its group
    (`CooldownLimit.MovedOut`).
  - Under the additional condition that the parent and the group of the process stay the same between
    the two reports, it is kept exactly when processes are not aggregated or the scope is the process
    group (`CooldownLimit.KeepsWhileSameExactly`).
- Line 196 of it says that a process triggers when its share rises by the threshold above its baseline.
  The baseline takes in the current share first, so the rise has to be the threshold divided by one less
  the smoothing factor, more than 14 points by default where the setting says 10
  (`Sampling.DeltaSpikesExactly`, `Sampling.DefaultRise`).
- Line 197 of it has a new process trigger immediately. It has no share in its first collection and is no
  longer new after its second, so it is reported as new in its second or never
  (`Sampling.NewInSecondOnly`).
- `context_snapshots_per_dump` may be up to 60, but a dump holds ten snapshots. The origin index points
  into the written array in every run of the daemon, through any reloads and with whatever its sampler
  reads, exactly when the setting is at most ten (`OriginLimit.OriginAlwaysInside`). With a larger one
  and everything else by default, it does not for a process that spikes after ten seconds at 2 %
  (`OriginLimit.BurstOutside`).
- A finding whose detection is enabled is dumped exactly when nothing more urgent was found, not even
  something that is disabled (`Daemon.DumpsExactly`).
- A process keeps its baseline and its count exactly as long as the tracker's buffer keeps it: always up
  to 512 processes, and of a first collection only the first 512 (`ProcTracker.CountsRounds`,
  `ProcTracker.SmallRoundKeeps`, `ProcTracker.FirstRoundKeeps`).
- Retention by size is what it says for fewer than 2^64 bytes, where the sum of the sizes does not wrap
  around (`LogManager.SmallTotalsAgree`). From there on the total stays above the limit, at least as
  long as no single file takes the bytes freed past 2^64 (`LogManager.LargeTotalsStay`,
  `LogManager.SizeMetExactly`, `LogManager.LargeTotalsWrap`).
- Validation calls what it does clamping, but replaces a setting out of bounds by its default
  (`ConfigValidation.ConfigStore.Validate`).

## Model

| member | source | states |
|---|---|---|
| `JsonWriter.DoubledCapacity` | src/json_writer.c:15-36 | doubling a valid capacity below 1 MiB gives a valid one; every valid capacity is 64 KiB times a power of two |
| `JsonWriter.CapacityRange` | src/json_writer.c:15-36 | a valid capacity lies between 64 KiB and 1 MiB |
| `JsonWriter.WroteThen` | src/json_writer.c:39-58 | appending two payloads one after the other is appending their concatenation, up to a sticky overflow that leaves a prefix |
| `JsonWriter.WroteStopped` | src/json_writer.c:39-58 | once an append has failed, what is in the buffer stays a prefix of any longer intended text |
| `JsonWriter.Writer.constructor` | src/json_writer.c:137-158 | an empty buffer of 64 KiB, no comma due, no error |
| `JsonWriter.Writer.GrowBuffer` | src/json_writer.c:15-36 | doubles the capacity and keeps what is written, or refuses exactly when the buffer has 1 MiB |
| `JsonWriter.Writer.Append` | src/json_writer.c:39-58 | the chunk is appended whole, or the error becomes permanent and nothing is; the terminator always fits |
| `JsonWriter.Writer.MaybeComma` | src/json_writer.c:66-71 | writes a comma exactly when one is due |
| `JsonWriter.Writer.AppendEscaped` | src/json_writer.c:74-135 | appends the quoted string with every special character escaped, or a prefix of it and the sticky error |
| `JsonValue.HexIsLowerCase` | src/json_writer.c:74-135 | codes of control characters have lower-case digits |
| `JsonWriter.Writer.BeginObject` | src/json_writer.c:174-186 | a comma if due, the brace, and no comma due after it |
| `JsonWriter.Writer.EndObject` | src/json_writer.c:188-195 | the closing brace, and a comma due after it |
| `JsonWriter.Writer.BeginArray` | src/json_writer.c:197-209 | a comma if due, the bracket, and no comma due after it |
| `JsonWriter.Writer.EndArray` | src/json_writer.c:211-218 | the closing bracket, and a comma due after it |
| `JsonWriter.Writer.Key` | src/json_writer.c:220-237 | a comma if due, the quoted key and a colon, and no comma due before the value |
| `JsonWriter.Writer.String` | src/json_writer.c:239-256 | a comma if due and the quoted string |
| `JsonWriter.Writer.Int` | src/json_writer.c:258-296 | a comma if due and the decimal text; signed and unsigned 64-bit values always fit the scratch buffer |
| `JsonWriter.Writer.Double` | src/json_writer.c:298-316 | a comma if due and the two-decimal text |
| `JsonWriter.Writer.Bool` | src/json_writer.c:318-334 | a comma if due and the literal |
| `SpikeDump.WriteTree` | src/json_writer.c:174-334 | for every well-nested call sequence the buffer gains exactly the compact text of the tree: the flag alone places every comma |
| `SpikeDump.BuildDump` | src/spike_dump.c:842-914 | the text of a dump is the printed document, or nothing when there is no snapshot or the buffer overflowed |
| `DumpFigures.DumpSays` | src/spike_dump.c:105-914 | in the document of any dump each member found under its name says what it is named after: readings, whole MiB, nearest hundredths, seconds since boot and since the trigger, lists entry by entry; and a parser that keeps to the standard gets these members back |
| `DumpFigures.MemFigures` | src/spike_dump.c:175-352 | the memory object: each reading in KiB and in whole MiB, used swap as the difference, and the used percentage as the hundredths nearest to 100 times used over total |
| `DumpFigures.UsedPctFalls` | src/spike_dump.c:342-350 | of the same total, the more is available the smaller that percentage, from 100 when nothing is to 0 when all is |
| `DumpFigures.TriggerFigures` | src/spike_dump.c:397-653 | the trigger object, each member by its name, negative differences in whole MiB toward zero |
| `DumpFigures.ScopeReadsBack` | src/config.c:550-561 | the scope a dump names is the one that this name selects in the configuration |
| `DumpFigures.ParsedMember` | src/spike_dump.c:842-914 | looking a member up in what the standard's parser reads back gives what looking it up in the document gives |
| `DumpSize.DumpFits` | src/json_writer.c:15-36 | with at most 256 cores, ten processes a list and ten snapshots no dump is as long as the largest buffer |
| `DumpSize.DumpText` | src/spike_dump.c:842-914 | so the writer overflows on no dump: there is a text for every dump with a snapshot |
| `Rfc8259.StringRead` | src/json_writer.c:74-135 | by section 7 every escaped string means the string it was made from, whatever it contains |
| `Rfc8259.NumeralRead` | src/json_writer.c:258-316 | by section 6 printed integers and two-decimal numbers are numbers, without leading zeros |
| `Rfc8259.ValueRead` | src/json_writer.c:174-334 | a printed tree followed by anything that may follow is one value of the grammar and means the tree, exactly when it has no non-finite number |
| `Rfc8259.ConformsExactly` | src/json_writer.c:174-334 | a printed document is JSON exactly when all its numbers are finite, and a parser that keeps to the standard gets back every name, string and number |
| `DumpJson.DumpIsJsonExactly` | src/spike_dump.c:842-914 | a dump is JSON exactly when every snapshot in it has RAM, however long its command lines are |
| `JsonLexer.Lex` | src/json_reader.c:122-220 | every token but an error or the end strictly advances the position |
| `JsonReader.Reader.SkipWhitespace` | src/json_reader.c:13-22 | stops at the first character that is no space |
| `JsonReader.Reader.ParseString` | src/json_reader.c:25-65 | success, the buffer's contents and the position are those of decoding into at most 255 bytes |
| `JsonReader.Reader.ParseNumber` | src/json_reader.c:68-113 | consumes the longest number at the position and keeps its first 63 characters |
| `JsonReader.Reader.NextToken` | src/json_reader.c:122-220 | one call moves the reader to the specified next state: token, string or number, position and depth |
| `JsonReader.Reader.SkipValue` | src/json_reader.c:222-246 | one call of the skip moves the reader to the specified state |
| `JsonRoundTrip.SeenIsIdentity` | src/json_reader.c:25-65 | what the reader makes of an escaped string is the string exactly when it has no control character besides newline, return and tab |
| `JsonRoundTrip.EscapeInversion` | src/json_reader.c:25-65 | decoding an escaped string succeeds exactly when the result has at most 254 bytes, and returns the original exactly for lossless strings of at most 254 bytes |
| `JsonRoundTrip.StreamTree` | src/json_reader.c:122-220 | in any context the tokenizer turns a printed tree into the tree's tokens and goes on behind it |
| `JsonRoundTrip.TokenRoundTrip` | src/json_reader.c:122-220 | the tokens of a printed document are exactly those of its tree, keys told apart from strings |
| `JsonRoundTrip.CleanExactly` | src/json_reader.c:122-220 | a printed document reads to its end without an error exactly when its strings decode to at most 254 bytes and its numbers are finite |
| `JsonRoundTrip.DepthReturnsToZero` | src/json_reader.c:122-220 | reading a printed document ends at the end of the text with depth zero |
| `JsonRoundTrip.SkipExact` | src/json_reader.c:222-246 | a skip called on the first token of any printed value stops exactly behind it with the depth from before it |
| `AnyJson.StringAgreesExactly` | src/json_reader.c:25-65 | a string of the standard is decoded to what it means exactly when it has at most 254 characters and none of the escapes b, f and u; otherwise decoding fails or gives something else |
| `AnyJson.NumberAgrees` | src/json_reader.c:68-113 | of every number of the standard the reader takes all characters and no more |
| `AnyJson.ReadsJsonExactly` | src/json_reader.c:122-220 | every text that is JSON by the standard, with any spacing, nesting and literals, gives exactly the tokens of its value if and only if its strings are of that kind, and then no error |
| `JsonNumber.RoundIntExact` | src/json_reader.c:252-258 | rounding to a double keeps exactly the representable integers |
| `JsonNumber.RoundsToNearest` | src/json_reader.c:252-262 | rounding goes to the nearest multiple of the spacing of doubles, ties to even |
| `JsonNumber.UlpLeaves53` | src/json_reader.c:252-262 | that spacing is the one that leaves 53 binary digits |
| `JsonNumber.ReadsBackInt` | src/json_reader.c:252-258 | an integer reads back rounded to a double, so exactly when it is representable |
| `JsonNumber.ReadsBackDec` | src/json_reader.c:260-262 | a two-decimal number within the exact range of a double reads back as its printed value |
| `DumpViewer.ParseTrigger` | src/spktrace_view.c:85-133 | the loop over the trigger's fields, which stops at the first closing brace, computes the specified state and record |
| `DumpViewer.ParseProcEntry` | src/spktrace_view.c:136-175 | the loop over one process entry computes the specified state and record |
| `DumpViewer.ParseProcsArray` | src/spktrace_view.c:178-191 | at most ten entries of a list are read, as specified |
| `DumpViewer.AtMostTen` | src/spktrace_view.c:178-191 | no list that is shown has more than ten entries, however many the text has |
| `DumpViewer.CastsKeepLowBits` | src/spktrace_view.c:85-175 | numbers out of the range of a field keep their low 32 bits |
| `DumpViewer.ViewDump` | src/spktrace_view.c:270-314 | on any text whose end the reader reaches the viewer's loop ends and computes the specified summary |
| `DumpReadable.ReadableTreeExactly` | src/spike_dump.c:23-653 | all strings of a dump but command lines are short enough, and all numbers but the used percentage finite, whatever the snapshots are |
| `DumpReadable.DumpReadsBackExactly` | src/spike_dump.c:846-914 | the text of a dump reads to its end without an error exactly when every written snapshot has RAM and every command line decodes to at most 254 bytes |
| `DumpRoundTrip.TriggerRead` | src/spktrace_view.c:85-133 | the trigger loop recovers every trigger field although it stops at the brace of the nested policy |
| `DumpRoundTrip.ProcsRead` | src/spktrace_view.c:178-191 | the list loop recovers every entry of a written process list and stops behind its bracket |
| `DumpRoundTrip.ViewerShowsDump` | src/spktrace_view.c:270-314 | on the text of any readable dump the viewer shows its timestamp, its trigger and both process lists of the first snapshot |
| `DumpLimits.ProcShownExactly` | src/spktrace_view.c:136-175 | which fields of an entry the viewer shows unchanged: ids always, strings exactly when lossless, memory exactly when representable, CPU to within rounding |
| `DumpLimits.TriggerShownExactly` | src/spktrace_view.c:85-133 | the same for every field of the trigger |
| `DumpLimits.TimeShownExactly` | src/spktrace_view.c:270-276 | the time of a dump is shown unchanged exactly when it is representable, so up to 2^53 ns |
| `DumpEnds.ReachesExactly` | src/spktrace_view.c:270-314 | the reader reaches the end of a text exactly when some number of calls finds it: otherwise the viewer's loop never ends |
| `DumpEnds.NeverPast` | src/json_reader.c:122-220 | whatever tokens there are in plain text, the reader does not get past a backslash, nor past a quote that closes a string it gave up on |
| `DumpEnds.CutEscaped` | src/json_reader.c:25-65 | where decoding gives up on a string that is too long: within an escape, with plain digits left of it, or between two characters |
| `DumpEnds.StuckString` | src/json_reader.c:122-220 | a string of any length that is too long keeps the reader from the end if a name in 'c' follows |
| `DumpEnds.TameEndsExactly` | src/json_reader.c:122-220 | of every tree whose over-long strings stand only there, the reader reaches the end exactly when it is readable |
| `DumpEnds.DumpEndsExactly` | src/spktrace_view.c:270-314 | some call of the reader on the text of a dump finds its end exactly when every written snapshot has RAM and every command line decodes to at most 254 bytes |
| `Cooldown.QueryAnswers` | src/anomaly_detector.c:37-59 | a query answers whether its key cools down and drops nothing but expired entries |
| `Cooldown.PurgedKeepsCooling` | src/anomaly_detector.c:37-59 | dropping expired entries changes no answer |
| `Cooldown.RecordedEntries` | src/anomaly_detector.c:61-87 | recording adds its entry, keeps keys unique and loses at most the oldest entry of a full table |
| `AnomalyDetector.PickIsArgmax` | src/anomaly_detector.c:117-165 | the chosen sample is the earliest of highest score among the valid ones above their threshold whose key is not cooling down |
| `AnomalyDetector.ArgmaxIsUnique` | src/anomaly_detector.c:117-165 | there is only one such sample |
| `AnomalyDetector.TopRss` | src/anomaly_detector.c:245-256 | the process blamed for memory is the earliest valid one using the most, none if none uses any |
| `AnomalyDetector.FindingsAreRecordable` | src/anomaly_detector.c:237-264 | from shares up to 2^52 and readings below 2^63 KiB, with no more available than there is, every report's numbers fit its record |
| `AnomalyDetector.Detector.Reset` | src/anomaly_detector.c:91-96 | back to the initial state |
| `AnomalyDetector.Detector.CooldownFind` | src/anomaly_detector.c:27-35 | the position of the first entry for a key |
| `AnomalyDetector.Detector.CooldownIsActive` | src/anomaly_detector.c:37-59 | answers for the state at the call; removes an expired entry by moving the last one into its place |
| `AnomalyDetector.Detector.CooldownRecord` | src/anomaly_detector.c:61-87 | updates the key's entry, appends one, or replaces the oldest |
| `AnomalyDetector.Detector.EvaluateCpu` | src/anomaly_detector.c:111-190 | although the scan deletes entries, it reports the sample chosen with the answers from its start, and records the key it checked |
| `AnomalyDetector.Detector.EvaluateMem` | src/anomaly_detector.c:193-274 | reports a drop or pressure exactly when one is due, and follows the baseline also while cooling down |
| `AnomalyDetector.Detector.EvaluateSwap` | src/anomaly_detector.c:277-349 | the same for used swap |
| `AnomalyDetector.Detector.Evaluate` | src/anomaly_detector.c:351-393 | all three run on every call; CPU is reported before memory before swap |
| `Alarms.MemAlarmExactly` | src/anomaly_detector.c:193-274 | a memory alarm is raised exactly when a reading came before, no alarm was raised within the cooldown, and the drop below the baseline reaches the drop threshold that is set or the used share reaches the pressure threshold; it tells these numbers, and is called a drop exactly when it is one |
| `Alarms.SwapAlarmExactly` | src/anomaly_detector.c:277-349 | a swap alarm exactly when the rise of used swap above its baseline reaches the swap threshold that is set |
| `Alarms.ReadAsSigned` | src/anomaly_detector.c:233-237 | other readings are taken modulo 2^64, as signed numbers |
| `Alarms.MemAlarmsInRun` | src/anomaly_detector.c:193-274 | over any run, an evaluation raises a memory alarm exactly when an earlier one had a reading, memory has dropped or is short, and no earlier alarm is less than a cooldown ago: so alarms are neither too frequent nor lost |
| `Alarms.SwapAlarmsInRun` | src/anomaly_detector.c:277-349 | the same for swap alarms |
| `Alarms.CpuAlarmExactly` | src/anomaly_detector.c:111-165 | a CPU alarm exactly when some valid sample reaches the threshold that is set for its age and its key is not cooling down; it is about one that exceeds what was known of it the most |
| `Alarms.ReportedKeyCools` | src/anomaly_detector.c:178-190 | for a cooldown from then on the reported key is cooling down |
| `Alarms.BaselineFollows` | src/anomaly_detector.c:200-274 | the first usable reading becomes the baseline; then it is the smoothing that is set of reading and baseline, cut off to whole KiB |
| `Alarms.CooldownIsSet` | src/spktrace.c:107-121 | the detector's cooldown is the one that is set, in whole nanoseconds |
| `DetectorRuns.EvictionTakes64` | src/anomaly_detector.c:71-84 | an entry is evicted only after 64 other keys have triggered since it was recorded |
| `DetectorRuns.RunRemembers` | src/anomaly_detector.c:37-87 | over any run the table holds last triggers only, with unique keys and at most 64 of them, and forgets one only if it expired or 64 other keys triggered since |
| `DetectorRuns.CoolingExactly` | src/anomaly_detector.c:37-87 | over any run, a key that triggered less than a cooldown ago is still cooling down exactly when fewer than 64 distinct other keys have triggered since |
| `DetectorRuns.CooldownSafety` | src/anomaly_detector.c:37-190 | two CPU triggers of one key come less than a cooldown apart only if at least 64 other distinct keys triggered strictly between them |
| `DetectorRuns.CooldownExact` | src/anomaly_detector.c:37-190 | with fewer than 64 evaluations between them they are at least a cooldown apart |
| `KeyLimit.SixtyFourKeysBreakIt` | src/anomaly_detector.c:61-87 | under validated settings, with samples the sampler makes once a second, a run in which exactly 64 other keys trigger in between and a process that was read throughout triggers again 65 seconds into a cooldown of 300 |
| `Sampling.DeltaIsDamped` | src/proc.c:350-357 | what a share exceeds its new baseline by is one less alpha times what it exceeds the previous one by |
| `Sampling.DeltaSpikesExactly` | src/anomaly_detector.c:156-163 | so a process that is no longer new passes its threshold exactly when its share is that threshold divided by one less alpha above the previous baseline |
| `Sampling.DefaultRise` | src/anomaly_detector.c:156-163 | by default that takes a rise of between 14.28 and 14.29 points, not of 10 |
| `Sampling.AllMade` | src/proc.c:340-363 | over any run of the sampler, every sample is valid and has a count, and a share only if its count is above one |
| `Sampling.NewInSecondOnly` | src/anomaly_detector.c:123-144 | over any run of sampler and detector, what is reported as a new process is in its second collection |
| `CooldownLimit.OneKeyExactly` | src/anomaly_detector.c:128-154 | two samples of a process with the same parent and group are checked under one key exactly when there is no aggregation, the group is the scope's key, or both or neither count as new |
| `CooldownLimit.OneKeyApart` | src/anomaly_detector.c:111-190 | two reports of a process under one key are a cooldown apart or have 64 other keys between them |
| `CooldownLimit.KeepsProcessesExactly` | src/anomaly_detector.c:111-190 | under validated settings that holds of every two reports of a pid, in every run on what the sampler makes, exactly when processes are not aggregated and the scope is the process or the system |
| `CooldownLimit.KeepsWhileSameExactly` | src/anomaly_detector.c:111-190 | of those whose parent and group are the same at both reports, exactly when processes are not aggregated or the scope is the process group |
| `CooldownLimit.NewThenOld` | src/anomaly_detector.c:178-186 | by default but with aggregation, a process reported as new is reported again a second later, with no other key in between |
| `CooldownLimit.Orphaned` | src/anomaly_detector.c:12-25 | by default but with the parent as scope, so is a process whose parent becomes process 1 |
| `CooldownLimit.MovedOut` | src/anomaly_detector.c:12-25 | by default but with the group as scope, with aggregation or without, so is a process that moves to a group of its own |
| `DetectorRuns.TableRefinesMap` | src/anomaly_detector.c:37-87 | as long as no live entry is evicted, every trigger of a run is the one an unbounded map from key to last trigger gives |
| `DetectorRuns.RoomLosesNothing` | src/anomaly_detector.c:61-87 | a table that is not full loses no live entry |
| `DetectorRuns.RateBound` | src/anomaly_detector.c:218-227 | firings at least a cooldown apart number at most floor(T / cooldown) + 1 in a window of length T |
| `DetectorRuns.MemRate` | src/anomaly_detector.c:218-227 | that bound holds for memory triggers in every window of every run |
| `DetectorRuns.SwapRate` | src/anomaly_detector.c:300-308 | and for swap triggers |
| `DetectorRuns.SystemTable` | src/anomaly_detector.c:12-25 | under the system scope without aggregation the table never holds more than one entry |
| `DetectorRuns.SystemCpuRate` | src/anomaly_detector.c:12-25 | and for CPU triggers under the system scope without aggregation |
| `Baselines.BaselinePurity` | src/anomaly_detector.c:193-349 | over any run both baselines are the fold of the smoothing over the usable readings since its start, whatever the samples, cooldowns and reports were |
| `Baselines.SmoothedInRange` | src/anomaly_detector.c:200-274 | a smoothed level stays between the smallest and the largest reading |
| `Baselines.LevelInRange` | src/anomaly_detector.c:193-349 | over any run each baseline lies between the smallest and the largest usable reading seen |
| `Baselines.StepFromAbove` | src/anomaly_detector.c:270-273 | towards a constant level a baseline above it comes down by at least one and not below it |
| `Baselines.StepFromBelow` | src/anomaly_detector.c:345-348 | one below it comes up by the floor of alpha times the gap, and stays exactly when that is less than one |
| `Baselines.DropsFallSilent` | src/anomaly_detector.c:208-274 | once available memory is constant, no drop alarm fires after as many evaluations as the baseline was above it, at once if there was none yet, and the baseline is then exact |
| `Baselines.SpikesFallSilent` | src/anomaly_detector.c:290-348 | once used swap is constant, no spike alarm fires after as many evaluations as the baseline was below it, at once if there was none yet, and the baseline settles less than 100 KiB below |
| `Baselines.AlarmsFallSilent` | src/config.c:856-1001 | both, for whatever settings validation leaves |
| `ConfigValidation.Validated` | src/config.c:827-1050 | whatever the settings were, they end within all bounds, with a context no larger than the ring, no more processes stored than tracked, and one detector enabled |
| `ConfigValidation.ValidatedFixesValid` | src/config.c:827-1050 | validation changes nothing exactly when the settings were valid, so a second one never does |
| `ConfigValidation.EachRepaired` | src/config.c:834-1030 | field by field, whatever the others are: a value within its bounds stays and one outside becomes its default; scope and aggregation stay |
| `ConfigValidation.CrossChecked` | src/config.c:894-1050 | the exceptions: a valid context larger than the resulting ring becomes its capacity, a valid number stored larger than the number tracked becomes that, and the toggles stay unless all are off, when all are turned on |
| `ConfigValidation.ConfigStore.Validate` | src/config.c:827-1050 | overwriting the fields one after the other, with cross-checks that read earlier fixes, leaves the validated settings |
| `ConfigValidation.DetectorConfig` | src/spktrace.c:107-121 | the detector gets smoothing of at least 0.01, thresholds of at least 1024 KiB and a cooldown between 0.1 and 300 seconds |
| `RingBuffer.RecentAfterPush` | src/ringbuf.c:41-65 | a push puts the new snapshot in front and drops at most the oldest of 60 |
| `RingBuffer.Ring.Push` | src/ringbuf.c:41-65 | the history gains the snapshot, stamped with the clock if it had no time; the array stands for its newest 60 and head is tail less count |
| `RingBuffer.StampedHasTime` | src/ringbuf.c:41-65 | a time that is known stays, and a clock that runs leaves no snapshot without one |
| `RingBuffer.Ring.GetRecent` | src/ringbuf.c:68-97 | copies exactly the newest min(n, count) snapshots, newest first, and nothing else |
| `RingBuffer.Ring.FindSpikeOrigin` | src/ringbuf.c:111-140 | returns the origin of the spike in what the ring remembers |
| `RingBuffer.OriginMeets` | src/ringbuf.c:111-140 | the origin is k exactly when the newest k+1 snapshots list the process at or above the threshold and the run of them is maximal, -1 when the newest does not |
| `RingBuffer.OriginIsUnique` | src/ringbuf.c:111-140 | no other index has that property |
| `RingBuffer.OriginAfterPush` | src/ringbuf.c:111-140 | from one snapshot to the next the origin moves back by one, as far as the ring reaches, or is forgotten |
| `Daemon.Loop.Iterate` | src/spktrace.c:265-437 | one iteration takes settings, detector and history to a next state of the transition system and asks for the dump it allows |
| `Daemon.ReloadTakesEffect` | src/spktrace.c:77-104 | after a reload that loads, the settings are what validation leaves of the new ones; otherwise they are the old ones |
| `Daemon.ReloadForgets` | src/spktrace.c:265-330 | without a reload the detector goes on from its state, with one, successful or not, from the initial one; the history stays |
| `Daemon.ReloadStartsAfresh` | src/spktrace.c:265-346 | in the iteration of a reload nothing is cooling down and no baseline is known: only a CPU finding can be dumped, and one is exactly when that detection is enabled and a sample spikes |
| `Daemon.SettingsInForce` | src/spktrace.c:77-104 | over any run, the settings of each iteration are those of the last successful reload before it, or those of the start |
| `Daemon.CountsTowardsOrigin` | src/spktrace.c:406-412 | a snapshot counts towards the origin when its CPU list has the blamed process at one percent, or for a new process at half the threshold for those |
| `Daemon.DumpGoesBack` | src/spktrace.c:398-420 | a dump starts with the snapshot that triggered it, has min(context, pushed, 10) snapshots without gaps, and strictly decreasing times |
| `Daemon.OriginMeaning` | src/spktrace.c:407-414 | what each origin index says about the snapshots of its dump, and the three meanings of zero |
| `Daemon.OriginInside` | src/spktrace.c:411-414 | the index points into the written array exactly when the run did not begin in a context snapshot that is not written |
| `OriginLimit.OriginAlwaysInside` | src/spike_dump.c:814-817 | in every run of the daemon, from its start through any reloads and with samples and lists from one scan, all origin indices point into the written array exactly when the context is at most ten |
| `OriginLimit.SmallContextInside` | src/spktrace.c:398-414 | with a context of at most ten, one iteration in any state dumps no other index |
| `OriginLimit.ScheduleIsRun` | src/spktrace.c:265-420 | under any settings, the readings of a process that keeps below the thresholds and has one percent for eleven seconds make such a run, with a dump in the last second only |
| `OriginLimit.DumpOutside` | src/spktrace.c:398-414 | with a context above ten, that dump has origin index ten and ten snapshots |
| `OriginLimit.BurstOutside` | src/spktrace.c:398-414 | by default with a context above ten, a process at 2 % for ten seconds and then at 60 % is enough |
| `DaemonDumps.TriggerShowsFinding` | src/anomaly_detector.c:167-264 | the record of a report shows its kind, the process it blames and the numbers found |
| `DaemonDumps.DumpTellsIteration` | src/spktrace.c:310-420 | the document of an iteration's dump tells its finding member by member: kind, process, numbers, the scope that is set, and for the CPU the key that cools down from then on; it says new exactly when the process is in its first two collections |
| `DaemonDumps.ViewerShowsFinding` | src/spktrace_view.c:270-314 | what the viewer shows of a readable dump is the finding it was written for, its time, and the process lists of the snapshot that triggered it |
| `Daemon.DumpsExactly` | src/spktrace.c:320-346 | a finding is dumped exactly when its detection is enabled and nothing more urgent was found |
| `Daemon.EachKindDumped` | src/spktrace.c:310-346 | an iteration dumps a CPU finding exactly when there is one and its toggle is on, a memory finding when its own is on and there is no CPU finding, a swap finding when its own is on and there is neither |
| `Daemon.SegmentIsRun` | src/spktrace.c:265-330 | between two reloads the daemon takes the detector through one run from the initial state, so what holds of runs holds of the daemon |
| `Daemon.HistoryIsSampled` | src/spktrace.c:265-310 | over any run the history holds what was sampled, with increasing times if the sampler's increase |
| `Daemon.DumpsSpaced` | src/spktrace.c:265-420 | between two reloads, dumps about memory, about swap, or about one CPU key with fewer than 64 iterations in between are at least a cooldown apart |
| `ProcTracker.ComparisonsAreOrders` | src/proc.c:200-253 | both comparisons are total orders with ties, as the library sort needs them |
| `ProcTracker.FedFits` | src/proc.c:365-378 | the buffer holds only what was offered, and all of it up to 512 processes |
| `ProcTracker.BusiestKept` | src/proc.c:365-378 | something at least as busy as any process that was offered is in the buffer, however many there are |
| `ProcTracker.SoleBusiestKept` | src/proc.c:365-378 | the one process busier than all others is never lost |
| `ProcTracker.BusiestStep` | src/proc.c:365-378 | a full and sorted buffer stays so, and stays the 512 busiest of what it had and was offered |
| `ProcTracker.BusiestSince` | src/proc.c:365-378 | from the sort after a replacement on, the buffer is the 512 busiest of its contents then and all later arrivals |
| `ProcTracker.TopOfSort` | src/proc.c:389-429 | the first k of any sort are the true top k |
| `ProcTracker.TopIsBusiest` | src/proc.c:389-414 | however many processes there are, the CPU list begins with one of maximal CPU share |
| `ProcTracker.CpuListOrder` | src/proc.c:200-225 | nothing left out of the CPU list has a larger share than anything in it, the shares do not grow along it, and among equal shares the memory does not |
| `ProcTracker.RssListOrder` | src/proc.c:228-253 | the same of the memory list with memory and share exchanged |
| `ProcTracker.ListLengths` | src/proc.c:389-395 | each list has as many entries as there are samples, up to the limit and ten |
| `ProcTracker.ShareMeans` | src/proc.c:340-348 | between two readings of the system's ticks, the share times their difference is 100 times the ticks of the process, and zero in a first collection, for an unknown process, or where a counter has not moved on |
| `ProcTracker.KeptIsNew` | src/proc.c:340-378 | what a collection keeps of a process is its new sample, made from the previous one |
| `ProcTracker.CountsRounds` | src/proc.c:350-363 | a process read and kept in every round since it was unknown has its number of rounds, up to 255, and counts as new, with a new baseline, only in its first; so one that is dropped starts over |
| `ProcTracker.SmallRoundKeeps` | src/proc.c:365-368 | up to 512 processes, every one that is read is kept |
| `ProcTracker.FirstRoundKeeps` | src/proc.c:365-378 | of a first collection, where all shares are zero, exactly the first 512 processes are kept |
| `ProcTracker.Tracker.FindPrevSample` | src/proc.c:190-197 | the first valid sample of a process in the previous collection |
| `ProcTracker.Tracker.Collect` | src/proc.c:273-440 | both lists are the top ones of the final buffer, of all processes up to 512, and the buffer becomes the next context unless nothing was read |
| `ProcTracker.Offer` | src/proc.c:365-378 | stores a sample if there is room; a full buffer gives up its last slot to a busier one and is sorted |
| `Sorting.QSort` | src/log_manager.c:184 | an ordered rearrangement of the first n elements, any of them where there are ties |
| `LogManager.ComparisonsAreOrders` | src/log_manager.c:65-86 | both comparisons are total orders with ties, files that are gone last or first |
| `LogManager.SumOfSort` | src/log_manager.c:177-251 | sorting changes neither the total size nor the number of files |
| `LogManager.SweepConserves` | src/log_manager.c:177-251 | what remains and what was deleted add up to what was there |
| `LogManager.CleanupByAge` | src/log_manager.c:148-174 | exactly the files older than the limit are tried |
| `LogManager.CleanupByCount` | src/log_manager.c:177-208 | exactly the files behind the newest N are tried; the number reported is the number gone |
| `LogManager.CleanupBySize` | src/log_manager.c:211-251 | files are tried oldest first, only while too few bytes have been freed, as 64 bits add them up, and until enough have; the number reported is the number gone |
| `LogManager.SmallTotalsAgree` | src/log_manager.c:211-251 | below 2^64 bytes that is: only while the total is too large and until it is not |
| `LogManager.LargeTotalsStay` | src/log_manager.c:211-251 | from 2^64 bytes on the total stays above the limit whatever can be deleted, if the wrapped total and the largest file exceed 2^64 by no more than the limit |
| `LogManager.SizeMetExactly` | src/log_manager.c:211-251 | so where every file can be deleted, the total ends within the limit exactly when it was below 2^64 bytes |
| `LogManager.LargeTotalsWrap` | src/log_manager.c:213-224 | three files of 2^64 bytes together all stay under any limit |
| `LogManager.SizeGuarantee` | src/log_manager.c:211-251 | freed and remaining bytes add up to the scanned total, nothing tried is newer than anything not tried, the last deletion was still needed, and the total ends within the limit unless no remaining file could be deleted |
| `LogManager.CountGuarantee` | src/log_manager.c:177-208 | each file kept is as new as every file tried; at least N remain, and exactly N when all deletions succeed and only then |
| `LogManager.AgeGuarantee` | src/log_manager.c:148-174 | no file remains that is older than the limit in days and can be deleted, and every other one does |
| `LogManager.FirstCallRuns` | src/log_manager.c:380-402 | the first call cleans up exactly when cleanups are enabled and there is a policy |
| `LogManager.CleanupsSpaced` | src/log_manager.c:390-405 | after a cleanup, the next one is at the first call that is an interval later, or that has a clock which has not moved on |
| `LogManager.RunsExactly` | src/log_manager.c:380-405 | with a clock that moves on, a call cleans up exactly when cleanups are enabled, there is a policy, and no call within the interval before it did |
| `LogManager.Manager.AutoCleanup` | src/log_manager.c:370-411 | a cleanup runs exactly when enabled and due, is remembered also when the directory could not be read, and prunes as its policy says |
| `LogManager.RunCleanup` | src/log_manager.c:413-469 | the scanned files are pruned as the policy says |
| `LogManager.PolicyIsKept` | src/log_manager.c:413-469 | each policy with its own setting and unit: days, files or MiB; what is within the limit of number or size is not touched, and what exceeds a limit afterwards cannot be deleted |

## Left out

- JsonWriter.Writer.GrowBuffer: the refusal when the allocator has no memory is left out; every buffer is obtained, and every pointer argument is present.
- Writers with an initial capacity other than the default, the flag that records whether an array is open (nothing reads it), and the wrap-around of the nesting depth.
- JsonWriter.Writer.Double: takes the sign and the hundredths of the nearest two-decimal number, ties to even; the sign of a not-a-number and of a negative zero is not modelled.
- SpikeDump.WriteTree: stands for the straight-line sequences of writer calls that serialize a dump; the order of the calls is that of the fields of the document.
- SpikeDump.BuildDump: wall-clock formatting, file names, the atomic write and its permissions are left out; the formatted time is an input that may be missing.
- DumpViewer.ParseTrigger: stated for texts whose end the reader reaches; on others its caller never ends, even where this loop does.
- DumpViewer.ParseProcEntry: stated for the same texts.
- DumpViewer.ParseProcsArray: stated for the same texts.
- JsonNumber.ReadsBackDec: conversion to a double is exact on fractions and rounds integers to 53 bits, ties to even; rounding of fractions is left out.
- Casts of numbers outside the range of their type, undefined in C, are not modelled; reports have percentages within 2^53, for which their samples have shares of the CPU from 0 to 2^52.
- Bytes of strings are characters; strings end before a NUL, and UTF-8 validity (section 8 of RFC 8259) is left out. `Rfc8259` reads half a surrogate pair as the replacement character; the writer never prints one.
- CPU shares, baselines of processes and percentages are reals; a smoothed memory baseline is the floor of the real value.
- The clock is an input; runs of detector and daemon assume positive, strictly increasing times, calls of the log manager positive ones.
- Alarms.MemAlarmExactly: for readings below 2^63 KiB with no more available or free than there is; for others the numbers wrap around as in the code, which the functions it is about model.
- Alarms.SwapAlarmExactly: for the same readings.
- LogManager.LargeTotalsStay: nothing is claimed for totals whose remainder by 2^64 and largest file together exceed 2^64 by more than the limit; what is freed then depends on the order.
- LogManager.SizeMetExactly: the same.
- LogManager.SizeGuarantee: relative to the scanned list, which holds at most 1024 files; the outcome of a deletion is a function of the path, given from outside.
- ProcTracker.BusiestSince: nothing is claimed about the buffer between its first overflow and its first replacement, when its last slot need not be the least busy.
- ProcTracker.Tracker.Collect: reading the process directory, command lines and user ids is left out; what could be read is an input.
- ConfigValidation.ConfigStore.Validate: the check for not-a-number values and the output directory are left out, and so is loading the file.
- Daemon.Loop.Iterate: dumps are assumed to be enabled; sleeping, signals, locks and log messages are left out, and the daemon's call of the log manager is modelled by `LogManager` alone.
- Manual deletion, log statistics, the collection of CPU and memory figures, and the terminal interface in Go.
