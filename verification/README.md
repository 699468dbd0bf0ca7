# MojitO/S: a verified model

MojitO/S polls counters of the operating system at a fixed frequency. `mojitos [options] [sensors]
-- command` parses its command line twice (once for its own options, once for the sensors), lays the
labels and values of all chosen sensors out in two flat arrays, polls them in a sampling loop, and
prints them or serves them to Prometheus over HTTP.

This project models that logic in Dafny and proves what it is meant to keep. The model follows the
program's own form: `struct optparse`, `Parser`, the Prometheus buffer, the registry of sources, the
GPU table and the counter states are classes with the same fields; the loops and the recursion of the
C code are loops and recursive methods; each is proved against a function that says what it computes,
and the theorems are about those functions.

Check everything with `dafny verify dfyconfig.toml`.

## Modules

- `Wrappers`, `CStrings`, `Decimals`, `Division`, `Blocks`: optional values, strings, printed numbers,
  quotients, concatenated blocks.
- `OptTable`, `OptSpec`, `OptPrint`, `OptOrder`, `Optparse`, `OptRun`, `OptClient`: the permuting option
  parser of `lib/optparse.h`, from the table's string encoding to whole runs; what each way to write an
  option means; and when the permutation moves nothing.
- `OptGrammar`, `TwoPass`: the option grammar without the parser's hidden cursor, and the two passes
  of `src/mojitos.c` and `src/libmojitos.c` over one command line.
- `Mojitos`, `MojitosExamples`: main's option loop and its search for the command; command lines that
  show that the conditions of the theorems are needed.
- `RecordSpec`, `InfoReader`, `RoundTrip`, `MemoryCounters`: the record-file parser and its client for
  `/proc/meminfo`.
- `Prometheus`, `PrometheusSteps`: the shared buffer, alone and under every interleaving of the
  producer and the HTTP server.
- `Registry`, `NvidiaGpu`: the flat layout of labels and values, in the library and in the GPU source.
- `Modular`, `Counters`, `Disk`, `AmdRapl`: differences of counters that wrap, the integer scanner,
  energy in micro-joules, one sensor for each core.
- `Sampling`: the sampling clock.

## What the proofs found

These are properties of the code as it is; each has a lemma with its exact condition or an example.

- An unknown letter behind the first letter of a cluster advances `optind` but leaves `subopt` set
  (lib/optparse.h:220-225). The next cluster is then read from its middle, or past the end of its
  token. The parser follows the option grammar, reading every cluster from its first letter, if and
  only if no cluster is opened after such a break (`OptGrammar.CursorIsHarmless`). Since `mojitos` does
  not know the sensors' letters, `-sr -f 2` hides `-f` from it
  (`MojitosExamples.BrokenClusterHidesFrequency`). A client need not see the difference: on `-sr -r` the
  results and the line are the same (`MojitosExamples.BrokenClusterUnseen`). Reads past the end of a
  token are undefined in C; the model reports them as the result `WILD`.
- The command is looked up at the first `--` of the command line, even if an option took that `--` as
  its argument: an option of main (`Mojitos.ApplicationIsCommand`,
  `MojitosExamples.TakenDashDashStartsOperand`), or one of a sensor, which main does not even know
  (`Mojitos.ApplicationOnWholeLine`, `MojitosExamples.SensorTakesDashDash`). If only main takes it, the
  permutation may also reorder the command: `-p -f -- x -s` starts `-s x`
  (`MojitosExamples.OnlyMainTakesDashDash`).
- A sensor's option is looked up again by its short name alone, and both RAPL sensors use `r`: if both
  are built in, `--amd-rapl` adds the one that comes first (`Registry.OwnSensor`,
  `MojitosExamples.AmdAsksForIntel`).
- The meminfo lookup matches by prefix and stops after as many matches as there are names: asking for
  `Active` and `Active(anon)` stores both lines under `Active` (`MemoryCounters.ActiveTakesAnon`), and a
  name asked for twice is never stored the second time (`MemoryCounters.RepeatedNameStarves`); the exact
  condition is `MemoryCounters.LookupIsExact`.
- Only sensor lines are followed by a growth check of the Prometheus buffer, so without any sensor the
  overhead lines overrun it (`PrometheusSteps.HeadroomNeedsSensor`). With a sensor, no line is ever cut
  if the first label has at most 48 characters and the others at most 87; with larger bounds some
  labels overrun the buffer (`PrometheusSteps.LabelBoundsAreExact`). This is for the time stamps and
  overheads that main passes: a signed 64-bit number of milliseconds and less than 10^9 nanoseconds.
- The bounded subtraction is the difference modulo the range plus one if and only if the two values are
  at most the range up or the range plus one down apart (`Modular.ModuloSubstractionBound`).
- AMD energies are differenced modulo 2^64 of micro-joules while the register wraps at 2^32 units: the
  report is right if and only if the register did not wrap (`AmdRapl.AccurateIffNoWrap`). The first
  poll of a sensor has no baseline and reports the absolute energy (`AmdRapl.PollSensor`).
- The sampling clock only looks at the nanoseconds of the second, so samples stay on multiples of the
  period if and only if a second is a whole number of periods (`Sampling.WakeAligned`), and the
  overhead is the duration of a poll if and only if that is below one second
  (`Sampling.OverheadIsDuration`).
- A negative frequency with a negative time gives rows too, with sleeps of more than an hour
  (`Sampling.SleepTime`).
- `is_duplicate` returns 1 for a core that is not a duplicate (src/amd_rapl.c:272-279); its caller
  reads it that way. In record files, any line of one character is blank, whatever the character
  (lib/info_reader.c:86).

## Model

| member | source | states |
|---|---|---|
| OptTable.EncodingRefinesTable | lib/optparse.h:177-188 | For every table without a ':' letter and every character, the type decoded from the encoded getopt string is that of the first table entry with this short name, -1 if there is none. |
| OptTable.FromLong | lib/optparse.h:276-289 | A table of at most 96 entries is written as its encoding, with a terminator, inside the 96 * 3 + 1 characters. |
| OptTable.AppendEntry | lib/optparse.h:281-286 | One entry adds its letter and its colons, at most three characters, behind an unchanged prefix. |
| OptTable.ArgTypeOf | lib/optparse.h:177-188 | The scan counts the colons behind the first occurrence of the letter; -1 for ':' and for a letter that does not occur. |
| OptTable.LongoptsMatch | lib/optparse.h:292-301 | True if and only if there is a name and it equals the option text before its first '='. |
| OptTable.LongoptsArg | lib/optparse.h:304-311 | The text behind the first '=', nothing if there is none. |
| Optparse.Options.constructor | lib/optparse.h:143-151 | The parser starts behind argv[0] if there is one, with the cursor at the start of a cluster. |
| Optparse.Options.Permute | lib/optparse.h:168-175 | Shifting one operand behind the m entries before optind is a rotation of the line; nothing else moves. |
| Optparse.RotateTwice | lib/optparse.h:347-353 | Unwinding one frame of the recursion onto a rotation of k operands gives the rotation of k + 1 operands. |
| Optparse.Options.DecodeShort | lib/optparse.h:215-258 | The result, optarg, optopt, cursor and optind after a short option, for every type, attached, detached and missing arguments included. |
| Optparse.Options.Optparse | lib/optparse.h:191-259 | One call is one rotation: the k operands in front move behind the m entries that the call consumes, optind ends m further, and everything else is as if the call had started at the option. |
| Optparse.Options.StepOver | lib/optparse.h:204-210 | The same, for the branch that recurses and permutes on the way back. |
| Optparse.Options.LongFallback | lib/optparse.h:313-331 | Encoding the table and running the short parser decodes the option by the table, and moves nothing. |
| Optparse.Options.DecodeLong | lib/optparse.h:359-388 | The first entry whose name matches decides; its argument comes from behind '=' or from the next entry; all error cases. |
| Optparse.Options.OptparseLong | lib/optparse.h:334-389 | One call is one rotation, for short and long options and "--"; result, optarg, optopt, cursor and optind as if the call had started at the option. |
| Optparse.Options.StepOverLong | lib/optparse.h:347-353 | The same, for the branch that recurses and permutes on the way back. |
| OptSpec.CallDecreases | src/mojitos.c:164 | A call that does not end the loop consumes a token or moves forward in the same cluster, so the option loops terminate even when operands keep optind still. |
| OptSpec.RunSkips | lib/optparse.h:347-353 | Operands in front never influence how the rest of the line is parsed. |
| OptSpec.RunPeels | lib/optparse.h:334-389 | A call takes exactly the first event off the one-pass parse, and what it leaves (operands first) parses to the remaining events. |
| OptSpec.RunConserves | lib/optparse.h:168-175 | Nothing is lost: up to "--" the line is a merge of the options with their arguments and of the operands, both in their original order; what follows "--" is untouched. |
| OptSpec.RotateSlices | lib/optparse.h:168-175 | The rotation, in slices: prefix, the m consumed entries, the k operands, suffix. |
| OptPrint.TokenKinds | lib/optparse.h:153-166 | "--" stops, "-" and another character open a cluster, "--" and more is a long option, everything else is an operand. |
| OptPrint.AttachedLong | lib/optparse.h:365-377 | --name=v gives the first entry with that name and the argument v, or '?' if it takes none. |
| OptPrint.DetachedLong | lib/optparse.h:378-385 | --name takes the next token if the argument is required, whatever it looks like, and is '?' without one; the other options take nothing. |
| OptPrint.UnknownLong | lib/optparse.h:388 | A name that no entry has is '?', with or without a value. |
| OptPrint.AttachedShort | lib/optparse.h:226-256 | -cv gives the first entry with that letter and the argument v, or moves on to the next letter if it takes none. |
| OptPrint.DetachedShort | lib/optparse.h:226-256 | -c takes the next token if the argument is required, whatever it looks like, and is '?' without one; the other options take nothing. |
| OptPrint.UnknownShort | lib/optparse.h:220-225 | A letter that no entry has, or that the encoding leaves out, is '?'. |
| OptPrint.CursorIsOffset | lib/optparse.h:215 | With the cursor set, the rest of a cluster is read as a cluster of its own. |
| OptPrint.RunDetached | src/mojitos.c:164 | An option in front of a line takes its argument, and the rest is parsed as a line of its own. |
| OptRun.Advance | lib/optparse.h:347-353 | The invariant of an option loop survives a call: the rotations so far have collected the consumed tokens in front, in order. |
| OptRun.End | lib/optparse.h:340-344 | The call that returns -1 leaves argv as argv[0], options with arguments, "--" if met, operands, rest, and optind behind the options and "--". |
| OptClient.NextOption | src/mojitos.c:164 | One turn of an option loop yields the next event of the one-pass parse of the original line, or reports its end or a stray read, and decreases the loop measure. |
| OptGrammar.RunCluster | lib/optparse.h:226-233 | The calls that decode a cluster, one letter each through the hidden cursor, yield exactly the cluster's events decoded as a whole. |
| OptGrammar.CursorUnused | lib/optparse.h:215 | Whatever the cursor holds, it plays no part until a cluster is opened. |
| OptGrammar.CursorStale | lib/optparse.h:220-225 | If a cluster is opened with the cursor still set, the parse differs from the grammar in where that cluster is read; a client may see the same results. |
| OptGrammar.CursorIsHarmless | lib/optparse.h:215-258 | For every table and line, the parser computes the cursor-free grammar, reading every cluster from its first letter, if and only if no cluster is opened after one that an unknown letter broke behind its first letter. After such a break a client may still see the same results. |
| TwoPass.TwoPasses | src/mojitos.c:164-196 | If the tables share no name and use neither ':' nor '?' as a letter, no option takes an option token as its argument, no cluster mixes the tables and none is opened after a broken one, then each pass yields exactly its table's share of one parse with the joined table, and all three stop at the same "--" and leave the same rest. |
| TwoPass.LineAgrees | src/libmojitos.c:81-99 | The same for one table inside any larger one, for the whole line and the exposure to a stale cursor. |
| TwoPass.RestAgrees | lib/optparse.h:342-344 | One table inside any larger one stops at the same "--" and leaves the same rest. |
| TwoPass.OwnCluster | lib/optparse.h:215-258 | A cluster of one table's letters is decoded alike by that table and by the joined one. |
| TwoPass.PartsOfJoin | src/libmojitos.c:33-34 | Of two tables without common names, each answers for its own options as the joined table does and claims none of the other's. |
| TwoPass.FilterOne | src/mojitos.c:183-184 | A table's share of the events is what it owns, each event for itself; errors belong to nobody. |
| MojitosExamples.SharedLine | src/mojitos.c:164-196 | On `-f 10 -p cycles -- ls` all conditions of the two passes hold; main gets -f 10, the sensors -p cycles, and the command is ls. |
| Mojitos.ParseOptions | src/mojitos.c:160-186 | Main's option loop leaves argv in the final layout, and its settings are those of the events of the one-pass parse of the original argv; it strays exactly when that parse does. |
| Mojitos.ConfigureTurn | src/mojitos.c:164-186 | One turn keeps the settings those of the options so far, and decreases the loop measure. |
| Mojitos.Switch | src/mojitos.c:165-185 | One option updates the settings, with the special case of a zero -t. |
| Mojitos.LastOptionWins | src/mojitos.c:145-186 | Each setting is its default or that of the option's last occurrence; delta is 0 if and only if there is no -t or its value is 0. |
| MojitosExamples.LongNames | src/mojitos.c:44-69 | `--freq a --time b --option c --overhead-stats` sets frequency, time, output and overhead from a, b and c, for all a, b and c. |
| MojitosExamples.ShortNames | src/mojitos.c:44-69 | `-f a -t b -o c -s` does the same. |
| Mojitos.StepIsArgued | src/mojitos.c:166-170 | atoi is never given a NULL: whatever the line and the cursor, f, t and o come with an argument. |
| Mojitos.SettingsOfCommandLine | src/mojitos.c:164-186 | Main's settings are those of its options in one parse of the whole line, although the sensor options are noise to it. |
| Mojitos.ConfigureIgnoresErrors | src/mojitos.c:183-184 | Errors set nothing. |
| Mojitos.FindApplication | src/mojitos.c:188-194 | The search finds the entry behind the first "--" that is not the last entry. |
| Mojitos.DashDashSearch | src/mojitos.c:188-194 | The search finds the "--" that ended the parse, and nothing if none did, unless an option took an earlier one as its argument; then it always finds an earlier one. |
| Mojitos.ApplicationIsCommand | src/mojitos.c:157-194 | By main's own table: the index found in the saved copy, used in the permuted argv, gives the user's command if and only if the first "--" is neither the program's name nor the argument of one of main's options. |
| Mojitos.ApplicationOnWholeLine | src/mojitos.c:157-196 | By the table of the whole line: the command is the user's if and only if the first "--" is neither the program's name nor the argument of any option, a sensor's included, and main, if it takes that "--" for an argument itself, has no operand in front of an option or "--" behind it. |
| OptOrder.OrderKept | lib/optparse.h:168-175 | What lies behind the operands stepped over so far keeps its order if and only if no operand is in front of a later option or "--". |
| Mojitos.TakenAgrees | lib/optparse.h:168-175 | Behind the first "--" that an option takes, the permuted and the original line agree if and only if no operand, before or behind it, is in front of an option or "--" behind it. |
| Mojitos.CommandOfCommandLine | src/mojitos.c:157-196 | On a line that the two passes can share, the command is that of the joined parse, unless the program itself is called "--". |
| Mojitos.CommandLine | src/mojitos.c:157-196 | main up to moj_init: the copy is the original argv, argv is permuted, the settings are those of the parse; by main's own table the command is the user's if and only if the first "--" is neither the program's name nor the argument of main's option; by the whole line's table if and only if the condition of ApplicationOnWholeLine holds. |
| MojitosExamples.BrokenClusterHidesFrequency | lib/optparse.h:220-225 | On `-sr -f 2` main sees no -f, although the grammar has it. |
| MojitosExamples.BrokenClusterUnseen | lib/optparse.h:220-225 | On `-sr -r` the second cluster is read past its end, yet results, arguments and tokens are those of the grammar. |
| MojitosExamples.TakenDashDashStartsOperand | src/mojitos.c:188-194 | On `mojitos -o -- x` there is no command, and x is started. |
| MojitosExamples.SensorTakesDashDash | src/mojitos.c:188-194 | On `mojitos -p -- x` the sensor option p takes the "--", so the whole line has no command; main meets the "--" itself and starts x. |
| MojitosExamples.OnlyMainTakesDashDash | src/mojitos.c:164-194 | On `mojitos -p -f -- x -s`, where p takes "-f", the command is `x -s`, and `-s x` is started. |
| MojitosExamples.MixedClusterLosesSensor | src/libmojitos.c:81 | On `-sr` the sensor pass misses r. |
| MojitosExamples.BreakHidesSensor | lib/optparse.h:220-225 | On `-sx -r`, with x unknown to both tables, the joined parse has no r and the sensor pass has it. |
| MojitosExamples.OptionTokenTakenTwice | src/mojitos.c:164-165 | On `-p -s`, where p takes an argument, main takes the argument for its own option. |
| Registry.InitSensors | configure:88-99 | The generated function lays the sensors' option tables out flat, in order. |
| Registry.TableAt | configure:91-93 | Entry j of sensor s stands behind the entries of all earlier sensors, unchanged in all fields. |
| Registry.TableIsCovered | configure:91-93 | The table has no other entries. |
| Registry.Dispatch | src/libmojitos.c:82-98 | The option goes to the sensor that owns the first flat entry with its short name, or shows that entry's list; to nobody if there is none. |
| Registry.OwnSensor | src/libmojitos.c:84-98 | A decoded entry reaches the sensor that owns it if and only if no earlier sensor has an entry with its short name, and no list is shown. |
| Registry.WhatIsShown | src/libmojitos.c:89-93 | An option of no sensor asks for nothing; the first entry with its letter is shown if and only if it shows a list. |
| Registry.SourceAt | src/libmojitos.c:44-71 | The source of a request has its sensor, its argument and the names its init found, behind those of the requests before it; a failed init and a list leave none. |
| Registry.ArgumentReachesSource | src/libmojitos.c:81-92 | A required sensor option and its argument v, under its letter or its name: the option's own sensor is initialised with v, if no earlier entry has the letter. |
| MojitosExamples.AmdAsksForIntel | src/libmojitos.c:84-98 | With both RAPL sensors built in, Intel first, `--amd-rapl` decodes the AMD entry and adds the Intel sensor. |
| Registry.Library.AddSource | src/libmojitos.c:44-71 | A source is appended with its labels behind the old ones; a failed init changes nothing. |
| Registry.Library.GetValues | src/libmojitos.c:122-129 | The values are the readings of all sources, one block behind the other. |
| Registry.Aligned | src/libmojitos.c:66-70 | Label k and value k are number j of the same source i, the only one whose block holds k; the blocks cover all places. |
| Registry.MojInit | src/libmojitos.c:73-102 | The sources are those that the options of the one-pass parse of the saved line ask for, in order, each under its sensor; unless the parser strays, it ends in a list if and only if an option asks for one. |
| Registry.Turn | src/libmojitos.c:81-99 | One turn keeps the sources those of the options so far, and decreases the loop measure. |
| Registry.RequestsIgnoreErrors | src/libmojitos.c:84-98 | '?' reaches no sensor. |
| Registry.SensorsOfCommandLine | src/libmojitos.c:73-102 | The sources are those of the sensor options in one parse of the whole line with the joined table. |
| Blocks.FlattenAt | src/libmojitos.c:125-127 | Element j of block i lies at the sum of the earlier lengths plus j. |
| Blocks.OwnerUnique | src/libmojitos.c:125-127 | Every place belongs to exactly one block. |
| NvidiaGpu.Gpu.InitDevice | src/nvidia_gpu.c:442-475 | The device keeps exactly the sensors that found something, in order, compacted in place; the count is the number of their values; other devices are untouched. |
| NvidiaGpu.KeptAre | src/nvidia_gpu.c:442-473 | A kind of sensor is kept if and only if the device opens and the kind found something, in ascending order of the kinds. |
| NvidiaGpu.KeptDeviceAt | src/nvidia_gpu.c:536-542 | Device i is kept if and only if it has a sensor, behind the devices kept before it. |
| NvidiaGpu.Gpu.NextDevice | src/nvidia_gpu.c:536-542 | A device without sensors leaves its slot to the next one. |
| NvidiaGpu.Gpu.Init | src/nvidia_gpu.c:514-550 | The table holds exactly the devices with sensors, in order, and the result is the number of all their values. |
| NvidiaGpu.Gpu.WriteDevice | src/nvidia_gpu.c:477-501 | A device's sensors are written one behind the other from the current pointer on. |
| NvidiaGpu.Gpu.Write | src/nvidia_gpu.c:553-579 | All sensors of all devices are written flat; the result is how many places were written. |
| NvidiaGpu.Aligned | src/nvidia_gpu.c:553-579 | Label k and value k are number j of the same GPU sensor, and there are equally many. |
| InfoReader.BufferGetline | lib/info_reader.c:42-74 | The next line with its newline, or -1 at the end of the file and at a line of more than 4095 characters. |
| InfoReader.ReplaceFirst | lib/info_reader.c:109-117 | Only the first occurrence inside the string is replaced. |
| InfoReader.SplitOnDelimiter | lib/info_reader.c:119-130 | The string is cut at the first occurrence of the delimiter; untouched if there is none. |
| InfoReader.StartWith | lib/info_reader.c:132-146 | True if and only if the prefix is a prefix of the string in the buffer. |
| InfoReader.Match | lib/info_reader.c:10-29 | The first key that prefixes the line decides, its raw value is what follows the first delimiter, and without a delimiter no later key is tried. |
| InfoReader.Parser.SetValue | lib/info_reader.c:3-8 | The slot nb_stored, and no other, is changed by the key's setter. |
| InfoReader.Parser.TakeLine | lib/info_reader.c:91-99 | A line stores at most one value, into the open record's slot. |
| InfoReader.Parser.Parse | lib/info_reader.c:77-105 | For every text, key table and capacity: record i of the text is in slot i, the early skip and the early exit change nothing, and the result is 0 if and only if the text has as many blank lines as there are slots. |
| RecordSpec.RecordsPartition | lib/info_reader.c:84-99 | The record number is the number of blank lines, and the records are all other lines, in order. |
| RecordSpec.LinesCover | lib/info_reader.c:50-68 | The lines are a prefix of the text, all of it unless a line is too long. |
| RecordSpec.SlotsFinal | lib/info_reader.c:86-89 | When the last slot is closed, the rest of the file changes nothing. |
| RecordSpec.LongestLine | lib/info_reader.c:41-62 | A line of 4095 characters is read, a longer one is not. |
| RecordSpec.FindTextFinds | lib/info_reader.c:124 | A delimiter is found if and only if it occurs. |
| RecordSpec.FindTextFirst | lib/info_reader.c:124 | It is found where it occurs first. |
| RecordSpec.NoFallThrough | lib/info_reader.c:19-22 | If the first key that prefixes a line lacks its delimiter, the line matches nothing. |
| RecordSpec.ValueBehind | lib/info_reader.c:119-130 | The value is what follows the first occurrence of the delimiter, wherever it is. |
| RoundTrip.LineReadsBack | lib/info_reader.c:10-29 | A printed key, delimiter and value is read back if and only if no earlier key is a prefix of the line and the delimiter first occurs right behind the key. |
| RoundTrip.ReadsBack | lib/info_reader.c:77-105 | Printed records are read back, each into its slot, in order, and nothing else. |
| RoundTrip.PositionalStore | lib/info_reader.c:3-8 | With one setter for each position, a slot holds exactly the record's values. |
| RoundTrip.ReadPrinted | lib/info_reader.c:77-105 | Printing n records and parsing them stores them, with nb_stored n, and results in 0 if and only if n is the capacity. |
| MemoryCounters.BuildKeyfinder | src/memory_counters.c:24-37 | Key i has the i-th requested name and writes result i. |
| MemoryCounters.HitsAreFeeds | src/memory_counters.c:87-102 | Which line feeds which key depends on the names alone: the first requested name that prefixes the line's name. |
| MemoryCounters.StoredValues | src/memory_option.sh:8-12 | Result i is the value of the last line taken for key i, unchanged if there was none. |
| MemoryCounters.RepeatedNameStarves | src/memory_counters.c:49-55 | For any file, the result of a name that was requested before keeps its initial value. |
| MemoryCounters.GetMemoryCounters | src/memory_counters.c:87-102 | A poll of a meminfo file gives these results, although the loop stops after as many lines as there are names. |
| MemoryCounters.LabelMemoryCounters | src/memory_counters.c:104-110 | Label i is the i-th requested name. |
| MemoryCounters.LookupIsExact | src/memory_counters.c:87-110 | For requested names that are in a file of distinct names, every poll is a lookup by name if and only if no name is requested twice and each line taken is the line of the name it is stored for. |
| MemoryCounters.PrefixFreeSuffices | lib/info_reader.c:12-15 | That holds if the first requested name that prefixes a line's name is always that name. |
| MemoryCounters.ActiveTakesAnon | lib/info_reader.c:15 | It fails for Active and Active(anon): Active gets the value of the second line, and Active(anon) keeps its initial value. |
| Prometheus.Buffer.Sprintf | src/prometheus_manager.c:129 | The line is appended to the text so far. |
| Prometheus.Buffer.Grow | src/prometheus_manager.c:130-133 | Doubling keeps the text. |
| Prometheus.Buffer.WriteSensor | src/prometheus_manager.c:127-134 | After a sensor line and its check, delta + 128 is below current_size, and the line is complete; the size doubles if and only if the check finds too little room. |
| Prometheus.Buffer.WriteOverhead | src/prometheus_manager.c:136-138 | The overhead line fits behind the last growth check, and a sensor line still fits behind it. |
| Prometheus.Buffer.UseManager | src/prometheus_manager.c:126-139 | A call appends one whole batch; the size doubles after exactly the lines whose check asks for it; the headroom for a sensor line is kept, though no check follows the overhead line. |
| Prometheus.Buffer.Serve | src/prometheus_manager.c:58-64 | The response is the text so far, and the buffer is empty. |
| Prometheus.LineLength | src/prometheus_manager.c:129 | A line is at most 43 characters longer than its label, 42 with a time stamp of main, 31 for an overhead line of main. |
| Prometheus.LineReadsBack | src/prometheus_manager.c:129 | Cutting a line at its first two spaces gives the metric, digits that denote the value, and digits that denote the time stamp. |
| Prometheus.LineInLetters | src/prometheus_manager.c:129 | load1 at 7, at time 9, is "load1 7 9" and a newline. |
| Prometheus.BatchReadsBack | src/prometheus_manager.c:127-138 | Line i of a batch carries label i, value i and the time stamp; a last line carries the overhead if and only if it is not zero. |
| Prometheus.Sanitize | src/prometheus_manager.c:90-95 | The search-and-replace loop turns every '-' into '_', position by position, changes nothing else, and ends. |
| PrometheusSteps.Reached | src/prometheus_manager.c:58-64 | In every interleaving: the mutex is exclusive, the buffer holds the undelivered batches and the current one's lines, and the copy stays current until the reset. |
| PrometheusSteps.ExactlyOnce | src/prometheus_manager.c:58-64 | In every interleaving, all responses followed by the buffer are all lines written, in order, none lost and none twice. |
| PrometheusSteps.WholeBatches | src/prometheus_manager.c:126-139 | Each response is a whole number of complete batches and starts where the one before ended. |
| PrometheusSteps.StepsOfBatch | src/prometheus_manager.c:126-139 | The producer's steps, alone, lead to the text and the size that UseManager states. |
| PrometheusSteps.StepsOfRequest | src/prometheus_manager.c:58-64 | The server's steps, alone, lead to the body and the empty buffer that Serve states. |
| PrometheusSteps.NeverCut | src/prometheus_manager.c:127-138 | With a sensor, a first label of at most 48 and other labels of at most 87 characters, no line ever passes the end of the buffer in any interleaving with main's calls, while the size fits 32 bits. |
| PrometheusSteps.HeadroomNeedsSensor | src/prometheus_manager.c:130-138 | That holds if and only if there is at least one sensor. |
| PrometheusSteps.LabelBoundsAreExact | src/prometheus_manager.c:127-138 | Bounds on the first and on the later labels make every run of main's calls with a sensor safe if and only if they are at most 48 and 87. |
| PrometheusSteps.GrowthOnBits | src/prometheus_manager.c:131 | Doubling 2^31 gives 0; every smaller size doubles. |
| Modular.ModuloSubstraction | src/util.c:25-29 | The difference modulo 2^64; no intermediate result overflows. |
| Modular.ModuloSubstractionBound | src/util.c:31-35 | For any three values, the result is the difference modulo the range plus one if and only if the two values are at most the range up or the range plus one down apart; it is at most the range when both are in range. |
| Modular.BoundOverflow | src/util.c:33-34 | The wrapping branch computes without overflow if and only if the earlier value is in range. |
| Modular.DeltaIsGrowth | src/util.c:31-35 | The difference of a wrapping counter is its growth if and only if that is below a whole turn. |
| Modular.Telescope | src/rapl.c:185-191 | For any reads, the deltas of a run add up to last minus first, modulo the turn. |
| Modular.Conservation | src/rapl.c:185-191 | For totals that never decrease, the deltas of a run add up to the growth if and only if no poll misses a whole turn; each delta is then exact. |
| Counters.IntelRapl.constructor | src/rapl.c:162-165 | The values read at the end of init_rapl are the baseline. |
| Counters.IntelRapl.GetRapl | src/rapl.c:172-192 | Each result is the bounded difference to the poll before, by its own range, for any raw values, and the new values are kept. |
| Counters.RunRapl | src/rapl.c:134-192 | What a whole run emits, poll by poll and source by source. |
| Counters.RaplConservation | src/rapl.c:134-192 | Over any run, a source's emitted energy is the energy used if and only if no poll misses a whole turn of its register. |
| Counters.Counter.ReadCounters | src/counters.c:172-188 | Each value is the sum over all cores, on 64 bits. |
| Counters.Counter.GetCounters | src/counters.c:219-231 | Each result is the difference to the poll before, on 64 bits, and the new values are kept. |
| Counters.RunCounters | src/counters.c:195-231 | What a whole run emits, from the baseline of init_counters on. |
| Counters.CoresConservation | src/counters.c:172-231 | Over any run, although each core's count and their sum wrap, an event's emitted counts are its growth over all cores if and only if no poll misses 2^64 of them. |
| Disk.ReadInt | src/util.c:37-48 | The value of the next run of digits, on 64 bits, and where it ends. |
| Disk.ScanPrinted | src/util.c:37-48 | Chained scans give back the first n numbers, whatever nonempty text separates them and whatever follows. |
| Decimals.NumberOfDecimal | src/util.c:42-46 | A printed decimal denotes its number. |
| Disk.LeadingZeros | src/util.c:42-46 | Leading zeros change nothing. |
| Disk.ScanDecimals | src/util.c:37-48 | Printed 64-bit numbers, with any leading zeros, are scanned back exactly. |
| Decimals.DecimalNumerals | src/util.c:42-46 | 9072 is printed and read as "9072". |
| Disk.DiskState.ScanDisk | src/disk.c:50-52 | The fifteen numbers of a disk are written to its own block. |
| Disk.DiskState.ReadDisks | src/disk.c:40-54 | Value i of disk d is number i of its file, for all disks. |
| Disk.ReadIsOwnNumbers | src/disk.c:43-53 | After a read, value i of disk d is number i of the file of disk d, for every disk and whatever the separators. |
| Disk.DiskState.GetDisk | src/disk.c:112-124 | Each result is the difference to the poll before, on 64 bits, and the new values are kept. |
| Disk.RunDisks | src/disk.c:58-124 | What a whole run emits, from the baseline of init_disk on. |
| Disk.RunEmitsOwnNumbers | src/disk.c:112-124 | Over a run, value i of disk d is the difference of number i of that disk's file now and at the poll before, on 64 bits. |
| Disk.SnapshotsTelescope | src/disk.c:112-124 | Over any run, what a value emits adds up to last minus first snapshot, on 64 bits. |
| AmdRapl.RawToMicrojoule | src/amd_rapl.c:158-164 | The product is below 2^53, so the computation is exact but for the final rounding down, and equals integer division. |
| AmdRapl.UnitHalves | src/amd_rapl.c:163 | With unit 0 a tick is a joule; every unit more halves the energy, rounded down. |
| AmdRapl.UnitSixteen | src/amd_rapl.c:163 | With unit 16 the energy is raw * 1000000 / 65536, 0x10000 ticks are a joule, and accurate means less than a micro-joule off. |
| AmdRapl.Pow2Doubles | src/amd_rapl.c:163 | The divisor is the shift 1U << unit. |
| AmdRapl.FieldsOfRegisters | src/amd_rapl.c:131-141 | The unit is bits 8 to 12, the energy the low 32 bits; no other bit matters. |
| AmdRapl.FloorOfQuotient | src/amd_rapl.c:163 | Casting the quotient of two whole numbers rounds as integer division does. |
| AmdRapl.CpuSensor.Update | src/amd_rapl.c:262-270 | The report is the difference of the converted absolutes, modulo 2^64. |
| AmdRapl.PollSensor | src/amd_rapl.c:262-270 | A run of polls: the first reports the absolute energy, each later one the difference to the one before. |
| AmdRapl.NoDrift | src/amd_rapl.c:262-270 | Over any window in which the register does not wrap, the reported energy is less than 1 micro-joule off the exact one, however many polls there are. |
| AmdRapl.AccurateIffNoWrap | src/amd_rapl.c:262-270 | Between two polls less than a turn apart, the report is accurate to 1 micro-joule if and only if the register did not wrap. |
| AmdRapl.GetArch | src/amd_rapl.c:237-251 | All package and core numbers are below the results, and the results are the smallest such numbers. |
| AmdRapl.IsDuplicate | src/amd_rapl.c:272-279 | 1 if and only if the core was not marked; the map stays 0 or 1 and marks one core more. |
| AmdRapl.ChooseSensors | src/amd_rapl.c:324-338 | The kept sensors are the first CPUs of their cores, in order; all map indices are in range. |
| AmdRapl.EachCoreOnce | src/amd_rapl.c:332-338 | Each (core, package) pair keeps exactly one sensor, its first CPU. |
| AmdRapl.EachPairOnce | src/amd_rapl.c:332-338 | By their numbers: every core of every package is measured, and none twice. |
| AmdRapl.FirstByFields | src/amd_rapl.c:332-338 | No earlier CPU has the core and package of a kept one. |
| AmdRapl.KeptInOrder | src/amd_rapl.c:332-338 | The sensors keep the order of the CPUs. |
| Sampling.WakeAligned | src/mojitos.c:243-244 | Every wake-up is on a multiple of the period if and only if a second is a whole number of periods. |
| Sampling.WakeOnNext | src/mojitos.c:243-244 | The wake-up is the next multiple of the period. |
| Sampling.SleepTime | src/mojitos.c:244 | The sleep is between 1 microsecond and a period; with a negative frequency it wraps to more than an hour. |
| Sampling.SleepCompletes | src/mojitos.c:244 | The sleep and the microseconds into the period make exactly a period, or 2^32 with the period if the frequency is negative. |
| Sampling.PeriodIsLargest | src/mojitos.c:244 | The period is the largest whole number of microseconds of which `frequency` fit into a second. |
| Sampling.DivisorFrequency | src/mojitos.c:244 | A frequency that divides 1000000 makes a second exactly that many periods. |
| Sampling.SamplingLoop | src/mojitos.c:225-245 | With a time limit there are exactly total_time * frequency rows, none if that is not positive; without one, as many as until a signal ends the program; at the times given by poll, sleep, poll, for negative numbers with a positive product too. |
| Sampling.SamplesAligned | src/mojitos.c:225-245 | If every poll ends in its period, sample i is on the i-th multiple of the period behind the start, for the whole run. |
| Sampling.OverheadIsDuration | src/mojitos.c:234-238 | The overhead is the duration of the poll if and only if that is below one second. |

## Left out

- Functions and methods split off one C function: `DecodeShort`, `StepOver`, `DecodeLong`,
  `StepOverLong` (of `optparse` and `optparse_long`), `TakeLine` (of `parse`), `WriteSensor` and
  `WriteOverhead` (of `use_manager`), `InitSensor` (of `init_device`), `NextDevice` (of
  `init_nvidia_gpu`), `ConfigureTurn` and `Switch` (of main's option loop), `ServeAll`, `Turn`, `Serve`
  and `Dispatch` (of `moj_init`), `ScanDisk` (of `_get_disk`), `Keep` (of `init_disk` and `get_disk`).
  `Write` and `WriteDevice` are the getter's and the labeler's walk in one, with what they write as a
  parameter.
- lib/optparse.h: the error text, `longindex`, `permute = 0` and `optparse_arg`; the program uses none.
- Reads outside a token: undefined in C; the model stops with `WILD`.
- TwoPasses: the conditions are sufficient; they are not proved necessary, because two parsers
  may also agree by accident. `MojitosExamples` has a failing line for each condition on the line.
- CommandLine: argc is at least 1.
- Usage texts, `--dump-opts`, the list functions of options (a list ends the run), signals, fork and
  exec.
- `atoi`, `atol` and the other text conversions are parameters; the parsing of comma-separated counter
  lists (`memory_list`, `perf_event_list`) is not modelled.
- System calls, the clock, device files and the GPU driver: what they answer is a parameter. A getter
  returns as many values as its init counted.
- Signedness of `char`: characters above 127 are not told apart from wide ones.
- GetMemoryCounters: files whose lines are all name, colon, value, and requested names without a colon,
  as the generated table has them. Parse itself has no such condition.
- UseManager: fewer than 2^31 characters wait in the buffer; past that the 32-bit size wraps. The step
  system has no such bound: it records the wrap. Time stamp and overhead are those that main passes; the
  delivery theorems (`ExactlyOnce`, `WholeBatches`) hold for arbitrary 64-bit ones.
- GetDisk: each stat file has fifteen numbers and text behind them; `read_int` would run on otherwise.
- SamplingLoop: a frequency above 1000000 or below -1000000 makes the period 0 and divides by it, and
  `total_time * frequency` must fit an int.
- SamplesAligned: `usleep` is exact, and every poll ends before the next multiple of the period.
- HTTP headers, the first of the two calls for a request, and methods other than GET.
- Failing allocations, freeing, and the casts between setters and slots.
- src/load.c, src/infiniband.c, src/memory.c, src/temperature.c, src/network.c, src/likwid.c and
  src/display_manager.c: they repeat the patterns above or wrap a library.
- The `/proc/cpuinfo` client of `parse` in src/amd_rapl.c, and opening the MSR files.
