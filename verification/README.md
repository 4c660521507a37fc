# gtools, verified

Models of ten parts of gtools, and proofs of what they promise. Each part follows its source file:
what the source computes by expressions is a function, what it does step by step is a method or a
class whose contract ties it to such a function, and the promises are lemmas about those functions.

- **C-to-Python translator.** `ControlFlow` gives C statements and the Python subset a meaning with a
  budget of loop entries; `Lowering` is the translation of `switch`, `for` and `do`; `LoweringProof`
  shows that it preserves meaning; `LoweringLimits` and `LoweringShapes` show exactly where it stops
  doing so; `LoweringMeaning` says what it computes for every statement, right or not; `SwitchNames`
  shows that the numbered temporaries never clash. `Pratt` is the expression parser, `PrattProof` shows
  that it and a printer undo each other, and `PrattGrouping` how operators group. The binding powers are
  those of the table in the source.
- **Reactive signals.** `Signals` is the propagation through objects, `SignalGraph` what every signal's
  value is after any sequence of operations.
- **MIDI timing.** `TempoMap` converts between ticks and times, `NotePairing` reads the notes of a
  track, `Quantize` snaps them to a grid and derives the grid from the notes. `StableSort` is
  Python's sort.
- **Audio mixer.** `Mixer` is the callback, `MixerRun` whole runs of it.
- **Hosts file.** `Text` is the string operations, `Hosts` parsing and rendering, `HostsReplace` the
  `replace` operation judged on the file read back.
- **Byte buffer.** `Binary` packs integers, `Buffers` is the buffer, `BufferProof` what holds of runs,
  round trips and nested blocks.
- **Hex dump.** `HexDump` prints and reads back, `HexDumpProof` says when that gives the bytes again.
- **Smaller parts.** `LineDrawer`, `AckQueues` and `CIdent` (with `Numerals`).

Where the code does less than it seems to promise, the model follows the code and the exact condition
is proved. A `default` that is not last, or that follows an empty case, reads an unbound variable or
swallows a later case (`LoweringLimits.DefaultPlacementIsExact`). A `continue` skips the post clause of
a lowered `for` and the test of a lowered `do`, and restarts a lowered switch; a `break` inside an
unbraced `default` is dropped (`LoweringShapes`). These conditions are about shapes: which statements
of a body continue its loop or break off the `default`. A single loop of a bad shape may still come out
right, as one whose `continue` is never reached; for every bad shape there is one that does not. What the
lowered statement does in either case is `LoweringMeaning.StatementMeans`.
`replace` leaves a line alone that lists the hostname twice and nothing else. `restore` is documented to
read the dumps of `hexdump`, but raises on an empty dump and on one whose last line is a single space
character. On a map with more than one tempo the derived grid can miss notes. A letter beyond ASCII
stays in a name made an identifier.

## Model

| member | source | states |
|---|---|---|
| Lowering.Translator.Statement | gtools/core/c_parser.py:890-1158 | translating a statement raises exactly if a switch in it has no arms; otherwise it yields the specified Python tree, advances the switch counter past every switch inside it, and leaves the stack of open switches as it was |
| Lowering.Translator.Switch | gtools/core/c_parser.py:1017-1127 | the same for a switch: a number of its own, the arms read and folded, the tests emitted, the number taken off the stack |
| Lowering.Translator.For | gtools/core/c_parser.py:980-1016 | the same for a `for`, with the clauses that are there |
| Lowering.Translator.Statements | gtools/core/c_parser.py:1170-1178 | the same for a run of statements, in order |
| Lowering.Translator.Body | gtools/core/c_parser.py:879-888 | the same for a braced body, where an empty one becomes `pass` |
| Lowering.Translator.DefaultStatements | gtools/core/c_parser.py:1144-1158 | the statements after an unbraced `default`, with every `break` dropped and the counter still advanced for each |
| Lowering.Translator.Arms | gtools/core/c_parser.py:1130-1158 | every arm keeps its label and gets the body its kind (braced, unbraced case, unbraced default) calls for |
| Lowering.Translator.MergeCases | gtools/core/c_parser.py:1026-1045 | arms without statements are folded into the next arm that has some; those left at the end get `pass`; no emitted test is without a label |
| Lowering.Translator.EmitAll | gtools/core/c_parser.py:1066-1121 | one test per folded group of arms, in order |
| LoweringProof.ScanIsSelection | gtools/core/c_parser.py:1017-1158 | with `default` well placed, jumping to a label as in section 6.8.4.2 of ISO/IEC 9899:2011 and testing the arms one after the other with fall-through end alike, up to the `break` that ends a switch |
| LoweringProof.NodeStep | gtools/core/c_parser.py:1080-1121 | what one emitted test does to the three temporaries and when its statements run |
| LoweringProof.ArmsSimulate | gtools/core/c_parser.py:1066-1124 | the emitted tests, with labels still to be folded in, do what the scan over the remaining arms does, nested switches included |
| LoweringProof.SupportedIsTranslatable | gtools/core/c_parser.py:890-1127 | the translator raises on no supported statement |
| LoweringProof.SwitchSimulates | gtools/core/c_parser.py:1017-1127 | for every store, budget and list of supported arms a switch and its `while True` block end alike, in stores that agree on the program's variables, and the block writes no temporary outside its own numbers |
| LoweringProof.DoSimulates | gtools/core/c_parser.py:967-979 | the same for `do` and its `while True` loop, non-terminating runs included |
| LoweringProof.WhileSimulates | gtools/core/c_parser.py:957-966 | the same for `while`, with `continue` and `break` |
| LoweringProof.ForLoopSimulates | gtools/core/c_parser.py:995-1012 | the iterations of a `for` and the `while` with the post clause appended end alike at every budget; `continue` is allowed when there is no post clause |
| LoweringProof.ForSimulates | gtools/core/c_parser.py:980-1016 | the same with the init clause, including one that fails |
| LoweringProof.StatementSimulates | gtools/core/c_parser.py:890-1127 | every supported statement, nested in any way, means the same as its lowering at every budget |
| LoweringProof.SeqSimulates | gtools/core/c_parser.py:1170-1178 | a run of supported statements means the same as its lowering |
| LoweringProof.SameBehaviour | gtools/core/c_parser.py:890-1127 | a supported statement ends, with some outcome and variables, exactly when its lowering ends so; hence one runs for ever exactly when the other does |
| LoweringProof.EndIsUnique | gtools/core/c_parser.py:890-1127 | what a statement ends with does not depend on the budget it was given, on either side |
| LoweringLimits.DefaultPlacementIsExact | gtools/core/c_parser.py:1026-1045 | for distinct labels, the lowering is right for every way of filling in the arms if and only if `default` is well placed (last, and not after an arm without statements) |
| LoweringLimits.MisplacedDefaultGoesWrong | gtools/core/c_parser.py:1026-1045 | every misplaced `default` has a filling, a subject and a store for which the lowering ends differently |
| LoweringShapes.ForIsExact | gtools/core/c_parser.py:1009-1012 | for every `for` of supported parts: all loops with the same places of `continue` in the nesting of the body, and a post clause if it has one, whatever else they hold, are lowered rightly, if and only if there is no post clause or the body does not continue the loop |
| LoweringShapes.DoIsExact | gtools/core/c_parser.py:978-979 | for every `do` of supported parts: all loops with the same places of `continue`, whatever else they hold, are lowered rightly, if and only if the body does not continue the loop |
| LoweringShapes.SwitchContinueIsExact | gtools/core/c_parser.py:1123-1124 | for every switch of supported parts: with the same labels and places of `continue`, inside any `while`, all are lowered rightly, if and only if no arm continues the loop |
| LoweringShapes.DefaultBreakIsExact | gtools/core/c_parser.py:1151-1156 | for every switch of supported parts: with the same places of `break` in an unbraced `default`, whatever else the arms hold, all are lowered rightly, if and only if only breaks follow the first `break` there |
| LoweringShapes.TestsReach | gtools/core/c_parser.py:1066-1124 | the emitted tests pass over every arm before the one C jumps to and run that one, from a store with the same program variables |
| LoweringShapes.ReachedInC | gtools/core/c_parser.py:1017-1158 | the arm C jumps to is run and falls through into the rest |
| LoweringShapes.FilledDoRuns | gtools/core/c_parser.py:978-979 | for every outline with a `continue`, a `do` that never ends when lowered |
| LoweringShapes.FilledForRuns | gtools/core/c_parser.py:1009-1012 | for every outline with a `continue`, a `for` that never ends when lowered |
| LoweringShapes.RefilledRestarts | gtools/core/c_parser.py:1123-1124 | for every switch outline with a `continue`, a switch that restarts for ever when lowered |
| LoweringLimits.ContinueInForIsWrong | gtools/core/c_parser.py:1009-1012 | a `for` with `continue` that ends in C and never ends when lowered |
| LoweringLimits.ContinueInDoIsWrong | gtools/core/c_parser.py:978-979 | a `do` with `continue` that ends in C and never ends when lowered |
| LoweringLimits.ContinueInSwitchIsWrong | gtools/core/c_parser.py:1123-1124 | a counting `while` around a switch with `continue` that ends in C with the count 1 and never ends when lowered |
| LoweringLimits.BreakInsideDefaultIsWrong | gtools/core/c_parser.py:1151-1156 | a `default` with an inner `break` after which the lowered program runs on |
| LoweringMeaning.StatementMeans | gtools/core/c_parser.py:890-1127 | for every statement of the program's own expressions, supported or not, every store and every budget, the lowering ends as a second semantics of C statements says, which knows no Python: C's own, but `continue` skips the post clause of a `for` and the test of a `do` and restarts a switch, breaks at the top of an unbraced `default` do nothing, and arms are tried in groups |
| LoweringMeaning.ForLoopMeans | gtools/core/c_parser.py:995-1012 | the iterations of any `for`: the post clause runs after every turn that ends normally, and is skipped after one that continues |
| LoweringMeaning.DoMeans | gtools/core/c_parser.py:967-979 | any `do`: the test is skipped after a turn that continues |
| LoweringMeaning.SwitchMeans | gtools/core/c_parser.py:1017-1127 | any switch, `default` anywhere: the groups of arms are tried in order, a lone `default` is taken if no label was hit so far, one in a group is compared with the variable `_`, and `continue` restarts the switch |
| LoweringMeaning.ArmsMean | gtools/core/c_parser.py:1066-1124 | the emitted tests of any arms, with labels still to be folded in, enter the same arms and fall through alike |
| LoweringMeaning.DefaultMeans | gtools/core/c_parser.py:1144-1158 | the statements of an unbraced `default` run as if its own breaks were not there |
| LoweringMeaning.NodeMeans | gtools/core/c_parser.py:1080-1121 | one emitted test: when its statements run, when it fails, and the temporaries they start with |
| LoweringMeaning.SupportedMeansC | gtools/core/c_parser.py:890-1127 | on supported statements that second semantics is C's |
| SwitchNames.RenderInjective | gtools/core/c_parser.py:1048-1050 | the three numbered temporaries of different switches never share an identifier, nor do they clash with a program variable that is not spelt like one |
| SwitchNames.NumbersAreCounter | gtools/core/c_parser.py:1023-1050 | a lowered statement numbers its switches, nested ones included, with exactly the counter values it used up, each once, outer before inner |
| Pratt.CParser.ParseExpression | gtools/core/c_parser.py:557-587 | parsing from the cursor gives the specified tree and leaves the cursor where it ends, or fails with the specified error |
| Pratt.CParser.PrefixOrOperand | gtools/core/c_parser.py:672-749 | an operand, or a prefix operator with its operand read at power 130; `AMP` is read and then refused |
| Pratt.CParser.Extend | gtools/core/c_parser.py:751-877 | one call, index, infix, conditional or member access added to the tree so far |
| Pratt.CParser.Arguments | gtools/core/c_parser.py:757-764 | the arguments of a call up to the token that is no comma |
| Pratt.CParser.Expect | gtools/core/c_parser.py:275-279 | takes the next token exactly if it has the wanted type |
| PrattProof.ParseReaches | gtools/core/c_parser.py:557-587 | on the tokens of a tree in normal form the loop reaches their end with exactly that tree, whatever minimum power below its left edge it was started with |
| PrattProof.PrintThenParse | gtools/core/c_parser.py:557-877 | parsing the printed tokens of a normal tree returns the tree and consumes exactly those tokens, in any context that does not bind to it |
| PrattProof.ParseIsFaithful | gtools/core/c_parser.py:557-587 | whatever the parser accepts prints back as the tokens it consumed, is in normal form for the minimum power, and was not cut short |
| PrattProof.LedIsFaithful | gtools/core/c_parser.py:751-877 | the same for each step that extends a tree |
| PrattProof.AcceptedIffNormal | gtools/core/c_parser.py:193-877 | a token sequence is accepted whole with a tree if and only if the tree is normal and prints as that sequence |
| PrattProof.PrintIsInjective | gtools/core/c_parser.py:193-877 | two normal trees that print alike are the same: the grammar of the table is unambiguous |
| PrattProof.ParseThenPrint | gtools/core/c_parser.py:557-587 | printing what was accepted gives back the consumed front of the tokens, and nothing after it binds |
| PrattGrouping.AcceptedIffGrouped | gtools/core/c_parser.py:193-877 | a token sequence is accepted whole with a tree if and only if the tree prints as that sequence and its operators bind as the classes of operators, written out without the table, demand |
| PrattGrouping.NormalIffGrouped | gtools/core/c_parser.py:193-235 | for every tree: bound as the table demands is bound as the classes demand |
| PrattGrouping.BinariesGroup | gtools/core/c_parser.py:201-220 | for all operands and any two binary operators, `a j b k c` is read as `(a j b) k c` if the class of j is at or above that of k, else as `a j (b k c)`; the classes from `*` down to `&#124;&#124;` are written out |
| PrattGrouping.AssignmentsGroup | gtools/core/c_parser.py:201-233 | assignments group to the right, and bind less tightly than every binary operator on either side |
| PrattGrouping.ConditionalsGroup | gtools/core/c_parser.py:221 | the conditional groups to the right, and any expression stands between `?` and `:` |
| PrattGrouping.BeforeConditional | gtools/core/c_parser.py:201-233 | a binary operator before `?` belongs to the condition; an assignment there takes the whole conditional |
| PrattGrouping.AfterConditional | gtools/core/c_parser.py:201-233 | a binary operator after `:` belongs to the last branch; an assignment there has the conditional on its left |
| PrattGrouping.PrefixBindsTighter | gtools/core/c_parser.py:672-749 | a prefix operator on either side of a binary one takes its own operand only |
| PrattGrouping.PostfixBindsTightest | gtools/core/c_parser.py:194-197 | index, call and member access belong to the operand of a prefix operator before them; any expression stands in the brackets |
| Signals.Signal.AddDependent | gtools/core/signal.py:31-34 | a dependent is appended once |
| Signals.Signal.Rederive | gtools/core/signal.py:36-49 | recomputing a signal takes it off the out-of-date ones and adds none, touches no source and nothing created earlier, and ends because ranks grow along dependents |
| Signals.Signal.NotifyDependents | gtools/core/signal.py:48-49 | after the loop every dependent is up to date and nothing else has become out of date, diamonds and repeated visits included |
| Signals.Signal.Set | gtools/core/signal.py:55-64 | refused on a derived signal; otherwise the source has the value, no other source changed, and everything derived is up to date |
| Signals.Signal.Update | gtools/core/signal.py:66-75 | the same with the function applied to the old value |
| Signals.Signal.Derive | gtools/core/signal.py:15-29 | refused without dependencies; otherwise a new signal of the next rank, known to its dependencies, with everything up to date and no value changed |
| Signals.Signal.Register | gtools/core/signal.py:26-27 | every dependency, and nobody else, gains the signal as a dependent, once |
| SignalGraph.SettledIsDenoted | gtools/core/signal.py:36-75 | when nothing is out of date every signal has the value that its declaration, unfolded down to the sources, denotes |
| SignalGraph.PathsClimb | gtools/core/signal.py:16-49 | a path along dependents never returns to its start and is no longer than the number of signals created since |
| SignalGraph.Graph.Perform | gtools/core/signal.py:15-75 | after any one creation, `derive`, `set` or `update` the declarations are those of the simple model and every signal has the value it denotes |
| SignalGraph.Graph.Run | gtools/core/signal.py:15-75 | the same after any sequence of operations |
| TempoMap.TickToSec | gtools/core/midi.py:65-79 | the time of a tick is the sum over the earlier ticks of the tempo in force at each |
| TempoMap.SecondsIncrease | gtools/core/midi.py:65-79 | times of ticks are ordered and distinct exactly as the ticks are |
| TempoMap.SegmentSeconds | gtools/core/midi.py:70-77 | within a stretch of one tempo the time grows by length times tempo |
| TempoMap.SteadyTempo | gtools/core/midi.py:50-79 | at one tempo throughout time is ticks times tempo; without tempo changes two beats take a second |
| TempoMap.SecToTick | gtools/core/midi.py:81-98 | the tick found is at least every tick not after the time and at most every tick not before it; for the time of a tick that is the tick itself |
| TempoMap.FromTracks | gtools/core/midi.py:103-119 | the map starts at tick 0, its ticks strictly increase, and at each tick it has the first change in file order, with the default tempo at 0 if there is none |
| TempoMap.CollectEvents | gtools/core/midi.py:105-111 | the tempo changes of all tracks in file order with absolute ticks |
| TempoMap.Dedup | gtools/core/midi.py:117-118 | of sorted changes, exactly the first of every tick, in order |
| TempoMap.WithStart | gtools/core/midi.py:113-115 | sorting and starting at 0 keep the first change listed for every tick |
| StableSort.SortSorts | gtools/core/midi.py:396 | sorting puts a list in order |
| StableSort.SortPermutes | gtools/core/midi.py:396 | sorting only permutes |
| StableSort.SortKeepsOrder | gtools/core/midi.py:396 | elements that were in order among themselves keep that order |
| NotePairing.PairNotes | gtools/core/midi.py:343-394 | for every channel and pitch the notes made and the note-ons pending are those of the pairing by order: the i-th note-on ends at the i-th note-off that found one |
| NotePairing.EndNote | gtools/core/midi.py:363-394 | a note-off ends the oldest pending note-on of its key, or does nothing if there is none |
| NotePairing.ParseTrack | gtools/core/midi.py:343-399 | the track's notes are ordered by start, then channel, then pitch; for every key they are the paired notes in order, and the note-ons are exactly the emitted ones followed by the pending ones |
| NotePairing.AdvanceReads | gtools/core/midi.py:350-394 | each message keeps the reader's clock, name, programs, pending lists and notes equal to what the messages so far say |
| NotePairing.TicksAreOrdered | gtools/core/midi.py:349-367 | note-ons come in tick order and no note-off is before the note-on it ends |
| NotePairing.EndsAfterStart | gtools/core/midi.py:370-391 | no note ends before it starts and no duration is negative |
| NotePairing.PendingIsLargestSurplus | gtools/core/midi.py:359-366 | how many notes stay pending, without following the pairing: the largest surplus of note-ons over note-offs in any final stretch of the track |
| NotePairing.NotesInOrder | gtools/core/midi.py:396 | the notes of one key come out already in sorted order |
| NotePairing.NoteData | gtools/core/midi.py:359-394 | pitch, channel, velocity, program in force, drum flag and start of a note come from its note-on message, off-velocity, track name and end from its note-off, for every track |
| Quantize.SnapDistance | gtools/core/midi.py:178-184 | snapping moves a time by at most half a slot, and not at all exactly if it lies on the grid |
| Quantize.SnapIsClose | gtools/core/midi.py:177-210 | a quantised note starts within half a slot, has its minimum length, and ends within half a slot unless it has exactly that |
| Quantize.SnapsToNearest | gtools/core/midi.py:178-181 | a quantised note starts at the slot nearest to its start, the even one of two, and ends at the slot nearest to its end, or, if that is less than the minimum length away, exactly the minimum length after its start |
| Quantize.LongNotesKeepTheirEnd | gtools/core/midi.py:178-181 | a note at least one slot longer than the minimum ends at the slot nearest to its end, within half a slot |
| Quantize.NearestIsUnique | gtools/core/midi.py:178-179 | only one slot is the nearest |
| Quantize.SnappedTimes | gtools/core/midi.py:183-208 | times, durations and errors are those of the slots |
| Quantize.SlotsKeepOrder | gtools/core/midi.py:178 | quantising keeps the order of starts |
| Quantize.GcdIsGreatest | gtools/core/midi.py:539 | every common divisor divides the computed one |
| Quantize.CommonDivisor | gtools/core/midi.py:537-541 | in spite of the early exit the result divides all the ticks and every common divisor divides it |
| Quantize.TickGcdBps | gtools/core/midi.py:521-545 | the grid comes from a divisor of every tick the notes touch, and the greatest such |
| Quantize.TickInSlots | gtools/core/midi.py:543-545 | where a tick lies on the grid, for any tempo map |
| Quantize.ExactIff | gtools/core/midi.py:480-484 | for any tempo map, a note does not move exactly if divisor times first tempo divides the total tempo up to both its ends |
| Quantize.NoteIsExactIff | gtools/core/midi.py:480-484 | the same for a note on the grid found, also when no note touches a positive tick |
| Quantize.ErrorsAddUp | gtools/core/midi.py:487-495 | with positive weights the total error is 0 exactly if every note's error is |
| Quantize.FileIsExactIff | gtools/core/midi.py:480-545 | for any tempo map and positive weights, on the grid found for a list of notes: the total error is 0 exactly if divisor times first tempo divides the total tempo up to every tick a note touches |
| Quantize.TrackGrid | gtools/core/midi.py:319-399 | from the messages of a track to its notes, the grid found for them, and exactly when it moves none of them; with one tempo it never does |
| Quantize.SingleTempoIsExact | gtools/core/midi.py:480-545 | with one tempo no note moves on that grid and the total error is 0 for every weighting |
| Quantize.ParsedNotesAreOnTicks | gtools/core/midi.py:370-371 | notes read from a track do start and end at ticks, as the grid needs |
| Quantize.TwoTempiCanMiss | gtools/core/midi.py:480-545 | a map with two tempi and a note for which the grid found, whose divisor can only be 2, moves the note |
| Mixer.PlaybackHandle.Read | gtools/core/mixer.py:66-70 | the next frames, on either channel times the gain, as many as asked for or as are left, and the position moved by that many |
| Mixer.AudioMixer.Play | gtools/core/mixer.py:107-108 | a new handle at the front of the waiting ones |
| Mixer.AudioMixer.Callback | gtools/core/mixer.py:114-144 | the block is the amplified mix of all sounds from the current frame on, waiting sounds start now in the order they were played, and exactly the exhausted streams are dropped |
| Mixer.AudioMixer.Render | gtools/core/mixer.py:129-144 | the block is the mix of the streams, and those with frames left remain |
| Mixer.AudioMixer.Admit | gtools/core/mixer.py:123-127 | the waiting handles move behind the streams, oldest first |
| Mixer.MixBlock | gtools/core/mixer.py:129-140 | adding up chunk after chunk gives the mix of all voices; survivors are the live voices |
| Mixer.AddChunk | gtools/core/mixer.py:132-136 | a chunk, possibly short, adds one voice to the mix |
| Mixer.WriteOut | gtools/core/mixer.py:141-144 | the mix times the gain, frame by frame |
| Mixer.LiveSuffices | gtools/core/mixer.py:137-138 | dropping exhausted voices changes neither the mix from then on nor what is live later |
| Mixer.PlayingIsEnough | gtools/core/mixer.py:123-140 | live voices and starting ones carry the whole mix; blocks join without gap or overlap |
| MixerRun.Run | gtools/core/mixer.py:107-144 | for any interleaving of plays and callbacks of any sizes the output has, on either channel and in each frame, the master gain times the sum of gain times sample over the sounds playing then, each shifted to the first callback after its play |
| MixerRun.HeardIsSum | gtools/core/mixer.py:66-144 | the specified output is, frame by frame and channel by channel, that sum of real numbers |
| MixerRun.Perform | gtools/core/mixer.py:107-144 | each play or callback moves the mixer as it moves the timeline |
| MixerRun.JoinedIsSame | gtools/core/mixer.py:114-144 | merging neighbouring callbacks changes nothing |
| MixerRun.CutsDoNotMatter | gtools/core/mixer.py:114-144 | two runs that differ only in how the frames are cut are heard alike |
| MixerRun.TrackSums | gtools/core/mixer.py:66-70 | up to any frame a voice has contributed exactly its samples up to there, each once |
| MixerRun.NothingLostOrRepeated | gtools/core/mixer.py:114-144 | when every sound is over, the output adds up to all the sounds with their gains |
| Hosts.RenderThenParse | gtools/core/hosts.py:18-109 | every entry of words, disabled or with a comment, survives being rendered and parsed if its address is one, and is no entry otherwise |
| Hosts.RenderedText | gtools/core/hosts.py:18-22 | the text of an entry, with its tab, spaces, comment and the sign that disables it |
| Hosts.ParsedIsWellFormed | gtools/core/hosts.py:82-109 | every parsed entry is well formed, and its comment never holds the newline that ends its line |
| Text.LinesAreLines | gtools/core/hosts.py:51-53 | reading lines splits the text into lines and loses nothing |
| Text.LinesOfConcat | gtools/core/hosts.py:51-65 | lines written one after the other are the lines read back |
| HostsReplace.WithoutIsFilter | gtools/core/hosts.py:288 | the hostnames left on a split line are the others, in order and as often as before |
| HostsReplace.SoundIsReadBack | gtools/core/hosts.py:55-65 | a serialised line reads back with the same entry, as far as its address is one |
| HostsReplace.WrittenLines | gtools/core/hosts.py:55-65 | the file holds the texts of the edited lines as its lines, unless an address with a newline is written |
| HostsReplace.LineBindings | gtools/core/hosts.py:283-330 | what one line binds after the edit |
| HostsReplace.ReadBack | gtools/core/hosts.py:296-332 | for every word given as address the new file reads back as the edited lines, entry by entry, but for entries whose new address is none |
| HostsReplace.ReadBackEntries | gtools/core/hosts.py:283-332 | for every address that is a word, the entries read back are, in order: on a line that lists the hostname alone the address changes and the comment stays; on one that lists others they stay in order with their comment, and a line for the hostname without comment follows; the disabled original before them when it is kept |
| HostsReplace.ReplaceIsPointUpdate | gtools/core/hosts.py:296-332 | judged on the file read back, for every string given as address: `replace` binds the hostname to the address alone if it was bound, and changes no other binding, if and only if the hostname is not bound at all, or the string is an address and no active line lists the hostname more than once and nothing else under another address; with or without keeping the original |
| HostsReplace.TwiceListedIsStuck | gtools/core/hosts.py:283-330 | a file of one line on which `replace` is no point update: the hostname listed twice under another address |
| HostsReplace.ReplaceKeepsOriginals | gtools/core/hosts.py:258-332 | exactly the replaced entries are added to the disabled ones when originals are kept, none otherwise |
| HostsReplace.OtherLinesStay | gtools/core/hosts.py:316-318 | a line that is no active entry of the hostname is kept to the byte |
| HostsReplace.LinesTakeTheirPlace | gtools/core/hosts.py:296-332 | for every string given as address the new lines are those that take the place of the old ones, in order, if and only if the string has no newline or is written on no line |
| HostsReplace.NothingToWrite | gtools/core/hosts.py:331-332 | not writing when nothing changed leaves the file the edit would have written |
| HostsReplace.HostsFileManager.Parse | gtools/core/hosts.py:82-109 | one parsed line per line |
| HostsReplace.HostsFileManager.Serialize | gtools/core/hosts.py:55-65 | the texts of the lines in order |
| HostsReplace.HostsFileManager.Replace | gtools/core/hosts.py:296-332 | the file becomes the edited one |
| Binary.PackThenUnpack | gtools/core/buffer.py:64-75 | every integer of a format comes back from its bytes, signed or not, in either byte order |
| Binary.UnpackThenPack | gtools/core/buffer.py:64-75 | every run of bytes is the packed form of the integer it unpacks to |
| Binary.PackedBytes | gtools/core/buffer.py:72-75 | byte i of a little-endian number, and byte i from the end of a big-endian one, is the number divided by 256 to the i, modulo 256; negative numbers as two's complement |
| Binary.UnpackedSum | gtools/core/buffer.py:64-70 | what is read is the sum of the bytes times powers of 256, lightest first or last as the byte order says, the upper half of a signed format counting as negative |
| Binary.FormatRanges | gtools/core/buffer.py:77-110 | the sizes of the eight integer formats and the integers each can hold |
| Buffers.Buffer.constructor | gtools/core/buffer.py:14-25 | the given bytes, reading from 0, writing at the end |
| Buffers.Buffer.EnsureCapacity | gtools/core/buffer.py:33-36 | zeros up to the size, nothing else |
| Buffers.Buffer.WriteRaw | gtools/core/buffer.py:58-62 | the bytes lie over the old ones at the write cursor, a gap before them is zero, and the cursor is behind them |
| Buffers.Buffer.SeekWrite | gtools/core/buffer.py:242-254 | moves the write cursor, or refuses an unknown origin or a negative place and moves nothing |
| Buffers.Buffer.SeekRead | gtools/core/buffer.py:214-226 | the same for the read cursor |
| Buffers.Buffer.ReadRaw | gtools/core/buffer.py:38-45 | the slice after the cursor, for any count, or an end-of-file error that moves nothing |
| Buffers.Buffer.ReadRawBack | gtools/core/buffer.py:47-56 | the bytes before the cursor, or an error that moves nothing |
| Buffers.Buffer.ReadBytes | gtools/core/buffer.py:143-151 | in the direction of the flag, for any count; -1 means the rest, and negative counts are refused backward |
| Buffers.Buffer.ReadFmt | gtools/core/buffer.py:64-70 | one number in the buffer's byte order and direction |
| Buffers.Buffer.WriteFmt | gtools/core/buffer.py:72-75 | the packed number, or nothing if it does not fit |
| Buffers.Buffer.ReadCString | gtools/core/buffer.py:166-179 | the bytes up to the first zero, the cursor behind it; an error at the end of the buffer, with the cursor there, or before its start |
| Buffers.Buffer.ReadPascalBytes | gtools/core/buffer.py:203-208 | as many bytes as the prefix, signed or not, says |
| Buffers.Buffer.WritePascalBytes | gtools/core/buffer.py:210-212 | prefix and bytes, or nothing if the length does not fit |
| Buffers.Buffer.ReadAllReversed | gtools/core/buffer.py:314-325 | fields read inside `reversed()`: from the end backward, with the direction, and the cursor if asked for, given back |
| Buffers.Buffer.Perform | gtools/core/buffer.py:302-333 | a reading command or a nested block has the specified effect, also when something inside it raises |
| BufferProof.Carry | gtools/core/buffer.py:58-62 | a run of writes and write seeks on a buffer follows the simple model |
| BufferProof.LastWriteWins | gtools/core/buffer.py:33-62 | after any run of writes and seeks the length is the furthest end of the start and the writes, each byte is that of the last write covering it, else the one there before, else zero |
| BufferProof.SeekOrigins | gtools/core/buffer.py:242-254 | seeking to the end appends, seeking to an offset from the start writes there |
| BufferProof.SeekBack | gtools/core/buffer.py:242-254 | seeking back from where the cursor is overwrites what was just written |
| BufferProof.EditsLeaveReading | gtools/core/buffer.py:58-62 | writing never moves the read cursor or the direction |
| BufferProof.FieldsComeBack | gtools/core/buffer.py:38-212 | fields written are the fields read, in either byte order, whatever surrounds them |
| BufferProof.OnlyCleanFieldsComeBack | gtools/core/buffer.py:166-183 | fields that come back hold no zero byte in a C string |
| BufferProof.WriteThenRead | gtools/core/buffer.py:38-212 | written to an empty buffer, fields read as they were and end at the end of the buffer, if and only if no C string holds a zero byte |
| BufferProof.WriteAndRead | gtools/core/buffer.py:38-212 | on a buffer object: written and read back, the fields are the same if and only if no C string holds a zero byte, and then the buffer is at its end |
| BufferProof.WriteAndReadReversed | gtools/core/buffer.py:314-325 | on a buffer object: written and read inside `reversed()`, fixed-width and raw fields come back last first, the cursor at 0 and the direction given back |
| BufferProof.FieldsComeBackward | gtools/core/buffer.py:47-75 | read backward from their end, fixed-width and raw fields come back last first |
| BufferProof.WriteThenReadReversed | gtools/core/buffer.py:314-325 | inside `reversed()` such a buffer reads back to front and ends at position 0 |
| BufferProof.BlocksRestore | gtools/core/buffer.py:302-333 | reading commands and blocks nested in any way, raising or not, leave contents, write cursor and direction alone; `temp` and blocks that do not keep the cursor give it back |
| HexDump.Chunks | thirdparty/hexdump.py:122-135 | pieces of the size, the last one shorter |
| HexDump.DumpGen | thirdparty/hexdump.py:179-211 | the lines of the dump |
| HexDump.Restore | thirdparty/hexdump.py:241-279 | the bytes of all lines in order, or the failure of one |
| HexDumpProof.HexPartIsGapped | thirdparty/hexdump.py:190-193 | the hex part of a line is the bytes with one space between them and two in the middle |
| HexDumpProof.LineColumns | thirdparty/hexdump.py:187-211 | in every line each byte stands in two capital hex digits in its column, and from column 52 after the address on as a character, or a dot if it cannot be printed |
| HexDumpProof.AddressReads | thirdparty/hexdump.py:188 | an address stands for its number in hex, in eight digits if that is enough |
| HexDumpProof.GappedFromHex | thirdparty/hexdump.py:156-162 | the hex part, with any spaces after it, decodes to the bytes |
| HexDumpProof.SelectFull | thirdparty/hexdump.py:266-277 | when something is left of the text column, the separator test picks out the hex part and spaces, for every line length |
| HexDumpProof.SelectBare | thirdparty/hexdump.py:266-277 | the same for a line stripped back to its hex part, which fails for a single byte |
| HexDumpProof.AddressLength | thirdparty/hexdump.py:188 | addresses below 16 to the 31st have fewer than 32 digits, others do not |
| HexDumpProof.AddressedLine | thirdparty/hexdump.py:261-265 | a shorter address is cut off; a longer one is taken for data and refused |
| HexDumpProof.DumpSplits | thirdparty/hexdump.py:259-260 | stripping and splitting the text gives the lines of the dump, the last one stripped |
| HexDumpProof.LineDecodes | thirdparty/hexdump.py:260-278 | what each line decodes to, and which line fails |
| HexDumpProof.DumpReadsBack | thirdparty/hexdump.py:179-279 | for every byte string, restoring its dump gives it back, or raises exactly if it is empty, or its last line is a single 0x20, or an address has 32 digits |
| LineDrawer.Bresenham | extension/utils.py:32-56 | the points are the cells nearest to the true line at every step along the longer axis |
| LineDrawer.ErrorSteps | extension/utils.py:51-56 | the error term keeps the cell within half a cell of the line |
| LineDrawer.OnlyNearest | extension/utils.py:51-56 | no other cell is that close |
| LineDrawer.LineJoinsEnds | extension/utils.py:32-56 | one point more than the longer extent, from the one end to the other, in all octants and degenerate cases |
| LineDrawer.LineIsConnected | extension/utils.py:51-56 | consecutive points differ and touch, at least by a corner |
| LineDrawer.LineIsClose | extension/utils.py:32-56 | in every direction each point is within half a cell of the true line |
| AckQueues.AckQueue.Put | gtools/core/ack_queue.py:14-17 | the item goes to the end |
| AckQueues.AckQueue.Get | gtools/core/ack_queue.py:19-47 | the active item, else the head made active, else empty-handed when it does not wait or its deadline has passed, else waiting |
| AckQueues.AckQueue.Ack | gtools/core/ack_queue.py:52-67 | the head leaves, or an error, the two internal ones included |
| AckQueues.AckQueue.Interleave | gtools/core/ack_queue.py:14-67 | any interleaving of the threads' steps has the specified replies and state |
| AckQueues.StepRefines | gtools/core/ack_queue.py:14-67 | each step is one step of a log with a counter and a flag |
| AckQueues.RunRefinesLog | gtools/core/ack_queue.py:14-67 | so every run replies as the log does, and the queue is the part of the log not acknowledged |
| AckQueues.NothingLost | gtools/core/ack_queue.py:14-67 | items acknowledged followed by the queue are the items put, in order; an item is active exactly while handed out, and then it is the head |
| AckQueues.NoInternalError | gtools/core/ack_queue.py:57-64 | neither internal error ever occurs |
| AckQueues.SameItemUntilAck | gtools/core/ack_queue.py:19-47 | until it is acknowledged every `get` hands out the same item |
| CIdent.HalveShrinks | gtools/core/c.py:121-122 | each pass of the loop shortens a name with two adjoining underscores, so the loop ends |
| CIdent.HalveKeepsCollapse | gtools/core/c.py:121-122 | a pass changes nothing but the lengths of runs of underscores |
| CIdent.CollapseRuns | gtools/core/c.py:121-122 | the loop turns every run of underscores into one |
| CIdent.BaseIsIdentifier | gtools/core/c.py:107-132 | a name gives a legal C identifier that is no keyword, if and only if it has no letter or digit beyond ASCII |
| CIdent.TrimmedChars | gtools/core/c.py:112-124 | spelling, collapsing and trimming leave word characters and all the letters and digits beyond ASCII |
| CIdent.TidyStays | gtools/core/c.py:107-132 | a name that is a tidy identifier already stays as it is |
| CIdent.SpecialsByName | gtools/core/c.py:68-104 | each special character is spelled by its name between underscores |
| CIdent.NumberedIsIdentifier | gtools/core/c.py:12 | a numbered identifier is still legal and no keyword |
| CIdent.NumberedInjective | gtools/core/c.py:12 | different numbers give different candidates |
| Numerals.DecimalInjective | gtools/core/c.py:12 | different numbers have different numerals |
| Numerals.DecimalHasValue | gtools/core/c.py:12 | a numeral stands for its number and has no leading zero |
| CIdent.IdentifierRegistry.Dedup | gtools/core/c.py:5-16 | the identifier if it is free, else the first free number from 2 on; the search ends because every candidate tried is taken and they differ |
| CIdent.DedupIsDetermined | gtools/core/c.py:5-16 | that leaves one result only |
| CIdent.ToCIdent | gtools/core/c.py:107-137 | an exception for the empty name, the identifier alone without a registry, the deduplicated one with it |
| CIdent.Identifiers | gtools/core/c.py:107-137 | names taken through one registry form a run |
| CIdent.RunIsDistinctAndLegal | gtools/core/c.py:107-137 | in every run all identifiers differ, and each is legal and no keyword if and only if its name has no letter or digit beyond ASCII |

## Left out

C-to-Python translator:

- LoweringProof.StatementSimulates: integers are unbounded and both sides share one evaluator of expressions, so C's overflow, its integer division and the 0-or-1 value of `&&` and `||` (which Python does not give) are not modelled.
- LoweringProof.StatementSimulates: declarations, labels, `goto`, function definitions and empty statements are not modelled; a declaration in the init clause of a `for` is an assignment expression here.
- Lowering.Translator.Statement: works on syntax trees, so how the statements are cut out of the tokens (`read_inbetween`, `parse_block_stmt`) is not modelled, nor is the failure on a braced case body followed by further statements; an empty `else` block counts as no `else`.
- LoweringShapes.SwitchContinueIsExact: the loop around the switch is a `while`.
- Pratt.CParser.PrefixOrOperand: grouping parentheses, casts and tuples (told apart by a heuristic), `case` and initialisers are refused here; the `eat_comma` context of `if` conditions, `stop_at` and the settings that drop `ref` and `deref` are not modelled.
- Pratt.CParser.Extend: which Python node an operator becomes is not modelled, only the tree of operators; `++` and `--` after an operand have powers but no handler and are refused, as in the source.

Reactive signals:

- Signals.Signal.Rederive: derive functions are pure functions of the declared dependencies' values; locks, waiting and `batch_update` are not modelled, a locked region is one step.

MIDI timing:

- TempoMap.SecToTick: the library's conversion from seconds to ticks is not part of this model; its rounding is any function that moves a value by less than one and leaves whole numbers alone. Times are exact rationals, not floating-point numbers.
- NotePairing.ParseTrack: instrument and pitch names, the grouping by instrument and reading the file are not modelled.
- Quantize.TickGcdBps: the search around the derived grid in `get_best_bps` is not modelled.

Audio mixer:

- Mixer.AudioMixer.Callback: samples are real numbers and gains are constant; the sound device, resampling, level meters and the conversion of the master gain are not modelled.

Hosts file:

- HostsReplace.HostsFileManager.Replace: one hostname only, not a list; the file is a string with newlines already translated; which strings are addresses is a parameter. Parsed lines are values, so sharing of entries between lines is not modelled.
- HostsReplace.ReadBack: for a word given as address; a string with white space or `#` in it can make the written line a comment, another entry or several lines.
- HostsReplace.ReplaceKeepsOriginals: for a word given as address, for the same reason.
- Adding, removing, enabling and disabling entries, backup and restore of the file.

Byte buffer:

- Floating-point formats, text encodings, `peek`, `truncate`, `clear`, `offset_to` and sharing one buffer through the constructor.

Smaller parts:

- AckQueues.AckQueue.Get: clocks are not modelled; whether a deadline has passed is given at each try, and a `get` that has to wait is a step that changes nothing and is tried again. Items are not `None` and equality of items is the language's.
- CIdent.ToCIdent: which characters beyond ASCII are letters or digits, and how they are lowered, is a parameter.
- HexDump.Restore: the two other dump formats are read only as far as lines of `hexdump` reach their branches; streams and the command line are not modelled.

Everything that talks to the game, the network, the screen or the disk.
