# Verified model of the CodeTracer Fuel recorder

The recorder single-steps a FuelVM script and writes a debugger trace: call
frames, source steps, register values and receipt events. This project models
the state machines that fold the step stream into that trace and proves what
the trace says about the run.

- `Prelude`, `Machine`, `TraceLog`, `Writer`: machine words, receipts and
  instructions, the requests a recorder makes, and the trace writer's
  pending-step buffer that turns requests into records.
- `FunctionNames`, `SourceLevel`, `ReturnStack`, `CallTrees`, `SourceRecorder`:
  the source-level recorder. `SourceLevel` is its frame machine on values,
  `SourceRecorder.Session` the object that updates frames in place.
  `ReturnStack` says for any instruction stream exactly when the frames are the
  machine's stack of return addresses; `CallTrees` proves that recording the
  flattening of a call tree renders that tree, cut wherever the run stopped. The
  tree (`CallTrees.Executes`) follows forc's call convention: no address belongs
  to two functions, a call enters another function than its own at an entry
  address, and the address after a call is no entry and no other function's code.
- `ContractCalls`, `Variables`, `Decoders`, `Recorder`, `InstructionRecorder`:
  the instruction-level recorder and its trackers. `Attribution` and
  `RecordedSteps` say on which step each register snapshot ends up, `Snapshots`
  when it is true of the machine, `OpenFrames` when a frame is open throughout,
  `Brackets` and `Nesting` which returns close which calls. `RecordedEvents` is
  about payloads, storage accesses and the names of contract frames,
  `StepPlaces` about where the steps are. `Recordings` compares the two
  recorders.
- `DebugInfo`, `AbiDecoder`, `Listing`: the two forms of forc's source map, the
  three shapes of a Sway ABI, hexadecimal text and the disassembly listing.

A run is a list of single-step states (relative pc, 64 registers, the receipts
so far, the decoded instruction if readable) and a final receipt list extending
the last step's. Addresses are 64-bit and wrap, as in a release build.

Where a name or a comment of the repository promises more than its code does,
the model follows the code, a lemma gives the exact condition and another one an
input at which it fails:

- the frames are the machine's stack of return addresses exactly when every
  return lands on the address it jumps to and no instruction runs at the return
  address of the innermost activation while it is open
  (`ReturnStack.FramesFollowIffArrives`); a function calling itself directly
  fails it (`ReturnStack.SelfCallLosesItsFrame`), runs of forc's call convention
  do not (`CallTrees.ScriptRunsArrive`);
- every snapshot is on the step of its own line exactly when no line goes on
  after its step was written, by the synthesised frame its previous instruction
  opened or by a contract switch (`RecordedSteps.SnapshotsBelong`,
  `RecordedSteps.RepeatedLineMisplaced`);
- `predicate_result` reaches the final step exactly when no line gap was crossed
  and no contract switch came after the last step on its line; otherwise the
  value is never written (`RecordedSteps.PredicateResultAttached`,
  `RecordedSteps.ResultLostAtGap`, `RecordedSteps.ResultLostAtSwitch`);
- every return closes the frame it is meant for exactly when call and return
  receipts match and no line gap is crossed while a contract call is open
  (`Nesting.NestsIffMatched`, `Nesting.UnreturnedCall`, `Nesting.GapInsideCall`);
- every instruction's step is in the instruction's own file exactly when no two
  consecutive instructions share a line number in different files: the
  instruction-level recorder compares lines only
  (`StepPlaces.StepsInTheirFiles`, `StepPlaces.SecondFileLost`);
- a register is shown under the name it gets from the current instruction but
  with its content before that instruction, so the pair is true exactly when
  the instruction has another destination or writes what is there already
  (`Variables.ShownIsTrueUnlessWritten`, `Variables.WrittenRegisterShownStale`);
- printed names are equal exactly when leaves and operations agree from left to
  right, however they are bracketed (`Variables.SameName`,
  `Variables.NamesCanCollide`);
- leaving predicate mode gives the script context back exactly when no
  contract call is left open (`ContractCalls.PredicateModeEnds`,
  `ContractCalls.UnreturnedCallStays`);
- the object form of a source map is the JSON form without its last entry
  exactly when every other entry has a line as well as a column
  (`DebugInfo.ObjectIsJsonMinusLast`, `DebugInfo.UnplacedEntryIsLost`);
- the hex reader accepts a plus sign in place of a leading digit, and what it
  reads is the printed form of the bytes exactly when every character is a
  lower-case digit (`Listing.DecodesIffPairs`, `Listing.PrintedIffLower`,
  `Listing.PlusSignDecodes`).

Some theorems rest on what the machine guarantees, stated as hypotheses: receipt
lists grow, no `ScriptResult` is seen at a step, and every return seen at a step
ends a call seen before it (a run's own terminal receipts are appended after its
last step). What rests on the last two is stated exactly. Every effect is
recorded once, and nothing else, if and only if no `ScriptResult` is seen at a step
(`Recorder.RecordedEffects`). A frame is open until the last request of every
recording whose returns end calls (`OpenFrames.MatchedOpenUntilTheEnd`), of every
script recording whatever it sees (`OpenFrames.ScriptOpenUntilTheEnd`), and of a
predicate recording if and only if what it sees leaves the predicate its context
where that matters (`OpenFrames.PredicateOpenUntilTheEnd`).

## Model

| member | source | states |
|---|---|---|
| `CallTrees.TraceIsRenderedTree` | src/source_level.rs:115-216 | for every run that is a call tree (no direct self-call, disjoint bodies, no return address that is an entry), stopped anywhere, the recorded calls, steps and returns are the rendering of that tree |
| `CallTrees.PrefixTraceIsCutTree` | src/source_level.rs:124-216 | stopping such a run after any number of steps, even right after a call whose callee never executes, records the tree cut there |
| `CallTrees.StoppedTraceIsPrefix` | src/source_level.rs:212-216 | the trace of a stopped run is a prefix of the whole run's trace followed by one return per open frame |
| `CallTrees.CutRendering` | src/source_level.rs:135-216 | cutting a tree cuts its rendering and closes exactly the activations then open |
| `CallTrees.FramesAreShadowStack` | src/source_level.rs:133-166 | at every step the frames hold exactly the return addresses the machine holds when the instruction is about to run |
| `CallTrees.Simulate` | src/source_level.rs:124-198 | from any point of an activation, with any frames below it, the recorder follows it and leaves those frames alone |
| `CallTrees.CutAtExecutes` | src/source_level.rs:124-198 | the cut of a well-formed run is a well-formed run |
| `CallTrees.ShadowOfComplete` | src/source_level.rs:11-13 | the call convention: a finished activation has dropped its own return address |
| `SourceLevel.StepConsistent` | src/source_level.rs:135-197 | any instruction keeps the log's depth equal to the number of frames and the innermost position equal to the latest step since entry or resumption, with no step repeated in a row; a mapped instruction that stays in its frame is the latest step |
| `SourceLevel.RunConsistent` | src/source_level.rs:124-198 | the same holds after any instruction stream, however ill-formed |
| `SourceLevel.TraceWellBracketed` | src/source_level.rs:115-216 | for every stream a frame stays open until the very last return, which closes the last one |
| `SourceLevel.LeavesExactly` | src/source_level.rs:168-185 | on register contents: `jal $zero t off` leaves the frame if and only if what `t` holds plus four times `off`, modulo 2^64, is the innermost return address; `ret` and `retd` always do, nothing else does |
| `SourceLevel.CallSavesAddress` | src/source_level.rs:178-181 | the frame of a call returns to what register 3 held at the call plus four |
| `SourceLevel.ReturnIsSilent` | src/source_level.rs:168-198 | a return through a register that holds the address its call saved writes no step and changes no frame, wherever it is mapped |
| `ReturnStack.FramesFollowIffArrives` | src/source_level.rs:124-198 | for every instruction stream, the frames are the return addresses the machine holds at every step if and only if every return lands where it jumps and no instruction runs at the return address of the innermost activation while it is open |
| `ReturnStack.FollowOn` | src/source_level.rs:133-166 | step by step: frames that followed so far follow on if and only if the next instruction arrives |
| `ReturnStack.PopsExactly` | src/source_level.rs:133-143 | an arrival closes nothing, or the innermost frame alone, exactly under the stated conditions on the return addresses |
| `ReturnStack.SelfCallLosesItsFrame` | src/source_level.rs:133-143 | a five-instruction run with a direct self-call, wherever it is loaded, after which the frames and the machine differ |
| `CallTrees.ScriptRunsArrive` | src/source_level.rs:11-13 | runs of the call convention meet that condition at every instruction |
| `FunctionNames.DeclarationNamesItsFunction` | src/source_level.rs:50-81 | a declaration `fn name...`, however spaced, yields its name |
| `FunctionNames.PublicDeclarationNamesItsFunction` | src/source_level.rs:50-81 | a declaration after `pub` yields its name |
| `FunctionNames.NamedIffDeclared` | src/source_level.rs:67-80 | a text names a function if and only if it reads, however spaced, `fn` and that identifier, or that after `pub` |
| `FunctionNames.DeclaredAtPlace` | src/source_level.rs:50-81 | an entry is named so if and only if its line of its file, counting from one, reads that declaration from its column on |
| `FunctionNames.NamedExactly` | src/source_level.rs:83-94 | the callee is the name declared there, otherwise the entry's place, and for an unmapped entry its index |
| `FunctionNames.Namer.DeclaredAt` | src/source_level.rs:50-81 | the source cache never changes an answer; `FunctionNames.DeclaredAtPlace` says what the answer is |
| `FunctionNames.Namer.NameOf` | src/source_level.rs:83-94 | the cached answer is `NameFor`, which `FunctionNames.NamedExactly` describes |
| `SourceRecorder.Session.RouteNewReceipts` | src/source_level.rs:128-131 | exactly the receipts not seen before are routed, in order |
| `SourceRecorder.Session.CloseReturned` | src/source_level.rs:133-143 | the loop pops what the frame machine pops |
| `SourceRecorder.Session.OpenCalled` | src/source_level.rs:147-166 | a pending call opens its frame under its name at its entry |
| `SourceRecorder.Session.ExamineInstruction` | src/source_level.rs:168-185 | the instruction is judged as the frame machine judges it, which `SourceLevel.LeavesExactly` and `SourceLevel.CallSavesAddress` say on register contents |
| `SourceRecorder.Session.VisitInstruction` | src/source_level.rs:187-197 | a step is written exactly when a staying, mapped instruction moves its frame |
| `SourceRecorder.Session.OnStep` | src/source_level.rs:124-198 | one callback routes the new receipts and then takes the frame machine's step |
| `SourceRecorder.Session.Finish` | src/source_level.rs:200-216 | the remaining receipts are routed, then every open frame is closed |
| `SourceRecorder.RecordWithDebugInfo` | src/source_level.rs:99-224 | refused exactly when the symbols map nothing; otherwise, started at the entry of lowest index, the log is each step's new receipts followed by its frame events, then the remaining receipts and one return per open frame |
| `SourceRecorder.LogViews` | src/source_level.rs:124-216 | without its receipt events that log is the trace, and its receipt events are the routed receipts of the run |
| `SourceRecorder.ReceiptsComeFirst` | src/source_level.rs:124-198 | in each callback the receipts come before the calls, steps and returns |
| `SourceRecorder.ReturnsComeLast` | src/source_level.rs:200-216 | the log ends with the receipts left and then only returns |
| `SourceRecorder.LoggedReceipts` | src/source_level.rs:128-210 | every effect of the run is on the log once, in order and on its channel, and nothing else, if and only if no `ScriptResult` was seen before the end |
| `TraceLog.RouteOf` | src/recorder.rs:1506-1683 | one receipt gives exactly one event, carrying it on its channel, unless it is a call or a return |
| `TraceLog.RouteAllReceipts` | src/recorder.rs:592-625 | step-time routing keeps every receipt with an event, in order, panics and reverts on the error channel |
| `TraceLog.RoutedOnce` | src/recorder.rs:1385-1411 | over the whole run the events carry the receipts other than calls and returns; they are the effects of the run, each once and in order, if and only if no `ScriptResult` was present before the run ended |
| `TraceLog.RoutingsAgree` | src/recorder.rs:1397-1409 | the step-time and the final routing agree exactly on lists without a `ScriptResult` |
| `Recorder.RecordedReceipts` | src/recorder.rs:592-625 | the receipt events of an instruction-level recording, storage accesses left aside, are the routed receipts of the run |
| `Recorder.RecordedEffects` | src/recorder.rs:592-625 | every effect of the run is recorded once, in order and on its channel, and nothing else, if and only if no `ScriptResult` was seen before the end |
| `Recordings.SameReceiptEvents` | src/source_level.rs:128-210 | both recorders write the same receipt events for the same run |
| `Recorder.FirstReturnDecides` | src/recorder.rs:1426-1440 | a predicate's result is true if and only if there is a `Return` receipt and the first one carries a non-zero value |
| `Recorder.FramesConserved` | src/recorder.rs:569-590 | at every point, frames opened minus closed is one, plus the synthesised frames open, plus the tracker's depth beyond its start |
| `Recorder.OpenAfterRecording` | src/recorder.rs:1413-1457 | the number of frames a finished recording leaves open is the growth of the contract stack |
| `Recorder.MatchedReceiptsCloseEverything` | src/recorder.rs:1413-1457 | when call and return receipts match, as many frames are closed as opened |
| `OpenFrames.MatchedOpenUntilTheEnd` | src/recorder.rs:569-1457 | under the machine's guarantee that every return seen at a step ends a call seen before it, a frame is open from the first request to the last, in script and in predicate mode |
| `OpenFrames.PredicateOpenUntilTheEnd` | src/recorder.rs:569-1457 | a predicate recording has one open throughout if and only if, by the running height of the receipts seen, the predicate's context is not popped before the first line gap, no later gap is crossed without it, and it is there at the end |
| `OpenFrames.ScriptOpenUntilTheEnd` | src/recorder.rs:569-1457 | in script mode one always is, whatever the steps and receipts |
| `Nesting.RecordingDescribed` | src/recorder.rs:569-1457 | the calls and returns of a recording, with the kind of frame each is meant for |
| `Nesting.NestsIffMatched` | src/recorder.rs:569-1457 | every return closes a frame of the kind it is meant for and none stays open, if and only if contract calls and returns match throughout and no line gap is crossed inside one |
| `Nesting.MatchedReceiptsNest` | src/recorder.rs:569-1457 | when call and return receipts match, this holds if and only if no line gap is crossed while a contract call is open |
| `Nesting.UnreturnedCall` | src/recorder.rs:1457 | a script whose first instruction calls a contract that never returns: the last return ends the contract's frame, not the top-level one |
| `Nesting.GapInsideCall` | src/recorder.rs:1354-1373 | a script with a line gap inside a contract call that returns: the call's return ends the synthesised frame |
| `RecordedEvents.RecordedContractCalls` | src/recorder.rs:569-590 | one contract frame for each call receipt seen at a step, in order, named after the contract called |
| `RecordedEvents.RecordedAccesses` | src/recorder.rs:626-642 | one storage event for each executed SRW or SWW, in order, with its kind, key register, key and stored value |
| `RecordedEvents.PayloadShown` | src/recorder.rs:592-625 | a step shows, besides its registers, the payload of the first of its new receipts that has one, and nothing if none has |
| `RecordedEvents.LoggedValueReachesStep` | src/recorder.rs:592-625 | a value logged under the declared output type reaches its step as that decoder's variable, next to the raw views of its payload |
| `RecordedEvents.RegistersShown` | src/recorder.rs:705-728 | r16 to r23, in order, each as the signed number its content stands for; contents below 2^63 as themselves |
| `RecordedEvents.CallbackInOrder` | src/recorder.rs:569-1374 | every callback requests its contract switches, its receipts, its storage access, its step, its values and its synthesised frames in this order |
| `RecordedEvents.EndInOrder` | src/recorder.rs:1385-1457 | a recording ends with the receipts left and then only returns, but for a result right before the last one |
| `Recorder.RecordedSyntheticCalls` | src/recorder.rs:649-664 | in every recording, contract switches or not, the synthesised calls are one per line gap over five (line 1 before the first step), in order, each under the next name at the step that crosses the gap |
| `Recorder.LinesCountGaps` | src/recorder.rs:541-563 | the counters: calls seen are the gaps so far, and at most one synthesised frame is open |
| `Recorder.SyntheticNamesDistinct` | src/recorder.rs:40-54 | the default names are pairwise distinct for all indices |
| `Brackets.FramesPartitionRun` | src/recorder.rs:1354-1373 | without contract switches each gap closes the frame of the one before and opens its own, so at most one is open |
| `Brackets.RecordedFrames` | src/recorder.rs:1354-1457 | the calls and returns of a whole recording without contract calls are one bracket per gap inside the top-level one |
| `Brackets.StepBeforeItsFrame` | src/recorder.rs:659-703 | when an instruction's step and values are requested, the synthesised frame open is that of the last gap before it; the call of its own gap comes after |
| `Attribution.SnapshotsBelongIffUninterrupted` | src/recorder.rs:666-703 | against the buffer, the written steps are one per run of same-line instructions with exactly their snapshots, and the result on the last unless a gap was crossed, if and only if no line goes on after its step was written |
| `RecordedSteps.SnapshotsBelong` | src/recorder.rs:666-728 | the same for every recording, script or predicate, with contract calls or without |
| `RecordedSteps.RepeatedLineMisplaced` | src/recorder.rs:666-703 | a script of two instructions on line 10, the second of which has its snapshot on no step of that line |
| `StepPlaces.StepsInTheirFiles` | src/recorder.rs:666-675 | every instruction's step is where the instruction is, file included, if and only if no two consecutive instructions share a line number in different files |
| `StepPlaces.RecordingPlaces` | src/recorder.rs:666-703 | every step requested is written once, in order: the entry and one for each same-line run, at its first instruction |
| `StepPlaces.SecondFileLost` | src/recorder.rs:666-675 | a script whose second instruction has no step in its own file |
| `RecordedSteps.OneWrittenStepEach` | src/recorder.rs:700-703 | when consecutive instructions are on different lines, the recording has one step for each, with exactly its own snapshot, the last also holding the result of a predicate without gaps |
| `Attribution.EndsAsExpected` | src/recorder.rs:1421-1457 | an uninterrupted recording ends as expected: without a line gap the result joins the last step, after its snapshots |
| `RecordedSteps.PredicateResultAttached` | src/recorder.rs:1426-1457 | on every predicate recording, the result is on a written step if and only if no line gap was crossed and no contract switch came after the latest step on its line, and that step is the last |
| `RecordedSteps.ResultLostAtGap` | src/recorder.rs:1426-1457 | a predicate of one instruction whose result is on no step |
| `RecordedSteps.ResultLostAtSwitch` | src/recorder.rs:1426-1457 | one that loses it to a contract call |
| `Attribution.WellAttributed` | src/recorder.rs:666-699 | the buffer invariant behind the attribution: nothing is held without a step |
| `Writer.TraceWriter.Register` | src/recorder.rs:666-699 | the buffer the comments describe: steps, calls and returns write the held step with the held values, events do not |
| `StepPlaces.EverythingIsWritten` | src/recorder.rs:666-699 | calls, returns and events are written once each, in the order requested, each with its own callee, place or receipt |
| `Writer.TraceWriter.EmitReceiptSpecialEvent` | src/recorder.rs:1506-1683 | a call or return leaves the log alone; every other receipt adds exactly one event carrying it, on the error channel for panic and revert, informative for a script result, a machine event otherwise |
| `InstructionRecorder.Session.ObserveReceipts` | src/recorder.rs:569-642 | switches, then the new receipts, then the storage access, and the first LOGD payload |
| `InstructionRecorder.Session.RegisterSnapshot` | src/recorder.rs:708-728 | the loop gives r16 to r23 under their current names, as `RecordedEvents.RegistersShown` describes them |
| `InstructionRecorder.Session.RecordStep` | src/recorder.rs:659-703 | step if the line changed, values, and frames only after them |
| `InstructionRecorder.Session.EmitFrames` | src/recorder.rs:1354-1373 | a transition closes the open synthesised frame and opens the next under its name |
| `InstructionRecorder.Session.OnStep` | src/recorder.rs:565-1374 | one callback advances the trackers and makes exactly its requests in order |
| `InstructionRecorder.Session.Finish` | src/recorder.rs:1385-1457 | drained receipts, returns of synthesised frames, the predicate result, the top-level return |
| `InstructionRecorder.Record` | src/recorder.rs:182-1467 | the loop makes exactly the requests the theorems are about |
| `ContractCalls.Tracker.ProcessReceipts` | src/contract_call.rs:197-244 | only new receipts move the stack; the bottom entry stays; the switches are those moves |
| `ContractCalls.Tracker.LookupSource` | src/contract_call.rs:138-163 | the contract's own map, then the default map, then the index plus one as a line |
| `ContractCalls.LocatedExactly` | src/contract_call.rs:138-163 | the first entry for the index in the contract's own map, else in the default map, else the default path and the index plus one |
| `ContractCalls.Tracker.ExitPredicate` | src/contract_call.rs:185-195 | only a predicate context on top is popped |
| `ContractCalls.GrowthIsIrrelevant` | src/contract_call.rs:203-244 | any chain of growing lists gives the switches and the stack of the full list at once |
| `ContractCalls.BalancedRestores` | src/contract_call.rs:203-244 | a segment balanced in calls and returns restores the exact stack |
| `ContractCalls.ExitMatchesEnter` | src/contract_call.rs:209-236 | an exit carries its enter's depth minus one and names the context current before the call |
| `ContractCalls.StackKept` | src/contract_call.rs:203-244 | a segment that never returns more than it calls leaves the stack below untouched |
| `ContractCalls.PerformAll` | src/contract_call.rs:174-244 | over all interleavings with predicate mode the bottom entry stays the script context |
| `ContractCalls.PredicateModeEnds` | src/contract_call.rs:174-195 | leaving predicate mode gives the script context back if and only if no contract call is left open |
| `ContractCalls.UnreturnedCallStays` | src/contract_call.rs:185-195 | a call left open keeps the predicate context too |
| `Variables.VariableTracker.ProcessStep` | src/variable_tracker.rs:70-242 | names and reported values, opcode by opcode |
| `Variables.ReportedExactly` | src/variable_tracker.rs:70-242 | the one general-purpose register a tracked opcode writes, under its new name, with the value it will hold if a MOVI writes it and otherwise the value it holds |
| `Variables.NamesTellTheTruth` | src/variable_tracker.rs:80-250 | after any run, every register not touched by an untracked instruction is named by the printed form of an expression whose value is its content; a loaded immediate in it is the one of the k-th MOVI of the code, shown as the k-th ABI parameter |
| `Variables.LoadsAreMovis` | src/variable_tracker.rs:80-104 | every immediate loaded in an expression is the one the MOVI of that number in the code loads |
| `Variables.MovisCounted` | src/variable_tracker.rs:80-104 | the tracker's counter is the number of MOVIs into general-purpose registers |
| `Variables.FollowStaysTruthful` | src/variable_tracker.rs:85-242 | one executed instruction keeps that true |
| `Variables.NothingLost` | src/variable_tracker.rs:80-242 | in runs of tracked opcodes on general-purpose operands no register loses its expression |
| `Variables.ShownIsTrueUnlessWritten` | src/recorder.rs:705-728 | the pair shown on a step is true if and only if the instruction has another destination or writes what is there already |
| `Variables.WrittenRegisterShownStale` | src/recorder.rs:705-728 | a load after which the pair is false |
| `Variables.SameName` | src/variable_tracker.rs:125-158 | without ABI parameters, two expressions have one name if and only if they have the same leaves and operations from left to right |
| `Variables.NamesCanCollide` | src/variable_tracker.rs:125-158 | a run without overflow after which two registers holding 18 and 12 share a name |
| `Snapshots.SnapshotTellsTheTruth` | src/recorder.rs:705-728 | the same for the variables actually recorded at every step of a whole recording, a value being true of a word when it is that word modulo 2^64 within the signed range |
| `Snapshots.WrittenStepsTellTheTruth` | src/recorder.rs:700-728 | when consecutive instructions are on different lines, every written step shows r16 to r23 under names for their contents after its own instruction, and with those contents exactly when that instruction keeps the register |
| `Decoders.DecodingUndoesEncoding` | src/recorder.rs:822-1340 | each decoder undoes its big-endian tagged layout, the text of a failed result cut to eight bytes |
| `Decoders.LoggedValueShown` | src/recorder.rs:761-1340 | the variables of a payload logged under its declared type contain that decoder's variable, standing for the value |
| `Decoders.RawPayloadShown` | src/recorder.rs:731-820 | every payload is shown byte by byte, and a payload of whole words also as a struct from two words on and as a vector from one on, whatever the declared type |
| `Decoders.NumbersShown` | src/recorder.rs:722-726 | a word is shown as the number in [-2^63, 2^63) congruent to it modulo 2^64, a byte as itself |
| `Decoders.DeclaredTypeSelects` | src/recorder.rs:498-527 | a declared output type, spaces around it ignored, selects the decoder that undoes the encoding of its values |
| `Decoders.RepresentationDetermines` | src/recorder.rs:822-1340 | decoded values determine the logged ones, up to that cut |
| `Decoders.VectorReadsBack` | src/recorder.rs:799-820 | every non-empty list of words is shown as that vector |
| `Decoders.WordsReadBack` | src/recorder.rs:800-809 | splitting into words undoes big-endian writing |
| `Decoders.WordsWriteBack` | src/recorder.rs:799-809 | a payload of whole words is determined by its words |
| `Decoders.DecodeWords` | src/recorder.rs:761-771 | the chunk loop computes the words |
| `DebugInfo.FromJson` | src/debug_info.rs:124-142 | succeeds exactly when every key is an index and every path is in range, and inserts every entry; `DebugInfo.JsonReadsBack` says which |
| `DebugInfo.JsonReadsBack` | src/debug_info.rs:124-142 | for any path table and members, the document written from them is readable exactly when every index fits 64 bits and every path index is in the table, and reads back to those entries, each in its own file |
| `DebugInfo.FromDwarfRows` | src/debug_info.rs:165-216 | inserts exactly the rows with line, column and file that do not end a sequence |
| `DebugInfo.EntriesAreRows` | src/debug_info.rs:165-216 | an entry is read if and only if some row has its address, file, line and column and ends no sequence |
| `DebugInfo.ObjectIsJsonMinusLast` | src/debug_info.rs:11-23 | for a document that lists the entries, in any order, reading the shifted table gives its map minus its highest index if and only if every other entry has a line and a column |
| `DebugInfo.UnplacedEntryIsLost` | src/debug_info.rs:11-23 | a two-entry map whose object form also loses its first entry |
| `DebugInfo.TableIsShifted` | src/debug_info.rs:11-23 | a row for the initial registers, one for every entry but the last, and the last address as the end |
| `DebugInfo.First` | src/debug_info.rs:225-229 | the entry of lowest index |
| `DebugInfo.FirstSurvivesShift` | src/debug_info.rs:14-23 | both forms start at the same place if there are two entries, and a one-entry object maps nothing |
| `AbiDecoder.FromJson` | src/abi_decoder.rs:49-122 | succeeds exactly when every function has a name and every type resolves |
| `AbiDecoder.ReadIffReadable` | src/abi_decoder.rs:49-122 | a document is read if and only if every function has a name and the types of its parameters and of its output resolve |
| `Recorder.SetUpByMain` | src/recorder.rs:498-527 | parameter names and decoder come from the first function called `main` |
| `AbiDecoder.ShapesAgree` | src/abi_decoder.rs:41-122 | concrete ids, inline names and numeric indices read to the same functions and types |
| `AbiDecoder.UnknownIdRefused` | src/abi_decoder.rs:69-111 | one reference to an unknown concrete id, in an output or a parameter, refuses the whole ABI |
| `Listing.HexDecode` | src/graphql_debug.rs:233-245 | the pair loop decodes every pair or fails |
| `Listing.HexReadsBack` | src/graphql_debug.rs:233-245 | printed bytes, with or without the prefix, decode to themselves |
| `Listing.DecodesIffPairs` | src/graphql_debug.rs:233-245 | a string decodes if and only if it is made of pairs of a hex digit or a plus sign and a hex digit |
| `Listing.PrintedIffLower` | src/graphql_debug.rs:233-245 | a string that decodes is the printed form of its bytes if and only if every character is a lower-case digit |
| `Listing.PlusSignDecodes` | src/graphql_debug.rs:240-242 | a plus sign accepted in place of a digit |
| `Listing.WriteDisassembly` | src/source_level.rs:227-243 | one line per word, a trailing partial word included |
| `Listing.WordsAreBytecode` | src/source_level.rs:227-243 | the words are four bytes each, the last one to four, and concatenate to the bytecode |
| `Listing.ListingShowsInstruction` | src/main.rs:418-424 | every index is placed at its line, past the map too, and that line shows the word at that index |

## Left out

- The FuelVM itself: a run is given as its steps and receipts; what the machine guarantees about them (growing receipts, the call convention, arithmetic) is stated as hypotheses where it is used.
- The trace file format and the foreign-function writer: only the requests, and the pending-step buffer as the comments of src/recorder.rs describe it.
- Parsing of ELF, DWARF and JSON bytes: decoded rows and JSON values are the inputs; path joining and `~/.forc` resolution are a parameter.
- File reads: the readable source files are a fixed map from paths to lines, and whitespace is ASCII whitespace.
- Event texts, type registration and display names: receipts, values and callees are datatypes; an integer value keeps its width in place of its type id.
- Rendering of an instruction as text: a parameter that yields one line.
- Contract source maps inside a recording: the recorder never registers any, so its steps use the default map; the tracker's own lookup does model them.
- Debug-build overflow: adding four to the program counter wraps, where a debug build would stop.
- `program_type` and the preserved type list of an ABI, and the list of distinct paths of a source map.
- The parsed source map and the parsed ABI are built in loops but are values once built, so they are a map and a sequence, not objects.
- The networked replay, the command line and the GraphQL query builders.
- `Listing.HexDecode`: works on characters, where the code slices bytes and stops on a pair that splits a multi-byte character.
- `Variables.SameName`: is about names without ABI parameters, because a parameter may be any text, also one that reads like a printed expression.
