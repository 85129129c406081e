/** The source-level recorder as the object it is: frames pushed and popped in
    place while requests go to the writer. */
module SourceRecorder {
  import opened Prelude
  import opened Machine
  import opened TraceLog
  import opened FunctionNames
  import opened Writer
  import DebugInfo
  import SourceLevel

  /** What a step adds to the log of the frame machine. */
  function NewEvents(d: SourceLevel.Debug, st: SourceLevel.Core, s: StepState): seq<Request> {
    var out := SourceLevel.OnStep(d, st, s).out;
    if |st.out| <= |out| then out[|st.out|..] else []
  }

  lemma StepExtends(d: SourceLevel.Debug, st: SourceLevel.Core, s: StepState)
    ensures SourceLevel.OnStep(d, st, s).out == st.out + NewEvents(d, st, s)
  {
    PopsAreReturns(st, AbsPc(s));
  }

  lemma NewEventsStructural(d: SourceLevel.Debug, st: SourceLevel.Core, s: StepState)
    ensures forall r :: r in NewEvents(d, st, s) ==> IsStructural(r)
  {
    var popped := SourceLevel.PopReturns(st, AbsPc(s));
    PopsAreReturns(st, AbsPc(s));
    var arrived := SourceLevel.Arrive(d, st, s);
    var out := SourceLevel.OnStep(d, st, s).out;
    forall i | |st.out| <= i < |out| ensures IsStructural(out[i]) {
      if i < |popped.out| {
        assert out[i] == popped.out[i];
      } else if i < |arrived.out| {
        assert out[i] == arrived.out[i];
      }
    }
  }

  lemma {:induction false} PopsAreReturns(st: SourceLevel.Core, pc: u64)
    ensures st.out <= SourceLevel.PopReturns(st, pc).out
    ensures forall i :: |st.out| <= i < |SourceLevel.PopReturns(st, pc).out| ==>
              SourceLevel.PopReturns(st, pc).out[i] == Request.Return
    decreases |st.frames|
  {
    if |st.frames| > 1 && Last(st.frames).returnAddr == pc {
      PopsAreReturns(SourceLevel.PopFrame(st), pc);
    }
  }

  /** The frame machine's view of the log after a step. */
  lemma StepStructure(d: SourceLevel.Debug, st: SourceLevel.Core, s: StepState,
                      before: seq<Request>, routed: seq<Request>)
    requires Filter(IsStructural, before) == st.out
    requires forall r :: r in routed ==> r.Event?
    ensures Filter(IsStructural, before + routed + NewEvents(d, st, s)) == SourceLevel.OnStep(d, st, s).out
  {
    NewEventsStructural(d, st, s);
    StepExtends(d, st, s);
    FilterLast(IsStructural, before, routed, NewEvents(d, st, s));
  }

  /** The receipts' view of the log after a step. */
  lemma StepReceipts(before: seq<Request>, events: seq<Request>, seen: seq<Receipt>, now: seq<Receipt>)
    requires seen <= now && Filter(IsReceiptEvent, before) == RouteAll(seen)
    requires forall r :: r in events ==> IsStructural(r)
    ensures Filter(IsReceiptEvent, before + RouteAll(now[|seen|..]) + events) == RouteAll(now)
  {
    assert now == seen + now[|seen|..];
    RouteAllAppend(seen, now[|seen|..]);
    FilterMiddle(IsReceiptEvent, before, RouteAll(now[|seen|..]), events);
  }

  lemma FinishFilters(before: seq<Request>, tail: seq<Request>, frames: nat)
    requires forall r :: r in tail ==> r.Event?
    ensures Filter(IsStructural, before + tail + Returns(frames)) == Filter(IsStructural, before) + Returns(frames)
    ensures Filter(IsReceiptEvent, before + tail + Returns(frames)) == Filter(IsReceiptEvent, before) + tail
  {
    assert forall r :: r in Returns(frames) ==> r == Request.Return;
    FilterLast(IsStructural, before, tail, Returns(frames));
    FilterMiddle(IsReceiptEvent, before, tail, Returns(frames));
  }

  class Session {
    const debug: SourceLevel.Debug
    const writer: TraceWriter
    const names: Namer
    var frames: seq<SourceLevel.Frame>
    var pendingCall: Option<u64>
    var prevReceiptCount: nat
    /** The calls, steps and returns requested so far. */
    ghost var out: seq<Request>
    /** The writer's log and `out` when this step's receipts had been routed. */
    ghost var logMark: seq<Request>
    ghost var outMark: seq<Request>

    ghost predicate Valid()
      reads this, writer, names
    {
      && frames != []
      && writer.Valid()
      && names.Valid() && names.files == debug.files
      && outMark <= out && writer.requests == logMark + out[|outMark|..]
    }

    ghost function State(): SourceLevel.Core
      reads this
    {
      if frames == [] then SourceLevel.Initial(debug) else SourceLevel.Core(frames, pendingCall, out)
    }

    constructor (debug: SourceLevel.Debug)
      ensures Valid() && fresh(writer) && fresh(names)
      ensures this.debug == debug && prevReceiptCount == 0
      ensures State() == SourceLevel.Initial(debug) && writer.requests == out
    {
      var start := Start(PositionOf(debug.entry));
      var w := new TraceWriter();
      w.Register(start);
      this.debug := debug;
      writer := w;
      names := new Namer(debug.files);
      // No code lives at this return address.
      frames := [SourceLevel.Frame(U64_MAX, Some(PositionOf(debug.entry)))];
      pendingCall := None;
      prevReceiptCount := 0;
      out, logMark, outMark := [start], [], [];
    }

    method Emit(r: Request)
      requires Valid()
      modifies writer, `out
      ensures Valid() && out == old(out) + [r]
    {
      writer.Register(r);
      out := out + [r];
    }

    method RouteNewReceipts(receipts: seq<Receipt>)
      requires Valid() && prevReceiptCount <= |receipts|
      modifies writer, `prevReceiptCount, `logMark, `outMark
      ensures Valid() && prevReceiptCount == |receipts|
      ensures logMark == old(writer.requests) + RouteAll(receipts[old(prevReceiptCount)..])
      ensures outMark == out
    {
      var newReceipts := receipts[prevReceiptCount..];
      for i := 0 to |newReceipts|
        invariant writer.Valid()
        invariant writer.requests == old(writer.requests) + RouteAll(newReceipts[..i])
      {
        assert Front(newReceipts[..i + 1]) == newReceipts[..i];
        writer.EmitReceiptSpecialEvent(newReceipts[i]);
      }
      assert newReceipts[..|newReceipts|] == newReceipts;
      prevReceiptCount := |receipts|;
      logMark, outMark := writer.requests, out;
    }

    /** Closes the frames that return to where execution now is. */
    method CloseReturned(pc: u64)
      requires Valid()
      modifies writer, `frames, `out
      ensures Valid() && State() == SourceLevel.PopReturns(old(State()), pc)
    {
      while |frames| > 1 && Last(frames).returnAddr == pc
        invariant Valid() && pendingCall == old(pendingCall)
        invariant SourceLevel.PopReturns(State(), pc) == SourceLevel.PopReturns(old(State()), pc)
        decreases |frames|
      {
        ghost var before := State();
        frames := Front(frames);
        var caller := Last(frames);
        frames := Front(frames) + [caller.(last := None)];
        Emit(Request.Return);
        assert State() == SourceLevel.PopFrame(before);
      }
    }

    /** Opens the frame of a call noted at the step before. */
    method OpenCalled(loc: Option<SourceLoc>, index: nat)
      requires Valid() && loc == SourceLevel.Lookup(debug, index)
      modifies writer, names, `frames, `pendingCall, `out
      ensures Valid() && State() == SourceLevel.EnterCall(debug, old(State()), index)
    {
      if pendingCall.Some? {
        var callee := names.NameOf(loc, index);
        var at := if loc.Some? then loc.value else debug.entry;
        frames := frames + [SourceLevel.Frame(pendingCall.value, None)];
        pendingCall := None;
        Emit(Request.Call(callee, PositionOf(at)));
      }
    }

    /** Whether the instruction leaves the innermost frame; a call is noted. */
    method ExamineInstruction(step: StepState) returns (leavesFrame: bool)
      requires Valid()
      modifies `pendingCall
      ensures leavesFrame == SourceLevel.LeavesFrame(State(), step)
      ensures pendingCall == if SourceLevel.IsCall(step) then Some(SourceLevel.ReturnAddress(step)) else old(pendingCall)
    {
      var topReturn := Last(frames).returnAddr;
      match step.instruction {
        case Some(RET) => return true;
        case Some(RETD) => return true;
        case Some(JAL(link, target, offset)) =>
          if link == ZERO {
            return Wrap64(step.registers[target] + offset * 4) == topReturn;
          }
          pendingCall := Some(Wrap64(AbsPc(step) + 4));
          return false;
        case _ => return false;
      }
    }

    method MoveTo(at: Position)
      requires Valid()
      modifies writer, `frames, `out
      ensures Valid() && pendingCall == old(pendingCall)
      ensures frames == Front(old(frames)) + [Last(old(frames)).(last := Some(at))]
      ensures out == old(out) + [Step(at)]
    {
      frames := Front(frames) + [Last(frames).(last := Some(at))];
      Emit(Step(at));
    }

    /** Records the position of an instruction that stays in its frame. */
    method VisitInstruction(step: StepState, loc: Option<SourceLoc>)
      requires Valid() && loc == SourceLevel.Lookup(debug, OpcodeIndex(step))
      modifies writer, `frames, `pendingCall, `out
      ensures Valid() && State() == SourceLevel.Visit(debug, old(State()), step)
    {
      var leavesFrame := ExamineInstruction(step);
      if !leavesFrame && loc.Some? && Last(frames).last != Some(PositionOf(loc.value)) {
        MoveTo(PositionOf(loc.value));
      }
    }

    /** One single-step callback: the new receipts are routed, then the frame
        machine takes its step. */
    method OnStep(step: StepState)
      requires Valid() && prevReceiptCount <= |step.receipts|
      modifies this, writer, names
      ensures Valid() && prevReceiptCount == |step.receipts|
      ensures State() == SourceLevel.OnStep(debug, old(State()), step)
      ensures writer.requests == old(writer.requests) + RouteAll(step.receipts[old(prevReceiptCount)..])
                                 + NewEvents(debug, old(State()), step)
    {
      var index := OpcodeIndex(step);
      RouteNewReceipts(step.receipts);
      CloseReturned(AbsPc(step));
      var loc := SourceLevel.Lookup(debug, index);
      OpenCalled(loc, index);
      VisitInstruction(step, loc);
      StepExtends(debug, old(State()), step);
    }

    /** Routes what was appended after the last step; the end of the script is told
        by the return of the top-level frame. */
    method DrainReceipts(final: seq<Receipt>)
      requires writer.Valid() && prevReceiptCount <= |final|
      modifies writer
      ensures writer.Valid()
      ensures writer.requests == old(writer.requests) + RouteTail(final[prevReceiptCount..])
    {
      var rest := final[prevReceiptCount..];
      for i := 0 to |rest|
        invariant writer.Valid()
        invariant writer.requests == old(writer.requests) + RouteTail(rest[..i])
      {
        assert Front(rest[..i + 1]) == rest[..i];
        if !(rest[i].Return? || rest[i].ReturnData? || rest[i].ScriptResult?) {
          writer.EmitReceiptSpecialEvent(rest[i]);
        }
      }
      assert rest[..|rest|] == rest;
    }

    /** Closes every open frame, the top-level one last. */
    method CloseFrames(count: nat)
      requires writer.Valid()
      modifies writer
      ensures writer.Valid()
      ensures writer.requests == old(writer.requests) + Returns(count)
    {
      for i := 0 to count
        invariant writer.Valid()
        invariant writer.requests == old(writer.requests) + Returns(i)
      {
        writer.Register(Request.Return);
        assert Returns(i + 1) == Returns(i) + [Request.Return];
      }
    }

    /** The end of the run: the remaining receipts, then every open frame. */
    method Finish(final: seq<Receipt>)
      requires writer.Valid() && prevReceiptCount <= |final|
      modifies writer
      ensures writer.Valid()
      ensures writer.requests == old(writer.requests) + RouteTail(final[prevReceiptCount..]) + Returns(|frames|)
    {
      DrainReceipts(final);
      CloseFrames(|frames|);
    }
  }

  // ----- whole recordings

  /** What a list holds past the `seen` first receipts. */
  function Unseen(seen: nat, now: seq<Receipt>): seq<Receipt> {
    if seen <= |now| then now[seen..] else []
  }

  /** The log after some steps: each step's new receipts, then what the step
      adds to the log of the frame machine. */
  function LogAfter(d: SourceLevel.Debug, steps: seq<StepState>): seq<Request> {
    if steps == [] then SourceLevel.Initial(d).out
    else
      var before, s := Front(steps), Last(steps);
      LogAfter(d, before) + RouteAll(Unseen(|SeenAtEnd([], before)|, s.receipts))
      + NewEvents(d, SourceLevel.Run(d, SourceLevel.Initial(d), before), s)
  }

  /** The log of a whole recording: at the end the remaining receipts, then a
      return for every frame still open. */
  function Log(d: SourceLevel.Debug, steps: seq<StepState>, final: seq<Receipt>): seq<Request> {
    LogAfter(d, steps) + RouteTail(Unseen(|SeenAtEnd([], steps)|, final))
    + Returns(|SourceLevel.Run(d, SourceLevel.Initial(d), steps).frames|)
  }

  lemma NextViews(d: SourceLevel.Debug, st: SourceLevel.Core, s: StepState, log: seq<Request>, seen: seq<Receipt>)
    requires Filter(IsStructural, log) == st.out && Filter(IsReceiptEvent, log) == RouteAll(seen)
    requires seen <= s.receipts
    ensures var next := log + RouteAll(Unseen(|seen|, s.receipts)) + NewEvents(d, st, s);
            && Filter(IsStructural, next) == SourceLevel.OnStep(d, st, s).out
            && Filter(IsReceiptEvent, next) == RouteAll(s.receipts)
  {
    StepStructure(d, st, s, log, RouteAll(s.receipts[|seen|..]));
    NewEventsStructural(d, st, s);
    StepReceipts(log, NewEvents(d, st, s), seen, s.receipts);
  }

  lemma {:induction false} LogAfterViews(d: SourceLevel.Debug, steps: seq<StepState>)
    requires Growing([], steps)
    ensures Filter(IsStructural, LogAfter(d, steps)) == SourceLevel.Run(d, SourceLevel.Initial(d), steps).out
    ensures Filter(IsReceiptEvent, LogAfter(d, steps)) == RouteAll(SeenAtEnd([], steps))
  {
    if steps == [] {
      FilterAll(IsStructural, SourceLevel.Initial(d).out);
      FilterNone(IsReceiptEvent, SourceLevel.Initial(d).out);
    } else {
      var before := Front(steps);
      GrowingFront(steps);
      LogAfterViews(d, before);
      NextViews(d, SourceLevel.Run(d, SourceLevel.Initial(d), before), Last(steps), LogAfter(d, before), SeenAtEnd([], before));
    }
  }

  /** The log of a recording, seen from its two sides: without the receipt
      events it is the frame machine's trace, and its receipt events are the
      routed receipts of the run. */
  lemma LogViews(d: SourceLevel.Debug, steps: seq<StepState>, final: seq<Receipt>)
    requires Growing([], steps) && SeenAtEnd([], steps) <= final
    ensures Filter(IsStructural, Log(d, steps, final)) == SourceLevel.Trace(d, steps)
    ensures Filter(IsReceiptEvent, Log(d, steps, final)) == Routed(SeenAtEnd([], steps), final)
  {
    LogAfterViews(d, steps);
    FinishFilters(LogAfter(d, steps), RouteTail(final[|SeenAtEnd([], steps)|..]),
                  |SourceLevel.Run(d, SourceLevel.Initial(d), steps).frames|);
  }

  /** In the log of each callback the receipts come before the calls, steps and
      returns. */
  lemma ReceiptsComeFirst(d: SourceLevel.Debug, steps: seq<StepState>)
    requires steps != []
    ensures exists added: seq<Request>, a: nat :: EventsThenRest(added, a) && LogAfter(d, steps) == LogAfter(d, Front(steps)) + added
  {
    var before, s := Front(steps), Last(steps);
    var st := SourceLevel.Run(d, SourceLevel.Initial(d), before);
    var routed := RouteAll(Unseen(|SeenAtEnd([], before)|, s.receipts));
    NewEventsStructural(d, st, s);
    EventsPut(routed, NewEvents(d, st, s));
    Regroup3(LogAfter(d, before), routed, NewEvents(d, st, s));
  }

  /** The log ends with the receipts left and then nothing but returns. */
  lemma ReturnsComeLast(d: SourceLevel.Debug, steps: seq<StepState>, final: seq<Receipt>)
    ensures exists closing: seq<Request>, a: nat ::
              && EventsThenRest(closing, a) && a < |closing|
              && Log(d, steps, final) == LogAfter(d, steps) + closing
              && forall k :: a <= k < |closing| ==> closing[k].Return?
  {
    var drained := RouteTail(Unseen(|SeenAtEnd([], steps)|, final));
    var closed := Returns(|SourceLevel.Run(d, SourceLevel.Initial(d), steps).frames|);
    EventsPut(drained, closed);
    Regroup3(LogAfter(d, steps), drained, closed);
  }

  /** Every effect of the run is on the log exactly once, in order and on its
      channel, and no other receipt is, if and only if no `ScriptResult` was
      present before the run ended. */
  lemma LoggedReceipts(d: SourceLevel.Debug, steps: seq<StepState>, final: seq<Receipt>)
    requires Growing([], steps) && SeenAtEnd([], steps) <= final
    ensures ReceiptsOf(Log(d, steps, final)) == Filter(IsEffect, final) <==> !HasScriptResult(SeenAtEnd([], steps))
    ensures OnTheirChannels(Log(d, steps, final))
  {
    LogViews(d, steps, final);
    ReceiptsOfEvents(Log(d, steps, final));
    RoutedOnce(SeenAtEnd([], steps), final);
  }

  /** Records a run with forc's debug symbols: refused when they map nothing,
      otherwise started at the entry of lowest index. */
  method RecordWithDebugInfo(
      symbols: DebugInfo.SourceMap, files: map<Path, seq<string>>, steps: seq<StepState>, final: seq<Receipt>)
    returns (r: Result<seq<Request>>)
    requires Growing([], steps) && SeenAtEnd([], steps) <= final
    ensures r.Err? <==> symbols == map[]
    ensures r.Ok? ==> exists entry :: DebugInfo.IsFirst(symbols, Some(entry))
    ensures r.Ok? ==>
      forall entry :: DebugInfo.IsFirst(symbols, Some(entry)) ==>
        r.value == Log(SourceLevel.Debug(symbols, entry, files), steps, final)
  {
    var first := DebugInfo.First(symbols);
    if first.None? {
      return Err("debug symbols map no instruction to source");
    }
    var debug := SourceLevel.Debug(symbols, first.value, files);
    var recorder := new Session(debug);
    for i := 0 to |steps|
      invariant recorder.Valid() && fresh(recorder) && fresh(recorder.writer) && fresh(recorder.names)
      invariant recorder.debug == debug
      invariant recorder.prevReceiptCount == |SeenAtEnd([], steps[..i])|
      invariant recorder.State() == SourceLevel.Run(debug, SourceLevel.Initial(debug), steps[..i])
      invariant recorder.writer.requests == LogAfter(debug, steps[..i])
    {
      assert Front(steps[..i + 1]) == steps[..i] && SeenAtEnd([], steps[..i]) <= steps[i].receipts;
      recorder.OnStep(steps[i]);
    }
    assert steps[..|steps|] == steps;
    recorder.Finish(final);
    forall entry | DebugInfo.IsFirst(symbols, Some(entry)) ensures entry == first.value {
      DebugInfo.FirstIsUnique(symbols, Some(entry), first);
    }
    return Ok(recorder.writer.requests);
  }
}
