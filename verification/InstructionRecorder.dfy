/** The instruction-level recorder as the object it is: one callback updating
    the trackers, the line state and the writer. */
module InstructionRecorder {
  import opened Prelude
  import opened Machine
  import opened TraceLog
  import opened ContractCalls
  import opened Decoders
  import opened Writer
  import opened Recorder
  import AbiDecoder
  import Variables

  class Session {
    const cfg: Config
    const writer: TraceWriter
    const callTracker: Tracker
    const tracker: Variables.VariableTracker
    var prevLine: Option<u32>
    var prevReceiptCount: nat
    var nestedCallDepth: nat
    var nestedCallsSeen: nat

    ghost predicate Valid()
      reads this, writer, callTracker, tracker
    {
      && writer.Valid() && callTracker.Valid()
      && callTracker.processedReceiptCount == prevReceiptCount
      && callTracker.sourceMaps == map[] && callTracker.sourcePaths == map[]
    }

    ghost function TrackersNow(): Trackers
      reads this, callTracker, tracker
    {
      Trackers(if callTracker.callStack == [] then [SCRIPT] else callTracker.callStack, tracker.State(), prevReceiptCount)
    }

    ghost function LinesNow(): Lines
      reads this
    {
      Lines(prevLine, nestedCallDepth, nestedCallsSeen)
    }

    constructor (cfg: Config)
      ensures Valid() && fresh(writer) && fresh(callTracker) && fresh(tracker)
      ensures this.cfg == cfg && writer.requests == [Start(Position(cfg.path, 1))]
      ensures TrackersNow() == InitialTrackers(cfg) && LinesNow() == Lines(None, 0, 0)
      ensures HasRecorded([])
    {
      var w := new TraceWriter();
      w.Register(Start(Position(cfg.path, 1)));
      var c := new Tracker();
      if cfg.predicateMode {
        c.EnterPredicate();
      }
      this.cfg := cfg;
      writer := w;
      callTracker := c;
      tracker := new Variables.VariableTracker(cfg.params);
      prevLine, prevReceiptCount, nestedCallDepth, nestedCallsSeen := None, 0, 0, 0;
    }

    /** The frame a contract switch opens or closes. */
    method EmitSwitch(s: Switch)
      requires Valid()
      modifies writer
      ensures writer.Valid()
      ensures writer.requests == old(writer.requests) + [SwitchRequest(cfg, s)]
    {
      match s {
        case Enter(_, to, _) =>
          var path := callTracker.CurrentSourcePath(cfg.path);
          writer.Register(Request.Call(OfContract(to), Position(path, 1)));
        case Exit(_, _, _) =>
          writer.Register(Request.Return);
      }
    }

    method EmitSwitches(switches: seq<Switch>)
      requires Valid()
      modifies writer
      ensures writer.Valid()
      ensures writer.requests == old(writer.requests) + SwitchRequests(cfg, switches)
    {
      for i := 0 to |switches|
        invariant writer.Valid()
        invariant writer.requests == old(writer.requests) + SwitchRequests(cfg, switches[..i])
      {
        EmitSwitch(switches[i]);
        NextSwitch(cfg, switches, i);
      }
      assert switches[..|switches|] == switches;
    }

    method EmitReceipt(r: Receipt, payload: Option<seq<byte>>) returns (next: Option<seq<byte>>)
      requires writer.Valid()
      modifies writer
      ensures writer.Valid()
      ensures writer.requests == old(writer.requests) + Route(r)
      ensures next == NextPayload(payload, r)
    {
      next := NextPayload(payload, r);
      writer.EmitReceiptSpecialEvent(r);
    }

    /** Routes the new receipts and remembers the first LOGD payload. */
    method EmitReceipts(newReceipts: seq<Receipt>) returns (payload: Option<seq<byte>>)
      requires writer.Valid()
      modifies writer
      ensures writer.Valid()
      ensures writer.requests == old(writer.requests) + RouteAll(newReceipts)
      ensures payload == FirstPayload(newReceipts)
    {
      payload := None;
      for i := 0 to |newReceipts|
        invariant writer.Valid()
        invariant writer.requests == old(writer.requests) + RouteAll(newReceipts[..i])
        invariant payload == FirstPayload(newReceipts[..i])
      {
        NextReceipt(old(writer.requests), newReceipts, i);
        payload := EmitReceipt(newReceipts[i], payload);
      }
      assert newReceipts[..|newReceipts|] == newReceipts;
    }

    method EmitStorage(step: StepState)
      requires writer.Valid()
      modifies writer
      ensures writer.Valid()
      ensures writer.requests == old(writer.requests) + StorageEvents(step)
    {
      match step.instruction {
        case Some(SRW(_, _, key)) =>
          writer.Register(Storage(false, key, step.registers[key], 0));
        case Some(SWW(key, _, value)) =>
          writer.Register(Storage(true, key, step.registers[key], step.registers[value]));
        case _ =>
      }
    }

    method EmitAssigns(vs: seq<Variable>)
      requires writer.Valid()
      modifies writer
      ensures writer.Valid()
      ensures writer.requests == old(writer.requests) + Assigns(vs)
    {
      for i := 0 to |vs|
        invariant writer.Valid()
        invariant writer.requests == old(writer.requests) + Assigns(vs[..i])
      {
        writer.Register(Assign(vs[i]));
        assert Assigns(vs[..i + 1]) == Assigns(vs[..i]) + [Assign(vs[i])];
      }
      assert vs[..|vs|] == vs;
    }

    /** r16 to r23: the name tracked on this step, else the one known, else the
        register's own. */
    method RegisterSnapshot(step: StepState, tracked: seq<Variables.TrackedVariable>) returns (vs: seq<Variable>)
      requires forall v :: v in tracked ==> Variables.RegisterName(tracker.State(), v.register) == v.name
      ensures vs == RegisterVariables(tracker.State(), step.registers)
    {
      vs := [];
      for k := 0 to 8
        invariant vs == RegisterVariables(tracker.State(), step.registers)[..k]
      {
        var reg: Reg := 16 + k;
        var name := tracker.RegisterNameOf(reg);
        if tracked != [] && tracked[0].register == reg {
          name := tracked[0].name;
        }
        vs := vs + [Variable(name, U64Value(step.registers[reg]))];
      }
    }

    /** The step, if the line changed. */
    method EmitStep(at: Position)
      requires writer.Valid()
      modifies writer, `prevLine
      ensures writer.Valid() && prevLine == Some(at.line)
      ensures writer.requests == old(writer.requests) + StepRequest(old(LinesNow()), at)
    {
      if prevLine != Some(at.line) {
        writer.Register(Step(at));
        prevLine := Some(at.line);
      }
    }

    /** The frames of a function transition; `l` is the state before the step. */
    method EmitFrames(at: Position, isTransition: bool, ghost l: Lines)
      requires writer.Valid()
      requires l.depth == nestedCallDepth && l.seen == nestedCallsSeen && isTransition == Transition(l.previous, at.line)
      modifies writer, `nestedCallDepth, `nestedCallsSeen
      ensures writer.Valid()
      ensures Lines(Some(at.line), nestedCallDepth, nestedCallsSeen) == NextLines(l, at.line)
      ensures writer.requests == old(writer.requests) + FrameRequests(cfg, l, at)
    {
      if isTransition {
        if nestedCallDepth > 0 {
          writer.Register(Request.Return);
          nestedCallDepth := nestedCallDepth - 1;
        }
        var name := if nestedCallsSeen < |cfg.overrides| then cfg.overrides[nestedCallsSeen]
                    else SyntheticName(nestedCallsSeen);
        nestedCallsSeen := nestedCallsSeen + 1;
        writer.Register(Request.Call(Synthesised(name), at));
        nestedCallDepth := nestedCallDepth + 1;
      }
    }

    /** The callback's first half: switches, receipts and storage accesses. */
    method ObserveReceipts(step: StepState) returns (payload: Option<seq<byte>>)
      requires Valid() && prevReceiptCount <= |step.receipts|
      modifies writer, callTracker, `prevReceiptCount
      ensures Valid() && prevReceiptCount == |step.receipts|
      ensures payload == FirstPayload(step.receipts[old(prevReceiptCount)..])
      ensures callTracker.callStack == AfterAll(old(callTracker.callStack), step.receipts[old(prevReceiptCount)..])
      ensures writer.requests == old(writer.requests)
                + SwitchRequests(cfg, Switches(old(callTracker.callStack), step.receipts[old(prevReceiptCount)..]))
                + RouteAll(step.receipts[old(prevReceiptCount)..])
                + StorageEvents(step)
    {
      var newReceipts := step.receipts[prevReceiptCount..];
      var switches := callTracker.ProcessReceipts(step.receipts);
      prevReceiptCount := |step.receipts|;
      EmitSwitches(switches);
      payload := EmitReceipts(newReceipts);
      EmitStorage(step);
    }

    /** The variables of the step, once the tracker has processed it. */
    method Snapshot(step: StepState, payload: Option<seq<byte>>, ghost newReceipts: seq<Receipt>)
      returns (vs: seq<Variable>)
      requires payload == FirstPayload(newReceipts)
      modifies tracker
      ensures tracker.State() == Variables.Track(old(tracker.State()), step.instruction)
      ensures vs == StepVariables(cfg, tracker.State(), step, newReceipts)
    {
      var tracked := tracker.ProcessStep(step);
      vs := RegisterSnapshot(step, tracked);
      if payload.Some? && payload.value != [] {
        vs := vs + PayloadVariables(cfg.decoder, payload.value);
      }
    }

    /** The callback's second half: the step, its values and its frames. */
    method RecordStep(at: Position, vs: seq<Variable>)
      requires Valid()
      modifies writer, `prevLine, `nestedCallDepth, `nestedCallsSeen
      ensures Valid() && LinesNow() == NextLines(old(LinesNow()), at.line)
      ensures writer.requests == old(writer.requests) + StepRequest(old(LinesNow()), at) + Assigns(vs)
                + FrameRequests(cfg, old(LinesNow()), at)
    {
      ghost var l := LinesNow();
      var isTransition := Transition(prevLine, at.line);
      EmitStep(at);
      EmitAssigns(vs);
      EmitFrames(at, isTransition, l);
    }

    /** One single-step callback. */
    method OnStep(step: StepState)
      requires Valid() && prevReceiptCount <= |step.receipts|
      modifies this, writer, callTracker, tracker
      ensures Valid() && prevReceiptCount == |step.receipts|
      ensures TrackersNow() == Advance(old(TrackersNow()), step)
      ensures LinesNow() == NextLines(old(LinesNow()), Observe(cfg, old(TrackersNow()), step).at.line)
      ensures writer.requests ==
                old(writer.requests) + Emit(cfg, old(LinesNow()), Observe(cfg, old(TrackersNow()), step))
    {
      ghost var l, o, log := LinesNow(), Observe(cfg, TrackersNow(), step), writer.requests;
      ghost var newReceipts := step.receipts[prevReceiptCount..];
      var payload := ObserveReceipts(step);
      var path, line := callTracker.LookupSource(OpcodeIndex(step), cfg.lines, cfg.path);
      var vs := Snapshot(step, payload, newReceipts);
      RecordStep(Position(path, line), vs);
      Regroup7(log, SwitchRequests(cfg, o.switches), RouteAll(newReceipts), StorageEvents(step),
               StepRequest(l, o.at), Assigns(o.variables), FrameRequests(cfg, l, o.at));
    }

    /** The steps taken so far have been observed and requested. */
    ghost predicate HasRecorded(steps: seq<StepState>)
      reads this, writer, callTracker, tracker
    {
      && prevReceiptCount == |SeenAtEnd([], steps)|
      && TrackersNow() == TrackersAfter(cfg, steps)
      && LinesNow() == LinesAfter(Observations(cfg, steps))
      && writer.requests == Requests(cfg, Observations(cfg, steps))
    }

    method TakeStep(step: StepState, ghost before: seq<StepState>)
      requires Valid() && HasRecorded(before) && prevReceiptCount <= |step.receipts|
      modifies this, writer, callTracker, tracker
      ensures Valid() && HasRecorded(before + [step])
    {
      OnStep(step);
      NextObservation(cfg, before, step);
    }

    /** The end of the recording. */
    method Finish(final: seq<Receipt>)
      requires Valid() && prevReceiptCount <= |final|
      modifies this, writer, callTracker
      ensures writer.Valid()
      ensures writer.requests == old(writer.requests) + Closing(cfg, old(LinesNow()), old(prevReceiptCount), final)
    {
      ghost var l, log, seen := LinesNow(), writer.requests, prevReceiptCount;
      DrainReceipts(final[prevReceiptCount..]);
      CloseNested();
      if cfg.predicateMode {
        writer.Register(Assign(Variable("predicate_result", Bool(ReturnValue(final) != 0))));
        callTracker.ExitPredicate();
      }
      writer.Register(Request.Return);
      var result := if cfg.predicateMode then [Assign(PredicateResult(final))] else [];
      Regroup5(log, RouteTail(final[seen..]), Returns(l.depth), result, [Request.Return]);
      assert log + RouteTail(final[seen..]) + Returns(l.depth) + [] == log + RouteTail(final[seen..]) + Returns(l.depth);
    }

    method Complete(final: seq<Receipt>, ghost steps: seq<StepState>)
      requires Valid() && HasRecorded(steps) && |SeenAtEnd([], steps)| <= |final|
      modifies this, writer, callTracker
      ensures writer.requests == Recording(cfg, steps, final)
    {
      Finish(final);
    }

    /** Balances the synthesised calls still open. */
    method CloseNested()
      requires writer.Valid()
      modifies writer, `nestedCallDepth
      ensures writer.Valid() && nestedCallDepth == 0
      ensures writer.requests == old(writer.requests) + Returns(old(nestedCallDepth))
    {
      while nestedCallDepth > 0
        invariant writer.Valid() && nestedCallDepth <= old(nestedCallDepth)
        invariant writer.requests == old(writer.requests) + Returns(old(nestedCallDepth) - nestedCallDepth)
      {
        writer.Register(Request.Return);
        nestedCallDepth := nestedCallDepth - 1;
        ghost var n := old(nestedCallDepth) - nestedCallDepth;
        assert Returns(n) == Returns(n - 1) + [Request.Return];
      }
    }

    method DrainReceipts(rest: seq<Receipt>)
      requires writer.Valid()
      modifies writer
      ensures writer.Valid()
      ensures writer.requests == old(writer.requests) + RouteTail(rest)
    {
      for i := 0 to |rest|
        invariant writer.Valid()
        invariant writer.requests == old(writer.requests) + RouteTail(rest[..i])
      {
        assert Front(rest[..i + 1]) == rest[..i];
        if !(rest[i].Return? || rest[i].ReturnData? || rest[i].ScriptResult?) {
          writer.EmitReceiptSpecialEvent(rest[i]);
        }
      }
      assert rest[..|rest|] == rest;
    }
  }

  lemma NextReceipt(log: seq<Request>, rs: seq<Receipt>, i: nat)
    requires i < |rs|
    ensures FirstPayload(rs[..i + 1]) == NextPayload(FirstPayload(rs[..i]), rs[i])
    ensures log + RouteAll(rs[..i + 1]) == log + RouteAll(rs[..i]) + Route(rs[i])
  {
    assert Front(rs[..i + 1]) == rs[..i] && Last(rs[..i + 1]) == rs[i];
  }

  lemma NextReceipts(steps: seq<StepState>, i: nat)
    requires i < |steps| && Growing([], steps)
    ensures |SeenAtEnd([], steps[..i])| <= |steps[i].receipts|
    ensures steps[..i + 1] == steps[..i] + [steps[i]]
  {
    assert SeenAtEnd([], steps[..i]) <= steps[i].receipts;
  }

  /** Records a whole run. */
  method Record(lines: LineMap, path: Path, abi: Option<seq<AbiDecoder.AbiFunction>>, overrides: seq<string>,
                predicateMode: bool, steps: seq<StepState>, final: seq<Receipt>)
    returns (log: seq<Request>)
    requires Growing([], steps) && SeenAtEnd([], steps) <= final
    ensures log == Recording(SetUp(lines, path, abi, overrides, predicateMode), steps, final)
  {
    var cfg := SetUp(lines, path, abi, overrides, predicateMode);
    var recorder := new Session(cfg);
    for i := 0 to |steps|
      invariant recorder.Valid() && recorder.cfg == cfg
      invariant fresh(recorder) && fresh(recorder.writer) && fresh(recorder.callTracker) && fresh(recorder.tracker)
      invariant recorder.HasRecorded(steps[..i])
    {
      NextReceipts(steps, i);
      recorder.TakeStep(steps[i], steps[..i]);
    }
    assert steps[..|steps|] == steps;
    recorder.Complete(final, steps);
    return recorder.writer.requests;
  }

  lemma NextObservation(cfg: Config, before: seq<StepState>, step: StepState)
    ensures var o := Observe(cfg, TrackersAfter(cfg, before), step);
            && TrackersAfter(cfg, before + [step]) == Advance(TrackersAfter(cfg, before), step)
            && LinesAfter(Observations(cfg, before + [step])) == NextLines(LinesAfter(Observations(cfg, before)), o.at.line)
            && Requests(cfg, Observations(cfg, before + [step])) ==
                 Requests(cfg, Observations(cfg, before)) + Emit(cfg, LinesAfter(Observations(cfg, before)), o)
            && SeenAtEnd([], before + [step]) == step.receipts
  {
    assert Front(before + [step]) == before && Last(before + [step]) == step;
    var after := Observations(cfg, before + [step]);
    assert Front(after) == Observations(cfg, before);
  }

  lemma NextSwitch(cfg: Config, switches: seq<Switch>, i: nat)
    requires i < |switches|
    ensures SwitchRequests(cfg, switches[..i + 1]) == SwitchRequests(cfg, switches[..i]) + [SwitchRequest(cfg, switches[i])]
  {
  }
}
