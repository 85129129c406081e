/** Where the steps of an instruction-level recording are, and when each
    instruction's step is in the instruction's own file. */
module StepPlaces {
  import opened Prelude
  import opened Machine
  import opened TraceLog
  import opened Writer
  import opened Recorder

  // ----- every step requested is written once, where it was requested

  /** The positions of the steps requested. */
  function Requested(rs: seq<Request>): seq<Position> {
    if rs == [] then []
    else if Last(rs).Start? || Last(rs).Step? then Requested(Front(rs)) + [Last(rs).at]
    else Requested(Front(rs))
  }

  /** The positions of the steps written. */
  function Written(records: seq<Record>): seq<Position> {
    if records == [] then []
    else if Last(records).StepRecord? then Written(Front(records)) + [Last(records).at]
    else Written(Front(records))
  }

  function HeldAt(b: Buffer): seq<Position> {
    if b.step.Some? then [b.step.value] else []
  }

  lemma {:induction false} RequestedAppend(a: seq<Request>, b: seq<Request>)
    ensures Requested(a + b) == Requested(a) + Requested(b)
  {
    if b == [] {
      assert a + b == a;
    } else {
      RequestedAppend(a, Front(b));
      assert Front(a + b) == a + Front(b) && Last(a + b) == Last(b);
    }
  }

  lemma {:induction false} RequestedNone(rs: seq<Request>)
    requires forall r :: r in rs ==> !r.Start? && !r.Step?
    ensures Requested(rs) == []
  {
    if rs != [] {
      RequestedNone(Front(rs));
    }
  }

  lemma WrittenAdd(records: seq<Record>, r: Record)
    ensures Written(records + [r]) == if r.StepRecord? then Written(records) + [r.at] else Written(records)
  {
    assert Front(records + [r]) == records;
  }

  /** Flushing writes the held step. */
  lemma FlushKeepsPlaces(b: Buffer)
    ensures Written(Flush(b).records) == Written(b.records) + HeldAt(b) && Flush(b).step.None?
  {
    if b.step.Some? {
      WrittenAdd(b.records, StepRecord(b.step.value, b.variables));
    }
  }

  /** The positions written and held. */
  function AllPlaces(b: Buffer): seq<Position> {
    Written(b.records) + HeldAt(b)
  }

  lemma FlushThenAdd(b: Buffer, r: Record)
    requires !r.StepRecord?
    ensures Written(Flush(b).records + [r]) == Written(b.records) + HeldAt(b)
  {
    FlushKeepsPlaces(b);
    WrittenAdd(Flush(b).records, r);
  }

  lemma PushFrameKeepsPlaces(b: Buffer, r: Request)
    requires r.Call? || r.Return?
    ensures AllPlaces(Push(b, r)) == AllPlaces(b) && Push(b, r).step.None?
  {
    FlushKeepsPlaces(b);
    FlushThenAdd(b, if r.Return? then ReturnRecord else CallRecord(Some(r.callee), r.at));
  }

  lemma PushStepAddsPlace(b: Buffer, r: Request)
    requires r.Start? || r.Step?
    ensures AllPlaces(Push(b, r)) == AllPlaces(b) + [r.at]
  {
    FlushKeepsPlaces(b);
    FlushThenAdd(b, CallRecord(None, r.at));
  }

  lemma PushEventKeepsPlaces(b: Buffer, r: Request)
    requires r.Assign? || r.Event? || r.Storage?
    ensures AllPlaces(Push(b, r)) == AllPlaces(b)
  {
    WrittenAdd(b.records, EventRecord(r));
  }

  lemma PushKeepsPlaces(b: Buffer, r: Request)
    ensures AllPlaces(Push(b, r)) == if r.Start? || r.Step? then AllPlaces(b) + [r.at] else AllPlaces(b)
    ensures r.Return? ==> Push(b, r).step.None?
  {
    if r.Start? || r.Step? {
      PushStepAddsPlace(b, r);
    } else if r.Call? || r.Return? {
      PushFrameKeepsPlaces(b, r);
    } else {
      PushEventKeepsPlaces(b, r);
    }
  }

  /** Whatever is requested, the steps written and the one held back are those
      requested, in order. */
  lemma {:induction false} StepsAreWritten(rs: seq<Request>)
    ensures AllPlaces(Replay(EMPTY, rs)) == Requested(rs)
  {
    if rs != [] {
      StepsAreWritten(Front(rs));
      PushKeepsPlaces(Replay(EMPTY, Front(rs)), Last(rs));
    }
  }

  /** A log that ends with a return holds nothing back. */
  lemma AllWritten(rs: seq<Request>)
    requires rs != [] && Last(rs).Return?
    ensures Written(Replay(EMPTY, rs).records) == Requested(rs)
  {
    StepsAreWritten(rs);
    PushKeepsPlaces(Replay(EMPTY, Front(rs)), Request.Return);
  }

  // ----- every other request is written as one record

  /** The record of a request that is neither a step nor a value. */
  predicate RecordOf(r: Record, request: Request) {
    match request
    case Start(at) => r == CallRecord(None, at)
    case Call(callee, at) => r == CallRecord(Some(callee), at)
    case Return => r == ReturnRecord
    case Event(_, _) => r == EventRecord(request)
    case Storage(_, _, _, _) => r == EventRecord(request)
    case _ => false
  }

  predicate IsPlain(r: Record) {
    !r.StepRecord?
  }

  predicate IsTold(r: Request) {
    !r.Step? && !r.Assign?
  }

  predicate RecordsOf(records: seq<Record>, requests: seq<Request>) {
    |records| == |requests| && forall i :: 0 <= i < |records| ==> RecordOf(records[i], requests[i])
  }

  lemma PushAdds(b: Buffer, r: Request)
    requires IsTold(r)
    ensures Push(b, r).records != [] && RecordOf(Last(Push(b, r).records), r)
    ensures Front(Push(b, r).records) == if r.Event? || r.Storage? then b.records else Flush(b).records
  {
  }

  lemma {:induction false} PushTells(b: Buffer, r: Request)
    requires IsTold(r)
    ensures Push(b, r).records != [] && RecordOf(Last(Push(b, r).records), r)
    ensures Filter(IsPlain, Push(b, r).records) == Filter(IsPlain, b.records) + [Last(Push(b, r).records)]
  {
    FilterFlush(b);
    PushAdds(b, r);
    assert IsPlain(Last(Push(b, r).records));
  }

  lemma {:induction false} PushHides(b: Buffer, r: Request)
    requires !IsTold(r)
    ensures Filter(IsPlain, Push(b, r).records) == Filter(IsPlain, b.records)
  {
    FilterFlush(b);
  }

  lemma {:induction false} FilterFlush(b: Buffer)
    ensures Filter(IsPlain, Flush(b).records) == Filter(IsPlain, b.records)
  {
    if b.step.Some? {
      assert Front(Flush(b).records) == b.records;
    }
  }

  lemma RecordsOfNext(records: seq<Record>, requests: seq<Request>, r: Record, q: Request)
    requires RecordsOf(records, requests) && RecordOf(r, q)
    ensures RecordsOf(records + [r], requests + [q])
  {
  }

  /** Calls, returns and events are written once each, in order, as requested. */
  lemma {:induction false} EverythingIsWritten(rs: seq<Request>)
    ensures RecordsOf(Filter(IsPlain, Replay(EMPTY, rs).records), Filter(IsTold, rs))
  {
    if rs != [] {
      var b, r := Replay(EMPTY, Front(rs)), Last(rs);
      EverythingIsWritten(Front(rs));
      if IsTold(r) {
        PushTells(b, r);
        RecordsOfNext(Filter(IsPlain, b.records), Filter(IsTold, Front(rs)), Last(Push(b, r).records), r);
      } else {
        PushHides(b, r);
      }
    }
  }

  // ----- the steps of a recording

  /** Instruction `i` is on the line of the one before it. */
  predicate SameLine(obs: seq<Observation>, i: nat)
    requires i < |obs|
  {
    i > 0 && obs[i].at.line == obs[i - 1].at.line
  }

  /** The first instruction of the same-line run that `i` belongs to. */
  function RunStart(obs: seq<Observation>, i: nat): (start: nat)
    requires i < |obs|
    ensures start <= i
  {
    if SameLine(obs, i) then RunStart(obs, i - 1) else i
  }

  /** The number of same-line runs up to that of `i`; its step has this number,
      the entry's being 0. */
  function StepNumber(obs: seq<Observation>, i: nat): (n: nat)
    requires i < |obs|
    ensures 1 <= n <= i + 1
  {
    if i == 0 then 1 else StepNumber(obs, i - 1) + if SameLine(obs, i) then 0 else 1
  }

  /** The positions the callbacks step to. */
  function SteppedTo(obs: seq<Observation>): seq<Position> {
    if obs == [] then []
    else if SameLine(obs, |obs| - 1) then SteppedTo(Front(obs))
    else SteppedTo(Front(obs)) + [Last(obs).at]
  }

  lemma NoStepsAround(cfg: Config, l: Lines, o: Observation)
    requires EventsOnly(o)
    ensures Requested(SwitchRequests(cfg, o.switches)) == [] && Requested(o.events) == []
    ensures Requested(Assigns(o.variables)) == [] && Requested(FrameRequests(cfg, l, o.at)) == []
  {
    RequestedNone(SwitchRequests(cfg, o.switches));
    RequestedNone(o.events);
    RequestedNone(Assigns(o.variables));
    RequestedNone(FrameRequests(cfg, l, o.at));
  }

  lemma RequestedOne(at: Position)
    ensures Requested([Step(at)]) == [at]
  {
    assert Front([Step(at)]) == [];
  }

  lemma OnlyThird(a: seq<Request>, b: seq<Request>, c: seq<Request>, d: seq<Request>, e: seq<Request>)
    requires Requested(a) == [] && Requested(b) == [] && Requested(d) == [] && Requested(e) == []
    ensures Requested(a + b + c + d + e) == Requested(c)
  {
    RequestedAppend(a + b + c + d, e);
    RequestedAppend(a + b + c, d);
    RequestedAppend(a + b, c);
    RequestedAppend(a, b);
  }

  lemma EmitSteps(cfg: Config, l: Lines, o: Observation)
    requires EventsOnly(o)
    ensures Requested(Emit(cfg, l, o)) == if l.previous != Some(o.at.line) then [o.at] else []
  {
    NoStepsAround(cfg, l, o);
    RequestedOne(o.at);
    OnlyThird(SwitchRequests(cfg, o.switches), o.events, StepRequest(l, o.at), Assigns(o.variables),
              FrameRequests(cfg, l, o.at));
  }

  lemma {:induction false} RequestedSteps(cfg: Config, obs: seq<Observation>)
    requires AllEventsOnly(obs)
    ensures Requested(Requests(cfg, obs)) == [Position(cfg.path, 1)] + SteppedTo(obs)
  {
    if obs == [] {
      assert Front(Requests(cfg, obs)) == [];
    } else {
      var l := LinesAfter(Front(obs));
      RequestedSteps(cfg, Front(obs));
      RequestedAppend(Requests(cfg, Front(obs)), Emit(cfg, l, Last(obs)));
      EmitSteps(cfg, l, Last(obs));
      PreviousLine(Front(obs));
    }
  }

  /** The steps of a recording, where they are: the entry, then one for each
      same-line run, at its first instruction. */
  function WrittenPlaces(cfg: Config, steps: seq<StepState>, final: seq<Receipt>): seq<Position>
    requires |SeenAtEnd([], steps)| <= |final|
  {
    Written(Replay(EMPTY, Recording(cfg, steps, final)).records)
  }

  lemma EndsWithReturn(log: seq<Request>, tail: seq<Request>, rest: seq<Request>)
    ensures log + (tail + (rest + [Request.Return])) != []
    ensures Last(log + (tail + (rest + [Request.Return]))) == Request.Return
  {
  }

  lemma RecordingPlaces(cfg: Config, steps: seq<StepState>, final: seq<Receipt>)
    requires |SeenAtEnd([], steps)| <= |final|
    ensures WrittenPlaces(cfg, steps, final) == [Position(cfg.path, 1)] + SteppedTo(Observations(cfg, steps))
  {
    var obs, seen := Observations(cfg, steps), |SeenAtEnd([], steps)|;
    ObservedEvents(cfg, steps);
    PlacesOfLog(cfg, obs, RouteTail(final[seen..]),
                Returns(LinesAfter(obs).depth) + if cfg.predicateMode then [Assign(PredicateResult(final))] else []);
  }

  lemma {:induction false} PlacesOfLog(cfg: Config, obs: seq<Observation>, tail: seq<Request>, rest: seq<Request>)
    requires AllEventsOnly(obs)
    requires (forall r :: r in tail ==> r.Event?) && forall r :: r in rest ==> r.Return? || r.Assign?
    ensures Written(Replay(EMPTY, Requests(cfg, obs) + (tail + (rest + [Request.Return]))).records) ==
            [Position(cfg.path, 1)] + SteppedTo(obs)
  {
    var closing := tail + (rest + [Request.Return]);
    EndsWithReturn(Requests(cfg, obs), tail, rest);
    AllWritten(Requests(cfg, obs) + closing);
    RequestedAppend(Requests(cfg, obs), closing);
    ClosingHasNoSteps(tail, rest);
    RequestedSteps(cfg, obs);
  }

  lemma ClosingHasNoSteps(tail: seq<Request>, rest: seq<Request>)
    requires (forall r :: r in tail ==> r.Event?) && forall r :: r in rest ==> r.Return? || r.Assign?
    ensures Requested(tail + (rest + [Request.Return])) == []
  {
    RequestedNone(tail + (rest + [Request.Return]));
  }

  // ----- which step is an instruction's

  lemma {:induction false} FrontAgrees(obs: seq<Observation>, i: nat)
    requires i + 1 < |obs|
    ensures StepNumber(Front(obs), i) == StepNumber(obs, i) && RunStart(Front(obs), i) == RunStart(obs, i)
  {
    if i > 0 {
      FrontAgrees(obs, i - 1);
    }
  }

  lemma {:induction false} StepsCounted(obs: seq<Observation>)
    requires obs != []
    ensures |SteppedTo(obs)| == StepNumber(obs, |obs| - 1)
  {
    if |obs| > 1 {
      StepsCounted(Front(obs));
      FrontAgrees(obs, |obs| - 2);
    }
  }

  /** The step of instruction `i` is where its run started. */
  lemma {:induction false} StepOfInstruction(obs: seq<Observation>, i: nat)
    requires i < |obs|
    ensures StepNumber(obs, i) <= |SteppedTo(obs)|
    ensures SteppedTo(obs)[StepNumber(obs, i) - 1] == obs[RunStart(obs, i)].at
  {
    var front := Front(obs);
    if i < |front| {
      StepOfInstruction(front, i);
      FrontAgrees(obs, i);
    } else {
      StepsCounted(obs);
      if SameLine(obs, i) {
        StepOfInstruction(front, i - 1);
        FrontAgrees(obs, i - 1);
      }
    }
  }

  /** Consecutive instructions on one line number are in one file. */
  predicate LinesKeepFiles(obs: seq<Observation>) {
    forall i :: 0 <= i < |obs| && SameLine(obs, i) ==> obs[i].at == obs[i - 1].at
  }

  /** Instruction `i` is where its run started. */
  predicate WhereItsRunStarted(obs: seq<Observation>, i: nat)
    requires i < |obs|
  {
    obs[RunStart(obs, i)].at == obs[i].at
  }

  lemma {:induction false} RunsKeepFiles(obs: seq<Observation>, i: nat)
    requires i < |obs| && LinesKeepFiles(obs)
    ensures WhereItsRunStarted(obs, i)
  {
    if SameLine(obs, i) {
      RunsKeepFiles(obs, i - 1);
    }
  }

  lemma {:induction false} FilesOnRuns(obs: seq<Observation>)
    ensures (forall i :: 0 <= i < |obs| ==> WhereItsRunStarted(obs, i)) <==> LinesKeepFiles(obs)
  {
    if LinesKeepFiles(obs) {
      forall i | 0 <= i < |obs| ensures WhereItsRunStarted(obs, i) {
        RunsKeepFiles(obs, i);
      }
    } else {
      var i :| 0 <= i < |obs| && SameLine(obs, i) && obs[i].at != obs[i - 1].at;
      assert !(WhereItsRunStarted(obs, i) && WhereItsRunStarted(obs, i - 1));
    }
  }

  /** The step of instruction `i` is at the place. */
  predicate StepIsAt(written: seq<Position>, obs: seq<Observation>, i: nat, place: Position)
    requires i < |obs|
  {
    StepNumber(obs, i) < |written| && written[StepNumber(obs, i)] == place
  }

  /** Every instruction's step is where the instruction is. */
  predicate InTheirPlaces(written: seq<Position>, obs: seq<Observation>, places: seq<Position>)
    requires |places| == |obs|
  {
    forall i :: 0 <= i < |obs| ==> StepIsAt(written, obs, i, places[i])
  }

  lemma {:induction false} StepOnRun(entry: Position, obs: seq<Observation>, i: nat)
    requires i < |obs|
    ensures StepIsAt([entry] + SteppedTo(obs), obs, i, obs[i].at) <==> WhereItsRunStarted(obs, i)
  {
    StepOfInstruction(obs, i);
    AfterEntry(entry, SteppedTo(obs), StepNumber(obs, i), obs[RunStart(obs, i)].at, obs[i].at);
  }

  lemma AfterEntry(entry: Position, places: seq<Position>, n: nat, start: Position, at: Position)
    requires 1 <= n <= |places| && places[n - 1] == start
    ensures n < |[entry] + places| && (([entry] + places)[n] == at <==> start == at)
  {
  }

  lemma {:induction false} PlacesOnRuns(entry: Position, obs: seq<Observation>)
    ensures InTheirPlaces([entry] + SteppedTo(obs), obs, Positions(obs)) <==> LinesKeepFiles(obs)
  {
    var written, places := [entry] + SteppedTo(obs), Positions(obs);
    forall i | 0 <= i < |obs| ensures StepIsAt(written, obs, i, places[i]) <==> WhereItsRunStarted(obs, i) {
      StepOnRun(entry, obs, i);
    }
    FilesOnRuns(obs);
  }

  /** Every recording has one step for each same-line run besides the entry; an
      instruction's step is where the instruction is, for all of them, if and
      only if no two consecutive instructions share a line number in different
      files. */
  lemma {:induction false} StepsInTheirFiles(cfg: Config, steps: seq<StepState>, final: seq<Receipt>)
    requires |SeenAtEnd([], steps)| <= |final|
    ensures InTheirPlaces(WrittenPlaces(cfg, steps, final), Observations(cfg, steps), Places(cfg, steps))
            <==> LinesKeepFiles(Observations(cfg, steps))
  {
    RecordingPlaces(cfg, steps, final);
    PlacesOfObservations(cfg, steps);
    PlacesOnRuns(Position(cfg.path, 1), Observations(cfg, steps));
  }

  /** A script whose first two instructions are on line 1 of two files: the
      second has no step in its own file. */
  lemma {:induction false} SecondFileLost(cfg: Config, s: StepState, t: StepState, final: seq<Receipt>)
    requires cfg.lines == [(0, "a.sw", 1), (1, "b.sw", 1)]
    requires s.pc == 0 && s.receipts == [] && t.pc == 4 && t.receipts == []
    ensures WrittenPlaces(cfg, [s, t], final) == [Position(cfg.path, 1), Position("a.sw", 1)]
  {
    var obs := Observations(cfg, [s, t]);
    PlaceOfObservation(cfg, [s, t], 0);
    PlaceOfObservation(cfg, [s, t], 1);
    SecondEntry(cfg, t);
    RecordingPlaces(cfg, [s, t], final);
    assert Front(obs) == [obs[0]] && Front([obs[0]]) == [];
    assert SteppedTo([obs[0]]) == [obs[0].at];
  }
}
