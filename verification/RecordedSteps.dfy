/** The steps of a whole instruction-level recording: whose snapshot each holds,
    and where the result of a predicate goes. */
module RecordedSteps {
  import opened Prelude
  import opened Machine
  import opened TraceLog
  import opened Writer
  import opened Recorder
  import opened Attribution
  import Decoders

  /** Every recording is observed. */
  lemma {:induction false} RunIsObserved(cfg: Config, steps: seq<StepState>)
    ensures Observed(Observations(cfg, steps))
  {
    if steps != [] {
      RunIsObserved(cfg, Front(steps));
      EventsFlat(NewReceipts(TrackersAfter(cfg, Front(steps)), Last(steps)), Last(steps));
    }
  }

  /** The steps a recording writes. */
  function WrittenSteps(cfg: Config, steps: seq<StepState>, final: seq<Receipt>): seq<Record>
    requires |SeenAtEnd([], steps)| <= |final|
  {
    StepRecords(Replay(EMPTY, Recording(cfg, steps, final)).records)
  }

  /** What the end of the run assigns. */
  function Assigned(cfg: Config, final: seq<Receipt>): Option<Variable> {
    if cfg.predicateMode then Some(PredicateResult(final)) else None
  }

  lemma RecordingCloses(cfg: Config, steps: seq<StepState>, final: seq<Receipt>)
    requires |SeenAtEnd([], steps)| <= |final|
    ensures Recording(cfg, steps, final) == Requests(cfg, Observations(cfg, steps)) +
              Closed(Observations(cfg, steps), RouteTail(final[|SeenAtEnd([], steps)|..]), Assigned(cfg, final))
  {
    var obs, tail := Observations(cfg, steps), RouteTail(final[|SeenAtEnd([], steps)|..]);
    var result := if cfg.predicateMode then [Assign(PredicateResult(final))] else [];
    Regroup4(tail, Returns(LinesAfter(obs).depth), result, [Request.Return]);
  }

  /** Every recording, script or predicate, contract calls or not: each
      instruction's snapshot is on the step of its own line, and a predicate's
      result on the last step if no line gap was crossed, if and only if no line
      goes on after its step has been written. */
  lemma {:induction false} SnapshotsBelong(cfg: Config, steps: seq<StepState>, final: seq<Receipt>)
    requires |SeenAtEnd([], steps)| <= |final|
    ensures WrittenSteps(cfg, steps, final) ==
              Expected(cfg, Observations(cfg, steps), Shown(Observations(cfg, steps), Assigned(cfg, final)))
            <==> Uninterrupted(Observations(cfg, steps))
  {
    RunIsObserved(cfg, steps);
    RecordingCloses(cfg, steps, final);
    SnapshotsBelongIffUninterrupted(cfg, Observations(cfg, steps), RouteTail(final[|SeenAtEnd([], steps)|..]),
                                    Assigned(cfg, final));
  }

  /** A recording that misplaces a snapshot: a script's first instruction, on
      line 10, opens a synthesised frame, and the second one on that line comes
      too late for its step. */
  lemma {:induction false} RepeatedLineMisplaced(cfg: Config, s: StepState, t: StepState, final: seq<Receipt>)
    requires cfg.lines == [(0, cfg.path, 10), (1, cfg.path, 10)]
    requires s.pc == 0 && s.receipts == [] && t.pc == 4 && t.receipts == []
    ensures WrittenSteps(cfg, [s, t], final) !=
              Expected(cfg, Observations(cfg, [s, t]), Shown(Observations(cfg, [s, t]), Assigned(cfg, final)))
  {
    var obs := Observations(cfg, [s, t]);
    PlaceOfObservation(cfg, [s, t], 0);
    PlaceOfObservation(cfg, [s, t], 1);
    SecondEntry(cfg, t);
    assert BreaksAt(obs, 1);
    SnapshotsBelong(cfg, [s, t], final);
  }

  /** When consecutive instructions are on different lines, the recording has
      one step for each, holding exactly its own snapshot, the last one also
      the result of a predicate unless a line gap was crossed. */
  lemma {:induction false} OneWrittenStepEach(cfg: Config, steps: seq<StepState>, final: seq<Receipt>)
    requires |SeenAtEnd([], steps)| <= |final| && LinesDiffer(Observations(cfg, steps))
    ensures var obs := Observations(cfg, steps);
            OwnSteps(WrittenSteps(cfg, steps, final), obs, Shown(obs, Assigned(cfg, final)))
  {
    var obs := Observations(cfg, steps);
    OneStepPerInstruction(obs);
    SnapshotsBelong(cfg, steps, final);
    ExpectedOwnSteps(cfg, obs, Shown(obs, Assigned(cfg, final)));
  }

  // ----- where the predicate result goes

  /** No contract switch came after the latest step was requested, on its line. */
  predicate StepHeld(obs: seq<Observation>) {
    obs == []
    || |obs| == 1
    || obs[|obs| - 2].at.line != Last(obs).at.line
    || (Last(obs).switches == [] && StepHeld(Front(obs)))
  }

  /** Some written step holds the variable. */
  predicate Carries(records: seq<Record>, v: Variable) {
    exists i :: 0 <= i < |records| && records[i].StepRecord? && v in records[i].variables
  }

  predicate LastCarries(records: seq<Record>, v: Variable) {
    records != [] && Last(records).StepRecord? && v in Last(records).variables
  }

  /** A buffer holds only what was assigned. */
  lemma {:induction false} OnlyAssigned(rs: seq<Request>, v: Variable)
    requires Assign(v) !in rs
    ensures v !in Replay(EMPTY, rs).variables && !Carries(Replay(EMPTY, rs).records, v)
  {
    if rs != [] {
      assert forall r :: r in Front(rs) ==> r in rs;
      OnlyAssigned(Front(rs), v);
      assert Last(rs) in rs;
    }
  }

  /** No step variable is a plain truth value. */
  lemma NoTruthValues(cfg: Config, t: Trackers, s: StepState)
    ensures forall v :: v in Observe(cfg, t, s).variables ==> !v.value.Bool?
  {
    var rs := NewReceipts(t, s);
    var payload := FirstPayload(rs);
    var names := Advance(t, s).names;
    forall v | v in RegisterVariables(names, s.registers) ensures !v.value.Bool? {
    }
    if payload.Some? && payload.value != [] {
      PayloadHasNoTruthValues(cfg.decoder, payload.value);
    }
  }

  lemma DecodedNoTruthValue(decoder: Decoders.Decoder, p: seq<byte>)
    requires p != []
    ensures Decoders.Decoded(decoder, p).Some? ==> !Decoders.Decoded(decoder, p).value.value.Bool?
  {
  }

  lemma PayloadHasNoTruthValues(decoder: Decoders.Decoder, p: seq<byte>)
    requires p != []
    ensures forall v :: v in Decoders.PayloadVariables(decoder, p) ==> !v.value.Bool?
  {
    DecodedNoTruthValue(decoder, p);
    assert forall v :: v in Decoders.WordVariables(p) ==> !v.value.Bool?;
    Join([Variable("logd_payload", Sequence(Decoders.ByteValues(p), false))], Decoders.WordVariables(p),
         Decoders.TypedVariables(decoder, p));
  }

  lemma Join(a: seq<Variable>, b: seq<Variable>, c: seq<Variable>)
    requires forall v :: v in a || v in b || v in c ==> !v.value.Bool?
    ensures forall v :: v in a + b + c ==> !v.value.Bool?
  {
  }

  lemma {:induction false} ResultNotAssigned(cfg: Config, steps: seq<StepState>, v: Variable)
    requires v.value.Bool?
    ensures Assign(v) !in Requests(cfg, Observations(cfg, steps))
  {
    if steps != [] {
      ResultNotAssigned(cfg, Front(steps), v);
      var t := TrackersAfter(cfg, Front(steps));
      var obs := Observations(cfg, steps);
      assert Front(obs) == Observations(cfg, Front(steps)) && Last(obs) == Observe(cfg, t, Last(steps));
      NoTruthValues(cfg, t, Last(steps));
      EventsFlat(NewReceipts(t, Last(steps)), Last(steps));
      NotEmitted(cfg, LinesAfter(Front(obs)), Last(obs), v);
    }
  }

  lemma NotEmitted(cfg: Config, l: Lines, o: Observation, v: Variable)
    requires EventsOnly(o) && v !in o.variables
    ensures Assign(v) !in Emit(cfg, l, o)
  {
  }

  lemma {:induction false} StepsAreRecords(records: seq<Record>, v: Variable)
    ensures Carries(StepRecords(records), v) ==> Carries(records, v)
  {
    if records != [] {
      StepsAreRecords(Front(records), v);
      if Carries(Front(records), v) {
        var i :| 0 <= i < |Front(records)| && Front(records)[i].StepRecord? && v in Front(records)[i].variables;
        assert records[i] == Front(records)[i];
      }
      if Last(records).StepRecord? && v in Last(records).variables {
        assert records[|records| - 1] == Last(records);
      }
    }
  }

  /** With a synthesised frame open, the result is assigned to no step. */
  lemma ResultStranded(log: seq<Request>, n: nat, v: Variable)
    requires n > 0 && Assign(v) !in log
    ensures !Carries(Replay(EMPTY, log + Returns(n) + [Assign(v)] + [Request.Return]).records, v)
  {
    var before := log + Returns(n);
    OnlyAssigned(before, v);
    ReplayAppend(EMPTY, log, Returns(n));
    ReplayReturns(Replay(EMPTY, log), n);
    var b := Replay(EMPTY, before);
    ReplayAppend(EMPTY, before, [Assign(v)]);
    ReplayAppend(EMPTY, before + [Assign(v)], [Request.Return]);
    ReplayOne(b, Assign(v));
    var c := Push(b, Assign(v));
    ReplayOne(c, Request.Return);
    assert Push(c, Request.Return).records == b.records + [ReturnRecord];
  }

  lemma ExtendedCarries(steps: seq<Record>, r: Record, v: Variable)
    requires r.StepRecord?
    ensures LastCarries(steps + [Extended(r, [v])], v) && Carries(steps + [Extended(r, [v])], v)
  {
    var all := steps + [Extended(r, [v])];
    assert Extended(r, [v]).variables[|r.variables|] == v;
    assert all[|steps|].StepRecord? && v in all[|steps|].variables;
  }

  lemma ResultNowhere(cfg: Config, steps: seq<StepState>, final: seq<Receipt>)
    requires |SeenAtEnd([], steps)| <= |final| && cfg.predicateMode
    requires Gaps(LineSequence(Observations(cfg, steps))) != []
    ensures !Carries(WrittenSteps(cfg, steps, final), PredicateResult(final))
  {
    var log, n := Requests(cfg, Observations(cfg, steps)), LinesAfter(Observations(cfg, steps)).depth;
    var tail, result := RouteTail(final[|SeenAtEnd([], steps)|..]), PredicateResult(final);
    LinesCountGaps(Observations(cfg, steps));
    ResultNotAssigned(cfg, steps, result);
    ResultStranded(log + tail, n, result);
    Regroup5(log, tail, Returns(n), [Assign(result)], [Request.Return]);
    StepsAreRecords(Replay(EMPTY, Recording(cfg, steps, final)).records, result);
  }

  lemma HeldNext(cfg: Config, obs: seq<Observation>)
    requires obs != [] && EventsOnly(Last(obs))
    requires !Transition(LinesAfter(Front(obs)).previous, Last(obs).at.line)
    ensures BufferAfter(cfg, obs).step.Some? <==>
            LinesAfter(Front(obs)).previous != Some(Last(obs).at.line)
            || (Last(obs).switches == [] && BufferAfter(cfg, Front(obs)).step.Some?)
  {
    var l, o := LinesAfter(Front(obs)), Last(obs);
    var b := BufferAfter(cfg, Front(obs));
    BufferStep(cfg, obs);
    StagedSteps(cfg, l, o, b);
    ReplayFrames(cfg, l, o.at, Staged(cfg, l, o, b));
  }

  /** Without a line gap, the step is still held at the end exactly then. */
  lemma {:induction false} HeldAfter(cfg: Config, obs: seq<Observation>)
    requires Observed(obs) && Gaps(LineSequence(obs)) == []
    ensures BufferAfter(cfg, obs).step.Some? <==> StepHeld(obs)
  {
    if obs == [] {
      StartAttributed(cfg);
    } else {
      assert Front(LineSequence(obs)) == LineSequence(Front(obs));
      HeldAfter(cfg, Front(obs));
      PreviousLine(Front(obs));
      HeldNext(cfg, obs);
    }
  }

  /** A result assigned while a step is held is on the last step written. */
  lemma ResultOnLastStep(cfg: Config, steps: seq<StepState>, final: seq<Receipt>)
    requires |SeenAtEnd([], steps)| <= |final| && cfg.predicateMode
    requires Gaps(LineSequence(Observations(cfg, steps))) == [] && StepHeld(Observations(cfg, steps))
    ensures LastCarries(WrittenSteps(cfg, steps, final), PredicateResult(final))
    ensures Carries(WrittenSteps(cfg, steps, final), PredicateResult(final))
  {
    var obs, result := Observations(cfg, steps), PredicateResult(final);
    var b := BufferAfter(cfg, obs);
    RunIsObserved(cfg, steps);
    HeldAfter(cfg, obs);
    LinesCountGaps(obs);
    RecordingCloses(cfg, steps, final);
    PredicateClosing(cfg, obs, RouteTail(final[|SeenAtEnd([], steps)|..]), result);
    ExtendedCarries(StepRecords(b.records), StepRecord(b.step.value, b.variables), result);
  }

  /** A result assigned after the step was written is on no step. */
  lemma ResultTooLate(cfg: Config, steps: seq<StepState>, final: seq<Receipt>)
    requires |SeenAtEnd([], steps)| <= |final| && cfg.predicateMode
    requires Gaps(LineSequence(Observations(cfg, steps))) == [] && !StepHeld(Observations(cfg, steps))
    ensures !Carries(WrittenSteps(cfg, steps, final), PredicateResult(final))
  {
    var obs, result := Observations(cfg, steps), PredicateResult(final);
    var b := BufferAfter(cfg, obs);
    RunIsObserved(cfg, steps);
    HeldAfter(cfg, obs);
    RecordingCloses(cfg, steps, final);
    PredicateClosing(cfg, obs, RouteTail(final[|SeenAtEnd([], steps)|..]), result);
    ResultNotAssigned(cfg, steps, result);
    OnlyAssigned(Requests(cfg, obs), result);
    assert WrittenSteps(cfg, steps, final) == StepRecords(b.records);
    StepsAreRecords(b.records, result);
  }

  /** Every predicate recording: the result is on a written step if and only if
      no line gap was crossed and no contract switch came after the latest step
      on its line; and then it is on the last step. */
  lemma {:induction false} PredicateResultAttached(cfg: Config, steps: seq<StepState>, final: seq<Receipt>)
    requires |SeenAtEnd([], steps)| <= |final| && cfg.predicateMode
    ensures Carries(WrittenSteps(cfg, steps, final), PredicateResult(final))
            <==> Gaps(LineSequence(Observations(cfg, steps))) == [] && StepHeld(Observations(cfg, steps))
    ensures Carries(WrittenSteps(cfg, steps, final), PredicateResult(final)) ==>
              LastCarries(WrittenSteps(cfg, steps, final), PredicateResult(final))
  {
    if Gaps(LineSequence(Observations(cfg, steps))) != [] {
      ResultNowhere(cfg, steps, final);
    } else if StepHeld(Observations(cfg, steps)) {
      ResultOnLastStep(cfg, steps, final);
    } else {
      ResultTooLate(cfg, steps, final);
    }
  }

  /** A predicate that loses its result: its one instruction is on line 10. */
  lemma {:induction false} ResultLostAtGap(cfg: Config, s: StepState, final: seq<Receipt>)
    requires cfg.lines == [(0, cfg.path, 10)] && cfg.predicateMode && s.pc == 0 && s.receipts == []
    ensures !Carries(WrittenSteps(cfg, [s], final), PredicateResult(final))
  {
    PlaceOfObservation(cfg, [s], 0);
    OneLineGap(LineSequence(Observations(cfg, [s])));
    PredicateResultAttached(cfg, [s], final);
  }

  lemma OneLineGap(lines: seq<u32>)
    requires |lines| == 1 && lines[0] == 10
    ensures Gaps(lines) != []
  {
  }

  /** One that loses it to a contract call: the call is seen at the second of
      two instructions on line 1. */
  lemma {:induction false} ResultLostAtSwitch(cfg: Config, s: StepState, call: Receipt, final: seq<Receipt>)
    requires cfg.lines == [] && cfg.predicateMode && s.pc == 0 && s.receipts == []
    requires call.Call? && final != []
    ensures var steps := [s, s.(receipts := [call])];
            && SeenAtEnd([], steps) == [call]
            && Gaps(LineSequence(Observations(cfg, steps))) == []
            && !Carries(WrittenSteps(cfg, steps, final), PredicateResult(final))
  {
    var steps := [s, s.(receipts := [call])];
    PlaceOfObservation(cfg, steps, 0);
    PlaceOfObservation(cfg, steps, 1);
    NoGapOnLineOne(LineSequence(Observations(cfg, steps)));
    SwitchSeen(cfg, s, call);
    PredicateResultAttached(cfg, steps, final);
  }

  lemma NoGapOnLineOne(lines: seq<u32>)
    requires |lines| == 2 && lines[0] == lines[1] == 1
    ensures Gaps(lines) == []
  {
    assert Gaps(Front(lines)) == [];
  }

  lemma SwitchSeen(cfg: Config, s: StepState, call: Receipt)
    requires s.receipts == [] && call.Call?
    ensures Last(Observations(cfg, [s, s.(receipts := [call])])).switches != []
  {
    var t := TrackersAfter(cfg, [s]);
    assert Front([s, s.(receipts := [call])]) == [s];
    assert NewReceipts(t, s.(receipts := [call])) == [call];
    assert Last([call]).Call?;
  }
}
