/** The calls and returns of an instruction-level recording. */
module Brackets {
  import opened Prelude
  import opened Machine
  import opened ContractCalls
  import opened TraceLog
  import opened Recorder

  predicate NoCalls(rs: seq<Receipt>) {
    forall i :: 0 <= i < |rs| ==> !rs[i].Call? && !IsReturn(rs[i])
  }

  lemma {:induction false} NoSwitches(stack: Stack, rs: seq<Receipt>)
    requires NoCalls(rs)
    ensures Switches(stack, rs) == [] && AfterAll(stack, rs) == stack
  {
    if rs != [] {
      NoSwitches(stack, Front(rs));
    }
  }

  /** A recording without contract switches, as observed. */
  predicate Unswitched(obs: seq<Observation>) {
    forall i :: 0 <= i < |obs| ==> obs[i].switches == [] && EventsOnly(obs[i])
  }

  /** A run whose steps see no call or return receipt makes no switch. */
  lemma {:induction false} RunIsUnswitched(cfg: Config, steps: seq<StepState>)
    requires forall i :: 0 <= i < |steps| ==> NoCalls(steps[i].receipts)
    ensures Unswitched(Observations(cfg, steps))
  {
    if steps != [] {
      RunIsUnswitched(cfg, Front(steps));
      var t, s := TrackersAfter(cfg, Front(steps)), Last(steps);
      assert NoCalls(NewReceipts(t, s));
      NoSwitches(t.stack, NewReceipts(t, s));
      EventsFlat(NewReceipts(t, s), s);
    }
  }

  predicate IsBracket(r: Request) {
    r.Start? || r.Call? || r.Return?
  }

  /** Each synthesised call with its return. */
  function Frames(calls: seq<Request>): seq<Request> {
    if calls == [] then [] else Frames(Front(calls)) + [Last(calls), Request.Return]
  }

  /** A callback's calls and returns: its switches', then its frames'. */
  lemma BracketsOfEmit(cfg: Config, l: Lines, o: Observation)
    requires EventsOnly(o)
    ensures Filter(IsBracket, Emit(cfg, l, o)) == SwitchRequests(cfg, o.switches) + FrameRequests(cfg, l, o.at)
  {
    var switches, frames := SwitchRequests(cfg, o.switches), FrameRequests(cfg, l, o.at);
    var flat := o.events + StepRequest(l, o.at) + Assigns(o.variables);
    Regroup5(switches, o.events, StepRequest(l, o.at), Assigns(o.variables), frames);
    FilterLast(IsBracket, switches, flat, frames);
    FilterAll(IsBracket, switches);
  }

  /** Without contract switches at most one synthesised frame is open at a
      time: each gap closes the frame of the one before it and opens its own. */
  lemma {:induction false} FramesPartitionRun(cfg: Config, obs: seq<Observation>)
    requires Unswitched(obs)
    ensures Filter(IsBracket, Requests(cfg, obs)) + Returns(LinesAfter(obs).depth) ==
            [Start(Position(cfg.path, 1))] + Frames(GapCalls(cfg, obs))
  {
    if obs == [] {
      FilterAll(IsBracket, Requests(cfg, obs));
    } else {
      var front, l, o := Front(obs), LinesAfter(Front(obs)), Last(obs);
      FramesPartitionRun(cfg, front);
      FilterAppend(IsBracket, Requests(cfg, front), Emit(cfg, l, o));
      BracketsOfEmit(cfg, l, o);
      assert SwitchRequests(cfg, o.switches) + FrameRequests(cfg, l, o.at) == FrameRequests(cfg, l, o.at);
      GapCallsGrow(cfg, obs);
      LinesCountGaps(front);
      NextFrame(Filter(IsBracket, Requests(cfg, front)), GapCalls(cfg, front), cfg, l, o.at);
    }
  }

  /** The calls and returns of a whole script recording without contract calls:
      one bracket per gap, inside the top-level one. */
  lemma {:induction false} RecordedFrames(cfg: Config, steps: seq<StepState>, final: seq<Receipt>)
    requires |SeenAtEnd([], steps)| <= |final|
    requires forall i :: 0 <= i < |steps| ==> NoCalls(steps[i].receipts)
    ensures Filter(IsBracket, Recording(cfg, steps, final)) ==
            [Start(Position(cfg.path, 1))] + Frames(GapCalls(cfg, Observations(cfg, steps))) + [Request.Return]
  {
    var obs := Observations(cfg, steps);
    var l, seen := LinesAfter(obs), |SeenAtEnd([], steps)|;
    RunIsUnswitched(cfg, steps);
    FramesPartitionRun(cfg, obs);
    FilterAppend(IsBracket, Requests(cfg, obs), Closing(cfg, l, seen, final));
    ClosingBrackets(cfg, l, seen, final);
    Regroup3(Filter(IsBracket, Requests(cfg, obs)), Returns(l.depth), [Request.Return]);
  }

  lemma ClosingBrackets(cfg: Config, l: Lines, seen: nat, final: seq<Receipt>)
    requires seen <= |final|
    ensures Filter(IsBracket, Closing(cfg, l, seen, final)) == Returns(l.depth) + [Request.Return]
  {
    var tail := RouteTail(final[seen..]);
    FilterAppend(IsBracket, tail, ClosingRest(cfg, l, final));
    FilterNone(IsBracket, tail);
    ClosingRestBrackets(cfg, l, final);
    assert [] + Filter(IsBracket, ClosingRest(cfg, l, final)) == Filter(IsBracket, ClosingRest(cfg, l, final));
  }

  lemma ClosingRestBrackets(cfg: Config, l: Lines, final: seq<Receipt>)
    ensures Filter(IsBracket, ClosingRest(cfg, l, final)) == Returns(l.depth) + [Request.Return]
  {
    var returned := Returns(l.depth);
    FilterLast(IsBracket, returned, if cfg.predicateMode then [Assign(PredicateResult(final))] else [], [Request.Return]);
    assert forall r :: r in returned ==> r == Request.Return;
    FilterAll(IsBracket, returned);
  }

  lemma NextFrame(brackets: seq<Request>, calls: seq<Request>, cfg: Config, l: Lines, at: Position)
    requires l.depth <= 1
    requires brackets + Returns(l.depth) == [Start(Position(cfg.path, 1))] + Frames(calls)
    ensures var call := Request.Call(Synthesised(CalleeName(cfg, l.seen)), at);
            brackets + FrameRequests(cfg, l, at) + Returns(NextLines(l, at.line).depth) ==
              [Start(Position(cfg.path, 1))]
              + Frames(calls + if Transition(l.previous, at.line) then [call] else [])
  {
    if Transition(l.previous, at.line) {
      var call := Request.Call(Synthesised(CalleeName(cfg, l.seen)), at);
      FramesAdd(calls, call);
      assert Returns(1) == [Request.Return] && Returns(0) == [];
      assert brackets + FrameRequests(cfg, l, at) == brackets + Returns(l.depth) + [call];
    } else {
      assert brackets + FrameRequests(cfg, l, at) == brackets;
      assert calls + [] == calls;
    }
  }

  lemma FramesAdd(calls: seq<Request>, call: Request)
    ensures Frames(calls + [call]) == Frames(calls) + [call, Request.Return]
  {
    assert Front(calls + [call]) == calls;
  }

  /** In such a recording, when an instruction's step and values are requested,
      the frames opened so far are those of the gaps before it, the last of them
      still open: an instruction that crosses a gap is recorded before the call
      it is taken for. */
  lemma StepBeforeItsFrame(cfg: Config, obs: seq<Observation>, i: nat)
    requires Unswitched(obs) && i < |obs|
    ensures var before, l := obs[..i], LinesAfter(obs[..i]);
            var log := Requests(cfg, before) + Staging(cfg, l, obs[i]);
            && Requests(cfg, obs[..i + 1]) == log + FrameRequests(cfg, l, obs[i].at)
            && Filter(IsBracket, log) + Returns(if Gaps(LineSequence(before)) == [] then 0 else 1) ==
                 [Start(Position(cfg.path, 1))] + Frames(GapCalls(cfg, before))
  {
    var before, l, o := obs[..i], LinesAfter(obs[..i]), obs[i];
    assert Front(obs[..i + 1]) == before;
    StagingKinds(cfg, l, o);
    FilterAppend(IsBracket, Requests(cfg, before), Staging(cfg, l, o));
    FilterNone(IsBracket, Staging(cfg, l, o));
    FramesPartitionRun(cfg, before);
    LinesCountGaps(before);
    Regroup3(Requests(cfg, before), Staging(cfg, l, o), FrameRequests(cfg, l, o.at));
    assert Filter(IsBracket, Requests(cfg, before)) + [] == Filter(IsBracket, Requests(cfg, before));
  }
}
