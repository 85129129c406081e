/** That a frame is open while an instruction-level recording is written: always
    in script mode, in predicate mode exactly while the receipts seen leave the
    predicate its own context, which the machine guarantees. */
module OpenFrames {
  import opened Prelude
  import opened Machine
  import opened ContractCalls
  import opened TraceLog
  import opened Recorder

  /** The contract calls open after some callbacks; negative once a predicate
      recording has lost the predicate's own context to a stray return. */
  function Calls(obs: seq<Observation>): int {
    if obs == [] then 0 else Calls(Front(obs)) + NetSwitches(Last(obs).switches)
  }

  lemma {:induction false} CallsAreContexts(cfg: Config, steps: seq<StepState>)
    ensures Calls(Observations(cfg, steps)) == |TrackersAfter(cfg, steps).stack| - |InitialTrackers(cfg).stack|
  {
    if steps != [] {
      var t := TrackersAfter(cfg, Front(steps));
      CallsAreContexts(cfg, Front(steps));
      SwitchesMatchStack(t.stack, NewReceipts(t, Last(steps)));
      NextObserved(cfg, steps);
    }
  }

  lemma NextObserved(cfg: Config, steps: seq<StepState>)
    requires steps != []
    ensures var t, obs := TrackersAfter(cfg, Front(steps)), Observations(cfg, steps);
            && Front(obs) == Observations(cfg, Front(steps))
            && Last(obs).switches == Switches(t.stack, NewReceipts(t, Last(steps)))
  {
  }

  /** The frames open: the top-level one, the synthesised one if any, and the
      contract calls. */
  function FramesOpen(obs: seq<Observation>): int {
    1 + LinesAfter(obs).depth + Calls(obs)
  }

  lemma {:induction false} FramesOpenIsDepth(cfg: Config, obs: seq<Observation>)
    requires AllEventsOnly(obs)
    ensures Depth(Requests(cfg, obs)) == FramesOpen(obs)
  {
    if obs == [] {
      assert Front(Requests(cfg, [])) == [];
    } else {
      var l, o := LinesAfter(Front(obs)), Last(obs);
      FramesOpenIsDepth(cfg, Front(obs));
      DepthOfEmit(cfg, l, o);
      DepthAppend(Requests(cfg, Front(obs)), Emit(cfg, l, o));
    }
  }

  // ----- one callback

  /** With `base` frames open, the switches leave one open throughout. */
  predicate SwitchesLast(base: int, switches: seq<Switch>) {
    && base + NetSwitches(switches) >= 1
    && (switches != [] ==> SwitchesLast(base, Front(switches)))
  }

  /** The callback closes a synthesised frame. */
  predicate ClosesFrame(l: Lines, line: u32) {
    Transition(l.previous, line) && l.depth > 0
  }

  /** With `base` frames open, the callback keeps one open throughout. */
  predicate CallbackKeepsOpen(base: int, l: Lines, o: Observation) {
    && SwitchesLast(base, o.switches)
    && (ClosesFrame(l, o.at.line) ==> base + NetSwitches(o.switches) >= 2)
  }

  lemma OpenAfter(base: int, rs: seq<Request>)
    requires base >= 1 && KeepsOpen(base, rs)
    ensures base + Depth(rs) >= 1
  {
  }

  lemma {:induction false} SwitchesKeepOpen(cfg: Config, base: int, switches: seq<Switch>)
    requires base >= 1
    ensures KeepsOpen(base, SwitchRequests(cfg, switches)) <==> SwitchesLast(base, switches)
  {
    if switches != [] {
      var before, r := SwitchRequests(cfg, Front(switches)), SwitchRequest(cfg, Last(switches));
      assert SwitchRequests(cfg, switches) == before + [r];
      SwitchesKeepOpen(cfg, base, Front(switches));
      DepthOfSwitches(cfg, Front(switches));
      KeepsOpenAppend(base, before, [r]);
      KeepsOpenOne(base + Depth(before), r);
    }
  }

  lemma {:induction false} FlatKeepsOpen(base: int, rs: seq<Request>)
    requires base >= 1 && forall r :: r in rs ==> Delta(r) == 0
    ensures KeepsOpen(base, rs) && Depth(rs) == 0
  {
    if rs != [] {
      FlatKeepsOpen(base, Front(rs));
    }
  }

  /** Closing the synthesised frame must not close the last one. */
  lemma FramesKeepOpen(cfg: Config, base: int, l: Lines, at: Position)
    requires base >= 1
    ensures KeepsOpen(base, FrameRequests(cfg, l, at)) <==> (ClosesFrame(l, at.line) ==> base >= 2)
  {
    var call := Request.Call(Synthesised(CalleeName(cfg, l.seen)), at);
    if Transition(l.previous, at.line) {
      var closing := if l.depth > 0 then [Request.Return] else [];
      KeepsOpenAppend(base, closing, [call]);
      KeepsOpenOne(base, Request.Return);
      KeepsOpenOne(base + Depth(closing), call);
    }
  }

  lemma RestKeepsOpen(cfg: Config, base: int, l: Lines, o: Observation)
    requires base >= 1 && EventsOnly(o)
    ensures KeepsOpen(base, o.events + StepRequest(l, o.at) + Assigns(o.variables) + FrameRequests(cfg, l, o.at))
            <==> (ClosesFrame(l, o.at.line) ==> base >= 2)
  {
    var flat := o.events + StepRequest(l, o.at) + Assigns(o.variables);
    FlatKeepsOpen(base, flat);
    KeepsOpenAppend(base, flat, FrameRequests(cfg, l, o.at));
    FramesKeepOpen(cfg, base, l, o.at);
  }

  lemma EmitKeepsOpen(cfg: Config, base: int, l: Lines, o: Observation)
    requires base >= 1 && EventsOnly(o)
    ensures KeepsOpen(base, Emit(cfg, l, o)) <==> CallbackKeepsOpen(base, l, o)
  {
    var switches := SwitchRequests(cfg, o.switches);
    var rest := o.events + StepRequest(l, o.at) + Assigns(o.variables) + FrameRequests(cfg, l, o.at);
    Regroup5(switches, o.events, StepRequest(l, o.at), Assigns(o.variables), FrameRequests(cfg, l, o.at));
    Regroup3(switches, o.events + StepRequest(l, o.at) + Assigns(o.variables), FrameRequests(cfg, l, o.at));
    SwitchesKeepOpen(cfg, base, o.switches);
    DepthOfSwitches(cfg, o.switches);
    KeepsOpenAppend(base, switches, rest);
    if KeepsOpen(base, switches) {
      OpenAfter(base, switches);
      RestKeepsOpen(cfg, base + Depth(switches), l, o);
    }
  }

  // ----- all callbacks

  predicate CallbacksKeepOpen(obs: seq<Observation>) {
    obs != [] ==>
      CallbacksKeepOpen(Front(obs)) && CallbackKeepsOpen(FramesOpen(Front(obs)), LinesAfter(Front(obs)), Last(obs))
  }

  lemma LogHasStart(cfg: Config, obs: seq<Observation>)
    ensures Requests(cfg, obs) != []
  {
  }

  lemma StaysOpenAppend(log: seq<Request>, more: seq<Request>)
    requires log != []
    ensures StaysOpen(log + more) <==> StaysOpen(log) && KeepsOpen(Depth(log), more)
    ensures StaysOpen(log) ==> Depth(log) >= 1
  {
    StaysOpenKeeps(log);
    StaysOpenKeeps(log + more);
    KeepsOpenAppend(0, log, more);
  }

  lemma {:induction false} RequestsKeepOpen(cfg: Config, obs: seq<Observation>)
    requires AllEventsOnly(obs)
    ensures StaysOpen(Requests(cfg, obs)) <==> CallbacksKeepOpen(obs)
  {
    if obs == [] {
      StaysOpenKeeps(Requests(cfg, obs));
      KeepsOpenOne(0, Start(Position(cfg.path, 1)));
    } else {
      var front, l, o := Front(obs), LinesAfter(Front(obs)), Last(obs);
      RequestsKeepOpen(cfg, front);
      LogHasStart(cfg, front);
      FramesOpenIsDepth(cfg, front);
      StaysOpenAppend(Requests(cfg, front), Emit(cfg, l, o));
      if StaysOpen(Requests(cfg, front)) {
        EmitKeepsOpen(cfg, FramesOpen(front), l, o);
      }
    }
  }

  // ----- whole recordings

  lemma {:induction false} ReturnsKeepOpen(base: int, n: nat)
    requires base >= 1
    ensures KeepsOpen(base, Returns(n)) <==> base - n >= 1
    ensures Depth(Returns(n)) == -(n as int)
  {
    if n > 0 {
      assert Front(Returns(n)) == Returns(n - 1);
      ReturnsKeepOpen(base, n - 1);
    }
  }

  /** A log and what the end writes after it, but for the top-level return. */
  function Unfinished(cfg: Config, obs: seq<Observation>, tail: seq<Request>, result: seq<Request>): seq<Request> {
    Requests(cfg, obs) + (tail + (Returns(LinesAfter(obs).depth) + result))
  }

  function ResultRequests(cfg: Config, final: seq<Receipt>): seq<Request> {
    if cfg.predicateMode then [Assign(PredicateResult(final))] else []
  }

  lemma BeforeLast(log: seq<Request>, tail: seq<Request>, closing: seq<Request>, result: seq<Request>)
    ensures var all := log + (tail + (closing + result + [Request.Return]));
            all != [] && Front(all) == log + (tail + (closing + result))
  {
  }

  lemma ClosingKeepsOpen(base: int, tail: seq<Request>, n: nat, result: seq<Request>)
    requires base >= 1 && (forall r :: r in tail ==> Delta(r) == 0) && forall r :: r in result ==> Delta(r) == 0
    ensures KeepsOpen(base, tail + (Returns(n) + result)) <==> base - n >= 1
  {
    FlatKeepsOpen(base, tail);
    KeepsOpenAppend(base, tail, Returns(n) + result);
    ReturnsKeepOpen(base, n);
    KeepsOpenAppend(base, Returns(n), result);
    if base - n >= 1 {
      FlatKeepsOpen(base - n, result);
    }
  }

  lemma AppendClosing(log: seq<Request>, tail: seq<Request>, n: nat, result: seq<Request>)
    requires log != []
    requires (forall r :: r in tail ==> Delta(r) == 0) && forall r :: r in result ==> Delta(r) == 0
    ensures StaysOpen(log + (tail + (Returns(n) + result))) <==> StaysOpen(log) && Depth(log) - n >= 1
  {
    StaysOpenAppend(log, tail + (Returns(n) + result));
    if StaysOpen(log) {
      ClosingKeepsOpen(Depth(log), tail, n, result);
    }
  }

  lemma UnfinishedStaysOpen(cfg: Config, obs: seq<Observation>, tail: seq<Request>, result: seq<Request>)
    requires AllEventsOnly(obs)
    requires (forall r :: r in tail ==> Delta(r) == 0) && forall r :: r in result ==> Delta(r) == 0
    ensures StaysOpen(Unfinished(cfg, obs, tail, result)) <==> CallbacksKeepOpen(obs) && Calls(obs) >= 0
  {
    RequestsKeepOpen(cfg, obs);
    FramesOpenIsDepth(cfg, obs);
    LogHasStart(cfg, obs);
    AppendClosing(Requests(cfg, obs), tail, LinesAfter(obs).depth, result);
  }

  lemma FinishedStaysOpen(cfg: Config, obs: seq<Observation>, tail: seq<Request>, result: seq<Request>, log: seq<Request>)
    requires AllEventsOnly(obs)
    requires (forall r :: r in tail ==> Delta(r) == 0) && forall r :: r in result ==> Delta(r) == 0
    requires log == Requests(cfg, obs) + (tail + (Returns(LinesAfter(obs).depth) + result + [Request.Return]))
    ensures log != [] && (StaysOpen(Front(log)) <==> CallbacksKeepOpen(obs) && Calls(obs) >= 0)
  {
    BeforeLast(Requests(cfg, obs), tail, Returns(LinesAfter(obs).depth), result);
    UnfinishedStaysOpen(cfg, obs, tail, result);
  }

  /** The log's depth, callback by callback. */
  lemma {:induction false} OpenUntilTheEnd(cfg: Config, steps: seq<StepState>, final: seq<Receipt>)
    requires |SeenAtEnd([], steps)| <= |final|
    ensures Recording(cfg, steps, final) != []
    ensures StaysOpen(Front(Recording(cfg, steps, final))) <==>
            CallbacksKeepOpen(Observations(cfg, steps)) && Calls(Observations(cfg, steps)) >= 0
  {
    ObservedEvents(cfg, steps);
    FinishedStaysOpen(cfg, Observations(cfg, steps), RouteTail(final[|SeenAtEnd([], steps)|..]),
                      ResultRequests(cfg, final), Recording(cfg, steps, final));
  }

  // ----- script mode

  lemma {:induction false} SwitchesLastAbove(base: int, stack: Stack, rs: seq<Receipt>)
    requires base >= |stack|
    ensures SwitchesLast(base, Switches(stack, rs))
  {
    SwitchesMatchStack(stack, rs);
    if rs != [] {
      var one := SwitchOf(AfterAll(stack, Front(rs)), Last(rs));
      SwitchesLastAbove(base, stack, Front(rs));
      assert one == [] ==> Switches(stack, rs) == Switches(stack, Front(rs));
      assert one != [] ==> Front(Switches(stack, rs)) == Switches(stack, Front(rs));
    }
  }

  lemma {:induction false} ScriptCallbacks(cfg: Config, steps: seq<StepState>)
    requires !cfg.predicateMode
    ensures CallbacksKeepOpen(Observations(cfg, steps))
  {
    if steps != [] {
      var t, rs := TrackersAfter(cfg, Front(steps)), NewReceipts(TrackersAfter(cfg, Front(steps)), Last(steps));
      ScriptCallbacks(cfg, Front(steps));
      CallsAreContexts(cfg, Front(steps));
      NextObserved(cfg, steps);
      SwitchesLastAbove(FramesOpen(Observations(cfg, Front(steps))), t.stack, rs);
      SwitchesMatchStack(t.stack, rs);
    }
  }

  /** In script mode this is always so: for every step stream and every receipt
      list, the top-level frame is closed by the very last request only. */
  lemma {:induction false} ScriptOpenUntilTheEnd(cfg: Config, steps: seq<StepState>, final: seq<Receipt>)
    requires |SeenAtEnd([], steps)| <= |final| && !cfg.predicateMode
    ensures Recording(cfg, steps, final) != []
    ensures StaysOpen(Front(Recording(cfg, steps, final)))
  {
    ScriptCallbacks(cfg, steps);
    CallsAreContexts(cfg, steps);
    OpenUntilTheEnd(cfg, steps, final);
  }

  // ----- predicate mode

  /** No gap was crossed before callback `k`. */
  predicate BeforeFirstGap(obs: seq<Observation>, k: nat)
    requires k <= |obs|
  {
    Gaps(LineSequence(obs[..k])) == []
  }

  /** Callback `k` leaves a frame open: until the first gap is crossed no receipt
      has popped the predicate's own context, and no later gap is crossed while
      that context is gone. */
  predicate ContextKeptAt(obs: seq<Observation>, steps: seq<StepState>, k: nat)
    requires k < |steps| == |obs|
  {
    if BeforeFirstGap(obs, k) then !Popped(steps[k].receipts)
    else OpensFrame(obs, k) ==> Height(steps[k].receipts) >= 2
  }

  /** ... at every callback, and the context is there at the end. */
  predicate ContextKept(obs: seq<Observation>, steps: seq<StepState>)
    requires |steps| == |obs|
  {
    && (forall k :: 0 <= k < |steps| ==> ContextKeptAt(obs, steps, k))
    && Height(SeenAtEnd([], steps)) >= 2
  }

  lemma {:induction false} HeightIsStack(rs: seq<Receipt>)
    ensures |AfterAll([SCRIPT, PREDICATE], rs)| == Height(rs)
  {
    PredicateStack(rs);
  }

  lemma LastSwitch(stack: Stack, rs: seq<Receipt>)
    requires rs != []
    ensures Switches(stack, rs) == Switches(stack, Front(rs))
            || (Switches(stack, rs) != [] && Front(Switches(stack, rs)) == Switches(stack, Front(rs)))
  {
  }

  /** Switches leave a frame open, and so did the ones before the last. */
  lemma SwitchesLastSplit(base: int, stack: Stack, rs: seq<Receipt>)
    requires rs != []
    ensures SwitchesLast(base, Switches(stack, rs)) <==>
            SwitchesLast(base, Switches(stack, Front(rs))) && base + |AfterAll(stack, rs)| - |stack| >= 1
  {
    LastSwitch(stack, rs);
    SwitchesMatchStack(stack, rs);
  }

  /** Without a synthesised frame, a callback's switches leave a frame open
      exactly while they leave the predicate's context. */
  lemma {:induction false} SwitchesLastUnpopped(seen: seq<Receipt>, more: seq<Receipt>)
    requires !Popped(seen)
    ensures var now := AfterAll([SCRIPT, PREDICATE], seen);
            SwitchesLast(|now| - 1, Switches(now, more)) <==> !Popped(seen + more)
  {
    HeightIsStack(seen);
    UnpoppedHeight(seen);
    if more == [] {
      assert seen + more == seen;
    } else {
      var now := AfterAll([SCRIPT, PREDICATE], seen);
      SwitchesLastUnpopped(seen, Front(more));
      SwitchesLastSplit(|now| - 1, now, more);
      AfterTwoParts([SCRIPT, PREDICATE], seen, more);
      HeightIsStack(seen + more);
      HeightAtLeastOne(seen + more);
      assert Front(seen + more) == seen + Front(more);
    }
  }

  lemma UnpoppedHeight(rs: seq<Receipt>)
    requires !Popped(rs)
    ensures Height(rs) >= 2
  {
    HeightAtLeastOne(rs);
  }

  lemma {:induction false} HeightAtLeastOne(rs: seq<Receipt>)
    ensures Height(rs) >= 1
  {
    if rs != [] {
      HeightAtLeastOne(Front(rs));
    }
  }

  /** One callback of a predicate recording with no synthesised frame open. */
  lemma CallbackWithoutFrame(l: Lines, o: Observation, seen: seq<Receipt>, more: seq<Receipt>)
    requires l.depth == 0 && !Popped(seen)
    requires o.switches == Switches(AfterAll([SCRIPT, PREDICATE], seen), more)
    ensures CallbackKeepsOpen(1 + (Height(seen) - 2), l, o) <==> !Popped(seen + more)
  {
    HeightIsStack(seen);
    SwitchesLastUnpopped(seen, more);
  }

  /** ... and with one open. */
  lemma CallbackWithFrame(l: Lines, o: Observation, seen: seq<Receipt>, more: seq<Receipt>)
    requires l.depth == 1 && o.switches == Switches(AfterAll([SCRIPT, PREDICATE], seen), more)
    ensures CallbackKeepsOpen(2 + (Height(seen) - 2), l, o) <==>
            (Transition(l.previous, o.at.line) ==> Height(seen + more) >= 2)
  {
    var now := AfterAll([SCRIPT, PREDICATE], seen);
    HeightIsStack(seen);
    HeightIsStack(seen + more);
    AfterTwoParts([SCRIPT, PREDICATE], seen, more);
    SwitchesMatchStack(now, more);
    SwitchesLastAbove(|now|, now, more);
  }

  /** The callbacks before the `n`-th. */
  predicate KeptUpTo(obs: seq<Observation>, steps: seq<StepState>, n: nat)
    requires n <= |steps| == |obs|
  {
    forall k :: 0 <= k < n ==> ContextKeptAt(obs, steps, k)
  }

  lemma KeptFront(obs: seq<Observation>, steps: seq<StepState>)
    requires |steps| == |obs| && steps != []
    ensures KeptUpTo(obs, steps, |steps|) <==>
            KeptUpTo(Front(obs), Front(steps), |steps| - 1) && ContextKeptAt(obs, steps, |steps| - 1)
  {
    var n := |steps| - 1;
    forall k | 0 <= k < n ensures ContextKeptAt(Front(obs), Front(steps), k) == ContextKeptAt(obs, steps, k) {
      assert Front(obs)[..k] == obs[..k];
    }
    if KeptUpTo(Front(obs), Front(steps), n) && ContextKeptAt(obs, steps, n) {
      forall k | 0 <= k < |steps| ensures ContextKeptAt(obs, steps, k) {
        assert k < n ==> ContextKeptAt(Front(obs), Front(steps), k);
      }
    }
  }

  lemma GapFreeBefore(obs: seq<Observation>)
    requires obs != [] && Gaps(LineSequence(obs)) == []
    ensures Gaps(LineSequence(Front(obs))) == []
  {
    assert Front(LineSequence(obs)) == LineSequence(Front(obs));
  }

  /** Up to the first gap, what was seen has not popped the context. */
  lemma KeptUnpopped(obs: seq<Observation>, steps: seq<StepState>)
    requires |steps| == |obs| && KeptUpTo(obs, steps, |steps|) && Gaps(LineSequence(obs)) == []
    ensures !Popped(SeenAtEnd([], steps))
  {
    if steps != [] {
      var k := |steps| - 1;
      GapFreeBefore(obs);
      assert obs[..k] == Front(obs);
      assert ContextKeptAt(obs, steps, k);
    }
  }

  lemma {:induction false} CallbacksOnReceipts(cfg: Config, steps: seq<StepState>)
    requires cfg.predicateMode && Growing([], steps)
    ensures CallbacksKeepOpen(Observations(cfg, steps)) <==> KeptUpTo(Observations(cfg, steps), steps, |steps|)
  {
    if steps != [] {
      var obs, front := Observations(cfg, steps), Front(steps);
      GrowingFront(steps);
      CallbacksOnReceipts(cfg, front);
      NextObserved(cfg, steps);
      KeptFront(obs, steps);
      SwitchesOfNext(cfg, steps);
      CallsOfSeen(cfg, front);
      if KeptUpTo(Front(obs), front, |front|) {
        NextOnReceipts(obs, steps);
      }
    }
  }

  /** The last callback's switches, and the calls open before it, are those of
      the receipts. */
  predicate FollowsReceipts(obs: seq<Observation>, steps: seq<StepState>)
    requires |steps| == |obs| && steps != []
  {
    var seen, now := SeenAtEnd([], Front(steps)), Last(steps).receipts;
    && seen <= now
    && Last(obs).switches == Switches(AfterAll([SCRIPT, PREDICATE], seen), now[|seen|..])
    && Calls(Front(obs)) == |AfterAll([SCRIPT, PREDICATE], seen)| - 2
  }

  predicate LastKeepsOpen(obs: seq<Observation>)
    requires obs != []
  {
    CallbackKeepsOpen(FramesOpen(Front(obs)), LinesAfter(Front(obs)), Last(obs))
  }

  lemma NextOnReceipts(obs: seq<Observation>, steps: seq<StepState>)
    requires |steps| == |obs| && steps != [] && KeptUpTo(Front(obs), Front(steps), |steps| - 1)
    requires FollowsReceipts(obs, steps)
    ensures LastKeepsOpen(obs) <==> ContextKeptAt(obs, steps, |steps| - 1)
  {
    assert obs[..|steps| - 1] == Front(obs);
    if Gaps(LineSequence(Front(obs))) == [] {
      KeptUnpopped(Front(obs), Front(steps));
      NextBeforeGap(obs, steps);
    } else {
      NextAfterGap(obs, steps);
    }
  }

  lemma NextBeforeGap(obs: seq<Observation>, steps: seq<StepState>)
    requires |steps| == |obs| && steps != [] && FollowsReceipts(obs, steps)
    requires Gaps(LineSequence(Front(obs))) == [] && !Popped(SeenAtEnd([], Front(steps)))
    ensures LastKeepsOpen(obs) <==> !Popped(Last(steps).receipts)
  {
    var seen, now := SeenAtEnd([], Front(steps)), Last(steps).receipts;
    assert now == seen + now[|seen|..];
    LinesCountGaps(Front(obs));
    HeightIsStack(seen);
    CallbackWithoutFrame(LinesAfter(Front(obs)), Last(obs), seen, now[|seen|..]);
  }

  lemma NextAfterGap(obs: seq<Observation>, steps: seq<StepState>)
    requires |steps| == |obs| && steps != [] && FollowsReceipts(obs, steps)
    requires Gaps(LineSequence(Front(obs))) != []
    ensures LastKeepsOpen(obs) <==> (OpensFrame(obs, |obs| - 1) ==> Height(Last(steps).receipts) >= 2)
  {
    var seen, now := SeenAtEnd([], Front(steps)), Last(steps).receipts;
    assert now == seen + now[|seen|..];
    LinesCountGaps(Front(obs));
    PreviousLine(Front(obs));
    HeightIsStack(seen);
    CallbackWithFrame(LinesAfter(Front(obs)), Last(obs), seen, now[|seen|..]);
  }

  lemma SwitchesOfNext(cfg: Config, steps: seq<StepState>)
    requires steps != [] && Growing([], steps)
    ensures var start, seen := InitialTrackers(cfg).stack, SeenAtEnd([], Front(steps));
            && seen <= Last(steps).receipts
            && Last(Observations(cfg, steps)).switches == Switches(AfterAll(start, seen), Last(steps).receipts[|seen|..])
  {
    GrowingFront(steps);
    StackFollowsReceipts(cfg, Front(steps));
    NextObserved(cfg, steps);
  }

  lemma CallsOfSeen(cfg: Config, steps: seq<StepState>)
    requires Growing([], steps)
    ensures var start := InitialTrackers(cfg).stack;
            Calls(Observations(cfg, steps)) == |AfterAll(start, SeenAtEnd([], steps))| - |start|
  {
    StackFollowsReceipts(cfg, steps);
    CallsAreContexts(cfg, steps);
  }

  /** A predicate recording has a frame open from its first request until its
      last one if and only if no return seen at a step pops the predicate's own
      context before the first line gap, no later gap is crossed while that
      context is gone, and it is there at the end. */
  lemma {:induction false} PredicateOpenUntilTheEnd(cfg: Config, steps: seq<StepState>, final: seq<Receipt>)
    requires Growing([], steps) && |SeenAtEnd([], steps)| <= |final| && cfg.predicateMode
    ensures Recording(cfg, steps, final) != []
    ensures StaysOpen(Front(Recording(cfg, steps, final))) <==> ContextKept(Observations(cfg, steps), steps)
  {
    OpenUntilTheEnd(cfg, steps, final);
    CallbacksOnReceipts(cfg, steps);
    CallsOfSeen(cfg, steps);
    HeightIsStack(SeenAtEnd([], steps));
  }

  // ----- what the machine guarantees

  lemma {:induction false} MatchedUnpopped(rs: seq<Receipt>)
    requires NeverBelow(rs)
    ensures !Popped(rs) && Height(rs) == 2 + Balance(rs) >= 2
  {
    if rs != [] {
      NeverBelowFront(rs);
      MatchedUnpopped(Front(rs));
    }
  }

  lemma {:induction false} NeverBelowPrefix(a: seq<Receipt>, b: seq<Receipt>)
    requires NeverBelow(b) && a <= b
    ensures NeverBelow(a)
  {
    forall i | 0 <= i <= |a| ensures Balance(a[..i]) >= 0 {
      assert b[..i] == a[..i];
    }
  }

  lemma {:induction false} SeenLater(steps: seq<StepState>, k: nat)
    requires k < |steps| && Growing([], steps)
    ensures steps[k].receipts <= SeenAtEnd([], steps)
  {
    if k < |steps| - 1 {
      GrowingFront(steps);
      SeenLater(Front(steps), k);
    }
  }

  /** Under the machine's guarantee that every return seen at a step ends a call
      seen before it, every recording, script or predicate, has a frame open from
      its first request until its last one. */
  lemma {:induction false} MatchedOpenUntilTheEnd(cfg: Config, steps: seq<StepState>, final: seq<Receipt>)
    requires Growing([], steps) && |SeenAtEnd([], steps)| <= |final|
    requires NeverBelow(SeenAtEnd([], steps))
    ensures Recording(cfg, steps, final) != []
    ensures StaysOpen(Front(Recording(cfg, steps, final)))
  {
    if cfg.predicateMode {
      PredicateOpenUntilTheEnd(cfg, steps, final);
      MatchedContext(Observations(cfg, steps), steps);
    } else {
      ScriptOpenUntilTheEnd(cfg, steps, final);
    }
  }

  lemma MatchedContext(obs: seq<Observation>, steps: seq<StepState>)
    requires |steps| == |obs| && Growing([], steps) && NeverBelow(SeenAtEnd([], steps))
    ensures ContextKept(obs, steps)
  {
    MatchedUnpopped(SeenAtEnd([], steps));
    forall k | 0 <= k < |steps| ensures ContextKeptAt(obs, steps, k) {
      SeenLater(steps, k);
      NeverBelowPrefix(steps[k].receipts, SeenAtEnd([], steps));
      MatchedUnpopped(steps[k].receipts);
    }
  }

  /** The guarantee is needed: a first step that saw a return, as no run shows
      one, would close the top-level frame. */
  lemma PredicateReturnClosesTopLevel(cfg: Config, s: StepState, ret: Receipt)
    requires cfg.predicateMode && s.receipts == [ret] && IsReturn(ret)
    ensures Recording(cfg, [s], [ret]) != []
    ensures !StaysOpen(Front(Recording(cfg, [s], [ret])))
  {
    var obs := Observations(cfg, [s]);
    assert [s][..0] == [] && obs[..0] == [] && Front([ret]) == [];
    PredicateOpenUntilTheEnd(cfg, [s], [ret]);
    assert Popped([ret]);
    assert !ContextKeptAt(obs, [s], 0);
  }
}
