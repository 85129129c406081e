/** What an instruction-level recording tells of payloads, storage accesses and
    contract calls. */
module RecordedEvents {
  import opened Prelude
  import opened Machine
  import opened ContractCalls
  import opened TraceLog
  import opened Decoders
  import opened Recorder
  import FunctionNames
  import Variables

  // ----- the payload decoded on a step

  predicate HasPayload(r: Receipt) {
    r.LogData? && r.data.Some? && r.data.value != []
  }

  predicate IsFirstPayload(rs: seq<Receipt>, i: nat)
    requires i < |rs|
  {
    HasPayload(rs[i]) && forall j :: 0 <= j < i ==> !HasPayload(rs[j])
  }

  lemma {:induction false} NoPayload(rs: seq<Receipt>)
    requires forall i :: 0 <= i < |rs| ==> !HasPayload(rs[i])
    ensures FirstPayload(rs) == None
  {
    if rs != [] {
      NoPayload(Front(rs));
    }
  }

  /** A step decodes the payload of the first of its new receipts that has one. */
  lemma {:induction false} PayloadIsFirst(rs: seq<Receipt>, i: nat)
    requires i < |rs| && IsFirstPayload(rs, i)
    ensures FirstPayload(rs) == rs[i].data
  {
    if i < |rs| - 1 {
      PayloadIsFirst(Front(rs), i);
    } else {
      NoPayload(Front(rs));
    }
  }

  /** What a step shows besides its registers: the decoded payload of the first
      of its new receipts that has one, and nothing if none has. */
  lemma {:induction false} PayloadShown(cfg: Config, t: Trackers, s: StepState)
    ensures var rs, registers := NewReceipts(t, s), RegisterVariables(Advance(t, s).names, s.registers);
            && (forall i :: 0 <= i < |rs| && IsFirstPayload(rs, i) ==>
                  Observe(cfg, t, s).variables == registers + PayloadVariables(cfg.decoder, rs[i].data.value))
            && ((forall i :: 0 <= i < |rs| ==> !HasPayload(rs[i])) ==> Observe(cfg, t, s).variables == registers)
  {
    var rs, names := NewReceipts(t, s), Advance(t, s).names;
    forall i | 0 <= i < |rs| && IsFirstPayload(rs, i) ensures FirstPayload(rs) == rs[i].data {
      PayloadIsFirst(rs, i);
    }
    if forall i :: 0 <= i < |rs| ==> !HasPayload(rs[i]) {
      NoPayload(rs);
    }
    assert Observe(cfg, t, s).variables == StepVariables(cfg, names, s, rs);
    assert RegisterVariables(names, s.registers) + [] == RegisterVariables(names, s.registers);
  }

  /** The registers a step shows: r16 to r23, each under its name and as the
      signed number its content stands for. */
  lemma {:induction false} RegistersShown(t: Variables.Names, registers: Registers, k: nat)
    requires k < 8
    ensures var v := RegisterVariables(t, registers)[k];
            && v.name == Variables.RegisterName(t, 16 + k)
            && ShowsWord(v.value, registers[16 + k])
            && (registers[16 + k] < 0x8000_0000_0000_0000 ==> v.value.i == registers[16 + k])
  {
    ShownSigned(registers[16 + k]);
  }

  /** A value logged under the declared output type reaches the step: its first
      payload is shown raw, and by a variable of that type's name standing for
      the value. */
  lemma {:induction false} LoggedValueReachesStep(
      cfg: Config, t: Trackers, s: StepState, i: nat, before: string, text: string, after: string, x: Logged)
    requires i < |NewReceipts(t, s)| && IsFirstPayload(NewReceipts(t, s), i)
    requires NewReceipts(t, s)[i].data == Some(Encode(x))
    requires FunctionNames.Spaces(before) && FunctionNames.Spaces(after) && Declares(text, x)
    requires cfg.decoder == DecoderFor(Some(before + (text + after)))
    ensures Variable(ShownName(x), Represent(x)) in Observe(cfg, t, s).variables
    ensures RawShown(PayloadVariables(cfg.decoder, Encode(x)), Encode(x))
    ensures Observe(cfg, t, s).variables ==
            RegisterVariables(Advance(t, s).names, s.registers) + PayloadVariables(cfg.decoder, Encode(x))
  {
    var p := Encode(x);
    RawPayloadShown(cfg.decoder, p);
    LoggedValueShown(before, text, after, x);
    ShownAfterRegisters(cfg, t, s, i, p, Variable(ShownName(x), Represent(x)));
  }

  lemma {:induction false} ShownAfterRegisters(cfg: Config, t: Trackers, s: StepState, i: nat, p: seq<byte>, v: Variable)
    requires i < |NewReceipts(t, s)| && IsFirstPayload(NewReceipts(t, s), i) && NewReceipts(t, s)[i].data == Some(p)
    requires p != [] && v in PayloadVariables(cfg.decoder, p)
    ensures v in Observe(cfg, t, s).variables
    ensures Observe(cfg, t, s).variables ==
            RegisterVariables(Advance(t, s).names, s.registers) + PayloadVariables(cfg.decoder, p)
  {
    PayloadShown(cfg, t, s);
  }

  // ----- storage accesses

  predicate IsStorage(r: Request) {
    r.Storage?
  }

  predicate AccessesStorage(s: StepState) {
    s.instruction.Some? && (s.instruction.value.SRW? || s.instruction.value.SWW?)
  }

  /** The event tells the access: its kind, the key register and its content,
      and what a write stores. */
  predicate TellsAccess(r: Request, s: StepState) {
    && AccessesStorage(s) && r.Storage?
    && (r.write <==> s.instruction.value.SWW?)
    && r.keyReg == s.instruction.value.key && r.key == s.registers[s.instruction.value.key]
    && (r.write ==> r.value == s.registers[s.instruction.value.value])
  }

  predicate TellAccesses(rs: seq<Request>, steps: seq<StepState>) {
    |rs| == |steps| && forall i :: 0 <= i < |rs| ==> TellsAccess(rs[i], steps[i])
  }

  lemma StorageOfStep(s: StepState)
    ensures StorageEvents(s) == [] <==> !AccessesStorage(s)
    ensures AccessesStorage(s) ==> |StorageEvents(s)| == 1 && TellsAccess(StorageEvents(s)[0], s)
  {
  }

  lemma {:induction false} OnlySecond(p: Request -> bool, a: seq<Request>, b: seq<Request>, c: seq<Request>, d: seq<Request>, e: seq<Request>)
    requires forall r :: r in a || r in c || r in d || r in e ==> !p(r)
    ensures Filter(p, a + b + c + d + e) == Filter(p, b)
  {
    FilterAppend(p, a + b + c + d, e);
    FilterAppend(p, a + b + c, d);
    FilterAppend(p, a + b, c);
    FilterAppend(p, a, b);
    FilterNone(p, a);
    FilterNone(p, c);
    FilterNone(p, d);
    FilterNone(p, e);
  }

  lemma {:induction false} StorageOfEmit(cfg: Config, l: Lines, o: Observation)
    ensures Filter(IsStorage, Emit(cfg, l, o)) == Filter(IsStorage, o.events)
  {
    OnlySecond(IsStorage, SwitchRequests(cfg, o.switches), o.events, StepRequest(l, o.at), Assigns(o.variables),
               FrameRequests(cfg, l, o.at));
  }

  lemma {:induction false} StorageObserved(cfg: Config, t: Trackers, s: StepState)
    ensures Filter(IsStorage, Observe(cfg, t, s).events) == StorageEvents(s)
  {
    var routed, accesses := RouteAll(NewReceipts(t, s)), StorageEvents(s);
    FilterAppend(IsStorage, routed, accesses);
    FilterNone(IsStorage, routed);
    FilterAll(IsStorage, accesses);
  }

  /** The log of one more step, filtered. */
  lemma {:induction false} FilterNext(p: Request -> bool, cfg: Config, steps: seq<StepState>)
    requires steps != []
    ensures var before := Observations(cfg, Front(steps));
            Filter(p, Requests(cfg, Observations(cfg, steps))) == Filter(p, Requests(cfg, before))
              + Filter(p, Emit(cfg, LinesAfter(before), Observe(cfg, TrackersAfter(cfg, Front(steps)), Last(steps))))
  {
    var before := Observations(cfg, Front(steps));
    ObservationsFront(cfg, steps);
    FilterAppend(p, Requests(cfg, before),
                 Emit(cfg, LinesAfter(before), Observe(cfg, TrackersAfter(cfg, Front(steps)), Last(steps))));
  }

  function Accesses(steps: seq<StepState>): seq<Request> {
    if steps == [] then [] else Accesses(Front(steps)) + StorageEvents(Last(steps))
  }

  lemma {:induction false} AccessesTell(steps: seq<StepState>)
    ensures TellAccesses(Accesses(steps), Filter(AccessesStorage, steps))
  {
    if steps != [] {
      AccessesTell(Front(steps));
      StorageOfStep(Last(steps));
    }
  }

  lemma {:induction false} LoggedAccesses(cfg: Config, steps: seq<StepState>)
    ensures Filter(IsStorage, Requests(cfg, Observations(cfg, steps))) == Accesses(steps)
  {
    if steps == [] {
      FilterNone(IsStorage, Requests(cfg, []));
    } else {
      var l, t := LinesAfter(Observations(cfg, Front(steps))), TrackersAfter(cfg, Front(steps));
      LoggedAccesses(cfg, Front(steps));
      FilterNext(IsStorage, cfg, steps);
      StorageOfEmit(cfg, l, Observe(cfg, t, Last(steps)));
      StorageObserved(cfg, t, Last(steps));
    }
  }

  /** Nothing `p` selects follows the last callback. */
  lemma {:induction false} FilterWhole(p: Request -> bool, cfg: Config, steps: seq<StepState>, final: seq<Receipt>)
    requires |SeenAtEnd([], steps)| <= |final| && forall r: Request :: r.Event? || r.Assign? || r.Return? ==> !p(r)
    ensures Filter(p, Recording(cfg, steps, final)) == Filter(p, Requests(cfg, Observations(cfg, steps)))
  {
    var obs := Observations(cfg, steps);
    FilterBeforeEnd(p, Requests(cfg, obs), Closing(cfg, LinesAfter(obs), |SeenAtEnd([], steps)|, final));
  }

  lemma {:induction false} FilterBeforeEnd(p: Request -> bool, log: seq<Request>, closing: seq<Request>)
    requires forall r :: r in closing ==> !p(r)
    ensures Filter(p, log + closing) == Filter(p, log)
  {
    FilterAppend(p, log, closing);
    FilterNone(p, closing);
  }

  /** The storage events of a recording: one for each executed instruction that
      reads or writes storage, in order, telling that access. */
  lemma {:induction false} RecordedAccesses(cfg: Config, steps: seq<StepState>, final: seq<Receipt>)
    requires |SeenAtEnd([], steps)| <= |final|
    ensures TellAccesses(Filter(IsStorage, Recording(cfg, steps, final)), Filter(AccessesStorage, steps))
  {
    LoggedAccesses(cfg, steps);
    AccessesTell(steps);
    FilterWhole(IsStorage, cfg, steps, final);
  }

  // ----- the order within a callback

  /** A callback's requests: contract switches, receipts, a storage access, a
      step, its values and synthesised frames, each ending where the next starts. */
  predicate InStages(rs: seq<Request>, a: nat, b: nat, c: nat, d: nat, e: nat) {
    && a <= b <= c <= d <= e <= |rs|
    && (forall k :: 0 <= k < a ==> rs[k].Call? || rs[k].Return?)
    && (forall k :: a <= k < b ==> rs[k].Event?)
    && (forall k :: b <= k < c ==> rs[k].Storage?)
    && (forall k :: c <= k < d ==> rs[k].Step?)
    && (forall k :: d <= k < e ==> rs[k].Assign?)
    && (forall k :: e <= k < |rs| ==> rs[k].Call? || rs[k].Return?)
  }

  /** Every callback makes its requests in this order. */
  lemma {:induction false} CallbackInOrder(cfg: Config, steps: seq<StepState>)
    requires steps != []
    ensures exists emitted: seq<Request>, a: nat, b: nat, c: nat, d: nat, e: nat ::
              && InStages(emitted, a, b, c, d, e)
              && Requests(cfg, Observations(cfg, steps)) == Requests(cfg, Observations(cfg, Front(steps))) + emitted
  {
    var t, s, l := TrackersAfter(cfg, Front(steps)), Last(steps), LinesAfter(Observations(cfg, Front(steps)));
    ObservationsFront(cfg, steps);
    StagesOfCallback(cfg, t, s, l);
  }

  lemma {:induction false} StagesOfCallback(cfg: Config, t: Trackers, s: StepState, l: Lines)
    ensures exists a: nat, b: nat, c: nat, d: nat, e: nat :: InStages(Emit(cfg, l, Observe(cfg, t, s)), a, b, c, d, e)
  {
    var o, rs := Observe(cfg, t, s), NewReceipts(t, s);
    Stages(SwitchRequests(cfg, o.switches), RouteAll(rs), StorageEvents(s), StepRequest(l, o.at),
           Assigns(o.variables), FrameRequests(cfg, l, o.at));
    assert Emit(cfg, l, o) == SwitchRequests(cfg, o.switches) + RouteAll(rs) + StorageEvents(s) + StepRequest(l, o.at)
                              + Assigns(o.variables) + FrameRequests(cfg, l, o.at) by {
      assert o.events == RouteAll(rs) + StorageEvents(s);
      Regroup3(SwitchRequests(cfg, o.switches), RouteAll(rs), StorageEvents(s));
    }
  }

  lemma Stages(switches: seq<Request>, events: seq<Request>, access: seq<Request>, step: seq<Request>,
               values: seq<Request>, frames: seq<Request>)
    requires forall r :: r in switches ==> r.Call? || r.Return?
    requires forall r :: r in events ==> r.Event?
    requires forall r :: r in access ==> r.Storage?
    requires forall r :: r in step ==> r.Step?
    requires forall r :: r in values ==> r.Assign?
    requires forall r :: r in frames ==> r.Call? || r.Return?
    ensures exists a: nat, b: nat, c: nat, d: nat, e: nat :: InStages(switches + events + access + step + values + frames, a, b, c, d, e)
  {
    var a := |switches|;
    var b := a + |events|;
    var c := b + |access|;
    var d := c + |step|;
    var e := d + |values|;
    assert InStages(switches + events + access + step + values + frames, a, b, c, d, e);
  }

  /** A recording ends with the receipts left, then nothing but returns, except
      for a result right before the last one. */
  lemma {:induction false} EndInOrder(cfg: Config, steps: seq<StepState>, final: seq<Receipt>)
    requires |SeenAtEnd([], steps)| <= |final|
    ensures exists closing: seq<Request>, a: nat ::
              && EventsThenRest(closing, a) && a < |closing|
              && Recording(cfg, steps, final) == Requests(cfg, Observations(cfg, steps)) + closing
              && Last(closing).Return?
              && forall k :: a <= k < |closing| - 2 ==> closing[k].Return?
  {
    var obs := Observations(cfg, steps);
    var drained, rest := RouteTail(final[|SeenAtEnd([], steps)|..]), ClosingRest(cfg, LinesAfter(obs), final);
    EventsPut(drained, rest);
    RestIsReturns(cfg, LinesAfter(obs), final);
    assert Last(drained + rest) == Last(rest);
  }

  lemma RestIsReturns(cfg: Config, l: Lines, final: seq<Receipt>)
    ensures var rest := ClosingRest(cfg, l, final);
            rest != [] && Last(rest).Return? && forall k :: 0 <= k < |rest| - 2 ==> rest[k].Return?
  {
  }

  // ----- contract calls

  predicate IsContractCall(r: Request) {
    r.Call? && r.callee.OfContract?
  }

  predicate IsCallReceipt(r: Receipt) {
    r.Call?
  }

  /** The frame is named after the contract that is called, at line 1. */
  predicate NamesCallee(path: Path, r: Request, receipt: Receipt) {
    receipt.Call? && r == Request.Call(OfContract(receipt.to), Position(path, 1))
  }

  predicate NameCallees(path: Path, rs: seq<Request>, receipts: seq<Receipt>) {
    |rs| == |receipts| && forall i :: 0 <= i < |rs| ==> NamesCallee(path, rs[i], receipts[i])
  }

  lemma NameCalleesAppend(path: Path, a: seq<Request>, b: seq<Request>, x: seq<Receipt>, y: seq<Receipt>)
    requires NameCallees(path, a, x) && NameCallees(path, b, y)
    ensures NameCallees(path, a + b, x + y)
  {
  }

  lemma CallOfReceipt(cfg: Config, stack: Stack, r: Receipt)
    ensures NameCallees(cfg.path, Filter(IsContractCall, SwitchRequests(cfg, SwitchOf(stack, r))), Filter(IsCallReceipt, [r]))
  {
    var one := SwitchOf(stack, r);
    assert Front([r]) == [];
    if one != [] {
      assert SwitchRequests(cfg, one) == [SwitchRequest(cfg, one[0])];
      assert Front(SwitchRequests(cfg, one)) == [];
    }
  }

  lemma NextSwitches(cfg: Config, stack: Stack, rs: seq<Receipt>)
    requires rs != []
    ensures SwitchRequests(cfg, Switches(stack, rs)) ==
            SwitchRequests(cfg, Switches(stack, Front(rs)))
            + SwitchRequests(cfg, SwitchOf(AfterAll(stack, Front(rs)), Last(rs)))
  {
  }

  lemma {:induction false} CallsOfReceipts(cfg: Config, stack: Stack, rs: seq<Receipt>)
    ensures NameCallees(cfg.path, Filter(IsContractCall, SwitchRequests(cfg, Switches(stack, rs))), Filter(IsCallReceipt, rs))
  {
    if rs != [] {
      var before := SwitchRequests(cfg, Switches(stack, Front(rs)));
      var one := SwitchRequests(cfg, SwitchOf(AfterAll(stack, Front(rs)), Last(rs)));
      CallsOfReceipts(cfg, stack, Front(rs));
      CallOfReceipt(cfg, AfterAll(stack, Front(rs)), Last(rs));
      NextSwitches(cfg, stack, rs);
      FilterAppend(IsContractCall, before, one);
      FilterAppend(IsCallReceipt, Front(rs), [Last(rs)]);
      assert rs == Front(rs) + [Last(rs)];
      NameCalleesAppend(cfg.path, Filter(IsContractCall, before), Filter(IsContractCall, one),
                        Filter(IsCallReceipt, Front(rs)), Filter(IsCallReceipt, [Last(rs)]));
    }
  }

  lemma {:induction false} OnlyFirst(p: Request -> bool, a: seq<Request>, b: seq<Request>, c: seq<Request>, d: seq<Request>, e: seq<Request>)
    requires forall r :: r in b || r in c || r in d || r in e ==> !p(r)
    ensures Filter(p, a + b + c + d + e) == Filter(p, a)
  {
    FilterAppend(p, a + b + c + d, e);
    FilterAppend(p, a + b + c, d);
    FilterAppend(p, a + b, c);
    FilterAppend(p, a, b);
    FilterNone(p, b);
    FilterNone(p, c);
    FilterNone(p, d);
    FilterNone(p, e);
  }

  lemma {:induction false} CallsOfEmit(cfg: Config, l: Lines, o: Observation)
    requires EventsOnly(o)
    ensures Filter(IsContractCall, Emit(cfg, l, o)) == Filter(IsContractCall, SwitchRequests(cfg, o.switches))
  {
    OnlyFirst(IsContractCall, SwitchRequests(cfg, o.switches), o.events, StepRequest(l, o.at), Assigns(o.variables),
              FrameRequests(cfg, l, o.at));
  }

  lemma ObservedSwitches(cfg: Config, t: Trackers, s: StepState)
    ensures EventsOnly(Observe(cfg, t, s)) && Observe(cfg, t, s).switches == Switches(t.stack, NewReceipts(t, s))
  {
    EventsFlat(NewReceipts(t, s), s);
  }

  /** The contract calls the receipts ask for. */
  function Asked(cfg: Config, rs: seq<Receipt>): seq<Request> {
    Filter(IsContractCall, SwitchRequests(cfg, Switches(InitialTrackers(cfg).stack, rs)))
  }

  lemma {:induction false} AskedMore(cfg: Config, seen: seq<Receipt>, more: seq<Receipt>)
    ensures Asked(cfg, seen + more) == Asked(cfg, seen)
              + Filter(IsContractCall, SwitchRequests(cfg, Switches(AfterAll(InitialTrackers(cfg).stack, seen), more)))
  {
    var start := InitialTrackers(cfg).stack;
    InTwoParts(start, seen, more);
    CallsOfTwo(cfg, Switches(start, seen), Switches(AfterAll(start, seen), more));
  }

  lemma {:induction false} CallsOfTwo(cfg: Config, a: seq<Switch>, b: seq<Switch>)
    ensures Filter(IsContractCall, SwitchRequests(cfg, a + b)) ==
            Filter(IsContractCall, SwitchRequests(cfg, a)) + Filter(IsContractCall, SwitchRequests(cfg, b))
  {
    assert SwitchRequests(cfg, a + b) == SwitchRequests(cfg, a) + SwitchRequests(cfg, b);
    FilterAppend(IsContractCall, SwitchRequests(cfg, a), SwitchRequests(cfg, b));
  }

  lemma {:induction false} CallsOfNext(cfg: Config, steps: seq<StepState>)
    requires steps != [] && Growing([], steps)
    ensures var t, l := TrackersAfter(cfg, Front(steps)), LinesAfter(Observations(cfg, Front(steps)));
            var seen, now := SeenAtEnd([], Front(steps)), Last(steps).receipts;
            && seen <= now
            && Filter(IsContractCall, Emit(cfg, l, Observe(cfg, t, Last(steps)))) ==
                 Filter(IsContractCall, SwitchRequests(cfg, Switches(AfterAll(InitialTrackers(cfg).stack, seen), now[|seen|..])))
  {
    var t, l := TrackersAfter(cfg, Front(steps)), LinesAfter(Observations(cfg, Front(steps)));
    GrowingFront(steps);
    StackFollowsReceipts(cfg, Front(steps));
    ObservedSwitches(cfg, t, Last(steps));
    CallsOfEmit(cfg, l, Observe(cfg, t, Last(steps)));
  }

  /** The contract calls in the log are those the receipts ask for. */
  predicate CallsAsAsked(cfg: Config, log: seq<Request>, rs: seq<Receipt>) {
    Filter(IsContractCall, log) == Asked(cfg, rs)
  }

  lemma {:induction false} NothingAsked(cfg: Config)
    ensures CallsAsAsked(cfg, Requests(cfg, []), [])
  {
    FilterNone(IsContractCall, Requests(cfg, []));
    assert SwitchRequests(cfg, []) == [];
  }

  lemma {:induction false} AskedNext(cfg: Config, log: seq<Request>, emitted: seq<Request>, seen: seq<Receipt>, now: seq<Receipt>)
    requires CallsAsAsked(cfg, log, seen) && seen <= now
    requires Filter(IsContractCall, emitted) ==
             Filter(IsContractCall, SwitchRequests(cfg, Switches(AfterAll(InitialTrackers(cfg).stack, seen), now[|seen|..])))
    ensures CallsAsAsked(cfg, log + emitted, now)
  {
    assert now == seen + now[|seen|..];
    FilterAppend(IsContractCall, log, emitted);
    AskedMore(cfg, seen, now[|seen|..]);
  }

  lemma {:induction false} LoggedCalls(cfg: Config, steps: seq<StepState>)
    requires Growing([], steps)
    ensures CallsAsAsked(cfg, Requests(cfg, Observations(cfg, steps)), SeenAtEnd([], steps))
  {
    if steps == [] {
      NothingAsked(cfg);
    } else {
      var before, t := Observations(cfg, Front(steps)), TrackersAfter(cfg, Front(steps));
      GrowingFront(steps);
      LoggedCalls(cfg, Front(steps));
      CallsOfNext(cfg, steps);
      ObservationsFront(cfg, steps);
      AskedNext(cfg, Requests(cfg, before), Emit(cfg, LinesAfter(before), Observe(cfg, t, Last(steps))),
                SeenAtEnd([], Front(steps)), Last(steps).receipts);
    }
  }

  /** The contract frames of a recording: one for each call receipt seen at a
      step, in order, named after the contract called. */
  lemma {:induction false} RecordedContractCalls(cfg: Config, steps: seq<StepState>, final: seq<Receipt>)
    requires Growing([], steps) && |SeenAtEnd([], steps)| <= |final|
    ensures NameCallees(cfg.path, Filter(IsContractCall, Recording(cfg, steps, final)),
                        Filter(IsCallReceipt, SeenAtEnd([], steps)))
  {
    LoggedCalls(cfg, steps);
    CallsOfReceipts(cfg, InitialTrackers(cfg).stack, SeenAtEnd([], steps));
    FilterWhole(IsContractCall, cfg, steps, final);
  }
}
