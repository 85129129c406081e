/** The instruction-level recorder: what one single-step callback observes, the
    requests it makes, and the frames it keeps open. */
module Recorder {
  import opened Prelude
  import opened Machine
  import opened TraceLog
  import opened ContractCalls
  import opened Decoders
  import AbiDecoder
  import Variables

  // ----- configuration

  /** A larger line gap between consecutive steps is a function transition. */
  const LINE_GAP: nat := 5

  /** What a recording is set up with; no contract has a source map of its own. */
  datatype Config = Config(
    lines: LineMap,
    path: Path,
    params: seq<string>,
    decoder: Decoder,
    overrides: seq<string>,
    predicateMode: bool)

  /** The ABI supplies the parameter names and selects the payload decoder. */
  function SetUp(lines: LineMap, path: Path, abi: Option<seq<AbiDecoder.AbiFunction>>, overrides: seq<string>,
                 predicateMode: bool): Config {
    var functions := if abi.Some? then abi.value else [];
    Config(lines, path, ParameterNames(AbiDecoder.FunctionParams(functions, "main")),
           DecoderFor(AbiDecoder.FunctionOutputType(functions, "main")), overrides, predicateMode)
  }

  function ParameterNames(params: seq<AbiDecoder.AbiParam>): seq<string> {
    seq(|params|, i requires 0 <= i < |params| => params[i].name)
  }

  /** A recording takes its parameter names and its decoder from the first
      function called `main`. */
  lemma SetUpByMain(lines: LineMap, path: Path, functions: seq<AbiDecoder.AbiFunction>, overrides: seq<string>,
                    predicateMode: bool, i: nat)
    requires i < |functions| && AbiDecoder.IsFirstNamed(functions, "main", i)
    ensures var cfg, main := SetUp(lines, path, Some(functions), overrides, predicateMode), functions[i];
            && |cfg.params| == |main.inputs|
            && (forall k :: 0 <= k < |main.inputs| ==> cfg.params[k] == main.inputs[k].name)
            && cfg.decoder == DecoderFor(if main.output.Some? then Some(main.output.value.typeName) else None)
    ensures var cfg := SetUp(lines, path, Some(functions), overrides, predicateMode);
            cfg.lines == lines && cfg.path == path && cfg.overrides == overrides && cfg.predicateMode == predicateMode
  {
    AbiDecoder.FindsFirstNamed(functions, "main", i);
  }

  /** Without an ABI, or a `main` in it, there are neither. */
  lemma SetUpWithoutMain(lines: LineMap, path: Path, abi: Option<seq<AbiDecoder.AbiFunction>>, overrides: seq<string>,
                         predicateMode: bool)
    requires abi.Some? ==> forall i :: 0 <= i < |abi.value| ==> abi.value[i].name != "main"
    ensures var cfg := SetUp(lines, path, abi, overrides, predicateMode); cfg.params == [] && cfg.decoder == Plain
  {
    if abi.Some? {
      AbiDecoder.FindsNone(abi.value, "main");
    }
  }

  function SyntheticName(index: nat): string {
    if index == 0 then "outer"
    else if index == 1 then "middle"
    else if index == 2 then "inner"
    else "fn_" + Decimal(index + 1)
  }

  function CalleeName(cfg: Config, index: nat): string {
    if index < |cfg.overrides| then cfg.overrides[index] else SyntheticName(index)
  }

  /** Synthesised functions take the given names while there are any, then
      `outer`, `middle`, `inner`, `fn_4`, `fn_5` and so on, by their number. */
  lemma NamesByNumber(cfg: Config, k: nat)
    ensures k < |cfg.overrides| ==> CalleeName(cfg, k) == cfg.overrides[k]
    ensures k >= |cfg.overrides| ==>
              CalleeName(cfg, k) == if k < 3 then ["outer", "middle", "inner"][k] else "fn_" + Decimal(k + 1)
  {
  }

  /** The default names are pairwise distinct. */
  lemma SyntheticNamesDistinct(j: nat, k: nat)
    requires SyntheticName(j) == SyntheticName(k)
    ensures j == k
  {
    assert j >= 3 ==> SyntheticName(j)[0] == 'f' && SyntheticName(j)[3..] == Decimal(j + 1);
    assert k >= 3 ==> SyntheticName(k)[0] == 'f' && SyntheticName(k)[3..] == Decimal(k + 1);
    if j >= 3 && k >= 3 {
      DecimalInjective(j + 1, k + 1);
    }
  }

  // ----- what a step observes

  /** What a callback finds out before it decides about lines and frames. */
  datatype Observation = Observation(
    switches: seq<Switch>,
    events: seq<Request>,
    at: Position,
    variables: seq<Variable>)

  /** The payload remembered after one more receipt: the first non-empty one stays. */
  function NextPayload(payload: Option<seq<byte>>, r: Receipt): Option<seq<byte>> {
    if payload.None? && r.LogData? && r.data.Some? && r.data.value != [] then r.data else payload
  }

  /** The first non-empty LOGD payload among the new receipts. */
  function FirstPayload(rs: seq<Receipt>): Option<seq<byte>> {
    if rs == [] then None else NextPayload(FirstPayload(Front(rs)), Last(rs))
  }

  function StorageEvents(s: StepState): seq<Request> {
    match s.instruction
    case Some(SRW(_, _, key)) => [Storage(false, key, s.registers[key], 0)]
    case Some(SWW(key, _, value)) => [Storage(true, key, s.registers[key], s.registers[value])]
    case _ => []
  }

  /** r16 to r23 under their current names. */
  function RegisterVariables(t: Variables.Names, registers: Registers): (vs: seq<Variable>)
    ensures |vs| == 8
  {
    seq(8, k requires 0 <= k < 8 => Variable(Variables.RegisterName(t, 16 + k), U64Value(registers[16 + k])))
  }

  function StepVariables(cfg: Config, t: Variables.Names, s: StepState, newReceipts: seq<Receipt>): (vs: seq<Variable>)
    ensures |vs| >= 8
  {
    var payload := FirstPayload(newReceipts);
    RegisterVariables(t, s.registers)
    + if payload.Some? && payload.value != [] then PayloadVariables(cfg.decoder, payload.value) else []
  }

  /** The trackers between steps. */
  datatype Trackers = Trackers(stack: Stack, names: Variables.Names, receipts: nat)

  function InitialTrackers(cfg: Config): Trackers {
    Trackers(if cfg.predicateMode then [SCRIPT, PREDICATE] else [SCRIPT], Variables.Names(map[], cfg.params, 0), 0)
  }

  function NewReceipts(t: Trackers, s: StepState): seq<Receipt> {
    if t.receipts <= |s.receipts| then s.receipts[t.receipts..] else []
  }

  function Advance(t: Trackers, s: StepState): Trackers {
    Trackers(AfterAll(t.stack, NewReceipts(t, s)), Variables.Track(t.names, s.instruction), |s.receipts|)
  }

  function Observe(cfg: Config, t: Trackers, s: StepState): Observation {
    var rs := NewReceipts(t, s);
    var (path, line) := Locate(None, cfg.lines, cfg.path, OpcodeIndex(s));
    Observation(Switches(t.stack, rs), RouteAll(rs) + StorageEvents(s), Position(path, line),
                StepVariables(cfg, Advance(t, s).names, s, rs))
  }

  function TrackersAfter(cfg: Config, steps: seq<StepState>): Trackers {
    if steps == [] then InitialTrackers(cfg) else Advance(TrackersAfter(cfg, Front(steps)), Last(steps))
  }

  function Observations(cfg: Config, steps: seq<StepState>): (obs: seq<Observation>)
    ensures |obs| == |steps|
  {
    if steps == [] then []
    else Observations(cfg, Front(steps)) + [Observe(cfg, TrackersAfter(cfg, Front(steps)), Last(steps))]
  }

  /** Where the source map puts a step: every step uses the default map. */
  function PlaceOf(cfg: Config, s: StepState): Position {
    var (path, line) := Locate(None, cfg.lines, cfg.path, OpcodeIndex(s));
    Position(path, line)
  }

  function Places(cfg: Config, steps: seq<StepState>): (places: seq<Position>)
    ensures |places| == |steps| && forall i :: 0 <= i < |steps| ==> places[i] == PlaceOf(cfg, steps[i])
  {
    if steps == [] then [] else Places(cfg, Front(steps)) + [PlaceOf(cfg, Last(steps))]
  }

  function Positions(obs: seq<Observation>): (positions: seq<Position>)
    ensures |positions| == |obs| && forall i :: 0 <= i < |obs| ==> positions[i] == obs[i].at
  {
    seq(|obs|, i requires 0 <= i < |obs| => obs[i].at)
  }

  lemma NextPosition(obs: seq<Observation>, o: Observation)
    ensures Positions(obs + [o]) == Positions(obs) + [o.at]
  {
  }

  lemma PlaceOfObserve(cfg: Config, t: Trackers, s: StepState)
    ensures Observe(cfg, t, s).at == PlaceOf(cfg, s)
  {
  }

  lemma {:induction false} PlacesOfObservations(cfg: Config, steps: seq<StepState>)
    ensures Positions(Observations(cfg, steps)) == Places(cfg, steps)
  {
    if steps != [] {
      var t := TrackersAfter(cfg, Front(steps));
      PlacesOfObservations(cfg, Front(steps));
      PlaceOfObserve(cfg, t, Last(steps));
      NextPosition(Observations(cfg, Front(steps)), Observe(cfg, t, Last(steps)));
    }
  }

  lemma PlaceOfObservation(cfg: Config, steps: seq<StepState>, i: nat)
    requires i < |steps|
    ensures Observations(cfg, steps)[i].at == PlaceOf(cfg, steps[i])
  {
    PlacesOfObservations(cfg, steps);
    assert Positions(Observations(cfg, steps))[i] == Places(cfg, steps)[i];
  }

  lemma SecondEntry(cfg: Config, s: StepState)
    requires |cfg.lines| == 2 && cfg.lines[0].0 == 0 && cfg.lines[1].0 == 1 && s.pc == 4
    ensures PlaceOf(cfg, s) == Position(cfg.lines[1].1, cfg.lines[1].2)
  {
    assert Find(cfg.lines[1..], 1) == Some((cfg.lines[1].1, cfg.lines[1].2));
  }

  lemma ObservationsFront(cfg: Config, steps: seq<StepState>)
    requires steps != []
    ensures Front(Observations(cfg, steps)) == Observations(cfg, Front(steps))
  {
  }

  /** What the first callbacks observe does not depend on the later steps. */
  lemma {:induction false} ObservationsPrefix(cfg: Config, steps: seq<StepState>, n: nat)
    requires n <= |steps|
    ensures Observations(cfg, steps)[..n] == Observations(cfg, steps[..n])
  {
    var obs := Observations(cfg, steps);
    if n == |steps| {
      assert steps[..n] == steps && obs[..n] == obs;
    } else {
      ObservationsPrefix(cfg, Front(steps), n);
      ObservationsFront(cfg, steps);
      PrefixOfFront(steps, n);
      PrefixOfFront(obs, n);
    }
  }

  // ----- lines and synthesised frames

  /** The previous line, the synthesised frames open, and those opened so far. */
  datatype Lines = Lines(previous: Option<u32>, depth: nat, seen: nat)

  /** Before the first step, line 1 is the baseline. */
  predicate Transition(previous: Option<u32>, line: u32) {
    var baseline: int := if previous.Some? then previous.value else 1;
    previous != Some(line) && (line - baseline > LINE_GAP || baseline - line > LINE_GAP)
  }

  function NextLines(l: Lines, line: u32): Lines {
    if Transition(l.previous, line) then
      Lines(Some(line), (if l.depth > 0 then l.depth - 1 else 0) + 1, l.seen + 1)
    else Lines(Some(line), l.depth, l.seen)
  }

  function LinesAfter(obs: seq<Observation>): Lines {
    if obs == [] then Lines(None, 0, 0) else NextLines(LinesAfter(Front(obs)), Last(obs).at.line)
  }

  /** The `i`-th instruction opens a synthesised frame. */
  predicate OpensFrame(obs: seq<Observation>, i: nat)
    requires i < |obs|
  {
    Transition(if i == 0 then None else Some(obs[i - 1].at.line), obs[i].at.line)
  }

  lemma PreviousLine(obs: seq<Observation>)
    ensures LinesAfter(obs).previous == if obs == [] then None else Some(Last(obs).at.line)
  {
  }

  // ----- requests

  function SwitchRequest(cfg: Config, s: Switch): Request {
    match s
    case Enter(_, to, _) => Request.Call(OfContract(to), Position(cfg.path, 1))
    case Exit(_, _, _) => Request.Return
  }

  function SwitchRequests(cfg: Config, switches: seq<Switch>): (rs: seq<Request>)
    ensures |rs| == |switches|
  {
    seq(|switches|, i requires 0 <= i < |switches| => SwitchRequest(cfg, switches[i]))
  }

  function Assigns(vs: seq<Variable>): (rs: seq<Request>)
    ensures |rs| == |vs|
  {
    seq(|vs|, i requires 0 <= i < |vs| => Assign(vs[i]))
  }

  function StepRequest(l: Lines, at: Position): seq<Request> {
    if l.previous != Some(at.line) then [Step(at)] else []
  }

  /** The closing and opening of synthesised frames at a transition. */
  function FrameRequests(cfg: Config, l: Lines, at: Position): seq<Request> {
    if !Transition(l.previous, at.line) then []
    else (if l.depth > 0 then [Request.Return] else [])
         + [Request.Call(Synthesised(CalleeName(cfg, l.seen)), at)]
  }

  /** Switches and events, then the step with its values. */
  function Staging(cfg: Config, l: Lines, o: Observation): seq<Request> {
    SwitchRequests(cfg, o.switches) + o.events + StepRequest(l, o.at) + Assigns(o.variables)
  }

  /** One callback's requests; the synthesised frames come last. */
  function Emit(cfg: Config, l: Lines, o: Observation): seq<Request> {
    Staging(cfg, l, o) + FrameRequests(cfg, l, o.at)
  }

  function Requests(cfg: Config, obs: seq<Observation>): seq<Request> {
    if obs == [] then [Start(Position(cfg.path, 1))]
    else Requests(cfg, Front(obs)) + Emit(cfg, LinesAfter(Front(obs)), Last(obs))
  }

  /** The first `Return` receipt's value. */
  function ReturnValue(rs: seq<Receipt>): u64 {
    if rs == [] then 0 else if rs[0].Return? then rs[0].val else ReturnValue(rs[1..])
  }

  function PredicateResult(final: seq<Receipt>): Variable {
    Variable("predicate_result", Bool(ReturnValue(final) != 0))
  }

  /** What follows the last callback: the receipts not seen yet, the returns of
      the synthesised frames still open, in predicate mode the result, and the
      top-level return. */
  function Closing(cfg: Config, l: Lines, seen: nat, final: seq<Receipt>): (rs: seq<Request>)
    requires seen <= |final|
    ensures forall r :: r in rs ==> !r.Call?
  {
    RouteTail(final[seen..]) + ClosingRest(cfg, l, final)
  }

  function ClosingRest(cfg: Config, l: Lines, final: seq<Receipt>): (rs: seq<Request>)
    ensures forall r :: r in rs ==> !r.Event? && !r.Call?
  {
    Returns(l.depth) + (if cfg.predicateMode then [Assign(PredicateResult(final))] else []) + [Request.Return]
  }

  /** The whole recording. */
  function Recording(cfg: Config, steps: seq<StepState>, final: seq<Receipt>): seq<Request>
    requires |SeenAtEnd([], steps)| <= |final|
  {
    var obs := Observations(cfg, steps);
    Requests(cfg, obs) + Closing(cfg, LinesAfter(obs), |SeenAtEnd([], steps)|, final)
  }

  // ----- conservation of frames

  function DepthOf(s: Switch): int {
    if s.Enter? then 1 else -1
  }

  function NetSwitches(switches: seq<Switch>): int {
    if switches == [] then 0 else NetSwitches(Front(switches)) + DepthOf(Last(switches))
  }

  lemma {:induction false} NetSwitchesAppend(a: seq<Switch>, b: seq<Switch>)
    ensures NetSwitches(a + b) == NetSwitches(a) + NetSwitches(b)
  {
    if b == [] {
      assert a + b == a;
    } else {
      NetSwitchesAppend(a, Front(b));
      assert Front(a + b) == a + Front(b) && Last(a + b) == Last(b);
    }
  }

  /** The net number of frames the switches open is the stack's growth. */
  lemma {:induction false} SwitchesMatchStack(stack: Stack, rs: seq<Receipt>)
    ensures NetSwitches(Switches(stack, rs)) == |AfterAll(stack, rs)| - |stack|
  {
    if rs != [] {
      SwitchesMatchStack(stack, Front(rs));
      var one := SwitchOf(AfterAll(stack, Front(rs)), Last(rs));
      NetSwitchesAppend(Switches(stack, Front(rs)), one);
      assert one != [] ==> Front(one) == [];
    }
  }

  lemma {:induction false} DepthOfSwitches(cfg: Config, switches: seq<Switch>)
    ensures Depth(SwitchRequests(cfg, switches)) == NetSwitches(switches)
  {
    if switches != [] {
      DepthOfSwitches(cfg, Front(switches));
      assert Front(SwitchRequests(cfg, switches)) == SwitchRequests(cfg, Front(switches));
    }
  }

  lemma {:induction false} DepthOfFlat(rs: seq<Request>)
    requires forall r :: r in rs ==> Delta(r) == 0
    ensures Depth(rs) == 0
  {
    if rs != [] {
      DepthOfFlat(Front(rs));
    }
  }

  lemma DepthOfFrames(cfg: Config, l: Lines, at: Position)
    ensures Depth(FrameRequests(cfg, l, at)) == NextLines(l, at.line).depth - l.depth
  {
    var rs := FrameRequests(cfg, l, at);
    if Transition(l.previous, at.line) {
      assert Front(rs) == if l.depth > 0 then [Request.Return] else [];
      assert Front([Request.Return]) == [];
    }
  }

  lemma EventsFlat(rs: seq<Receipt>, s: StepState)
    ensures forall r :: r in RouteAll(rs) + StorageEvents(s) ==> r.Event? || r.Storage?
  {
  }

  predicate EventsOnly(o: Observation) {
    forall r :: r in o.events ==> r.Event? || r.Storage?
  }

  /** A callback changes the log's depth by its switches and its synthesised frames. */
  lemma DepthOfEmit(cfg: Config, l: Lines, o: Observation)
    requires EventsOnly(o)
    ensures Depth(Emit(cfg, l, o)) == NetSwitches(o.switches) + NextLines(l, o.at.line).depth - l.depth
  {
    var a, b, c, d := SwitchRequests(cfg, o.switches), o.events, StepRequest(l, o.at), Assigns(o.variables);
    var e := FrameRequests(cfg, l, o.at);
    DepthAppend(a + b + c + d, e);
    DepthAppend(a + b + c, d);
    DepthAppend(a + b, c);
    DepthAppend(a, b);
    DepthOfSwitches(cfg, o.switches);
    DepthOfFlat(b);
    DepthOfFlat(c);
    DepthOfFlat(d);
    DepthOfFrames(cfg, l, o.at);
  }

  /** At every point of every recording, the frames open in the log are the
      top-level one, the synthesised ones, and the contract calls the tracker
      has entered beyond its starting depth. */
  lemma {:induction false} FramesConserved(cfg: Config, steps: seq<StepState>)
    ensures var obs := Observations(cfg, steps);
            Depth(Requests(cfg, obs)) ==
              1 + LinesAfter(obs).depth + |TrackersAfter(cfg, steps).stack| - |InitialTrackers(cfg).stack|
  {
    var obs := Observations(cfg, steps);
    if steps == [] {
      assert Front(Requests(cfg, [])) == [];
    } else {
      FramesConserved(cfg, Front(steps));
      var t, s := TrackersAfter(cfg, Front(steps)), Last(steps);
      assert Front(obs) == Observations(cfg, Front(steps)) && Last(obs) == Observe(cfg, t, s);
      EventsFlat(NewReceipts(t, s), s);
      DepthOfEmit(cfg, LinesAfter(Front(obs)), Last(obs));
      DepthAppend(Requests(cfg, Front(obs)), Emit(cfg, LinesAfter(Front(obs)), Last(obs)));
      SwitchesMatchStack(t.stack, NewReceipts(t, s));
    }
  }

  lemma DepthOfClosing(cfg: Config, l: Lines, seen: nat, final: seq<Receipt>)
    requires seen <= |final|
    ensures Depth(Closing(cfg, l, seen, final)) == -(l.depth as int) - 1
  {
    var a, b := RouteTail(final[seen..]), Returns(l.depth);
    var c := if cfg.predicateMode then [Assign(PredicateResult(final))] else [];
    DepthAppend(a, ClosingRest(cfg, l, final));
    DepthAppend(b + c, [Request.Return]);
    DepthAppend(b, c);
    DepthOfFlat(a);
    DepthOfReturns(l.depth);
    DepthOfFlat(c);
    assert Front([Request.Return]) == [];
  }

  /** A finished recording leaves as many frames open as the tracker's stack is
      higher than at its start: none if and only if the stack is back at its
      starting height. */
  lemma {:induction false} OpenAfterRecording(cfg: Config, steps: seq<StepState>, final: seq<Receipt>)
    requires |SeenAtEnd([], steps)| <= |final|
    ensures Depth(Recording(cfg, steps, final)) ==
            |TrackersAfter(cfg, steps).stack| - |InitialTrackers(cfg).stack|
  {
    var obs := Observations(cfg, steps);
    FramesConserved(cfg, steps);
    DepthOfClosing(cfg, LinesAfter(obs), |SeenAtEnd([], steps)|, final);
    DepthAppend(Requests(cfg, obs), Closing(cfg, LinesAfter(obs), |SeenAtEnd([], steps)|, final));
  }

  /** The trackers have seen the whole list of the last step. */
  lemma {:induction false} StackFollowsReceipts(cfg: Config, steps: seq<StepState>)
    requires Growing([], steps)
    ensures TrackersAfter(cfg, steps).receipts == |SeenAtEnd([], steps)|
    ensures TrackersAfter(cfg, steps).stack == AfterAll(InitialTrackers(cfg).stack, SeenAtEnd([], steps))
  {
    if steps != [] {
      GrowingFront(steps);
      StackFollowsReceipts(cfg, Front(steps));
      var seen, now := SeenAtEnd([], Front(steps)), Last(steps).receipts;
      assert now == seen + now[|seen|..];
      InTwoParts(InitialTrackers(cfg).stack, seen, now[|seen|..]);
    }
  }

  /** When calls and returns match, as many frames are closed as opened. */
  lemma {:induction false} MatchedReceiptsCloseEverything(cfg: Config, steps: seq<StepState>, final: seq<Receipt>)
    requires Growing([], steps) && |SeenAtEnd([], steps)| <= |final|
    requires Balanced(SeenAtEnd([], steps))
    ensures Depth(Recording(cfg, steps, final)) == 0
  {
    OpenAfterRecording(cfg, steps, final);
    StackFollowsReceipts(cfg, steps);
    BalancedRestores(InitialTrackers(cfg).stack, SeenAtEnd([], steps));
  }

  // ----- the synthesised calls

  /** The steps at which the line jumps by more than the gap; line 1 precedes
      the first step. */
  function Gaps(lines: seq<u32>): seq<nat> {
    if lines == [] then []
    else
      var before: int := if |lines| == 1 then 1 else lines[|lines| - 2];
      var last: int := Last(lines);
      if last - before > 5 || before - last > 5 then Gaps(Front(lines)) + [|lines| - 1]
      else Gaps(Front(lines))
  }

  function LineSequence(obs: seq<Observation>): (ls: seq<u32>)
    ensures |ls| == |obs|
  {
    seq(|obs|, i requires 0 <= i < |obs| => obs[i].at.line)
  }

  lemma {:induction false} LinesCountGaps(obs: seq<Observation>)
    ensures LinesAfter(obs) == Lines(if obs == [] then None else Some(Last(obs).at.line),
                                     if Gaps(LineSequence(obs)) == [] then 0 else 1,
                                     |Gaps(LineSequence(obs))|)
  {
    if obs != [] {
      LinesCountGaps(Front(obs));
      assert Front(LineSequence(obs)) == LineSequence(Front(obs));
    }
  }

  predicate IsSynthetic(r: Request) {
    r.Call? && r.callee.Synthesised?
  }

  /** The call of the `k`-th gap, at the step `g` that crosses it. */
  function GapCall(cfg: Config, obs: seq<Observation>, k: nat, g: nat): Request
    requires g < |obs|
  {
    Request.Call(Synthesised(CalleeName(cfg, k)), obs[g].at)
  }

  lemma {:induction false} GapsInRange(lines: seq<u32>)
    ensures forall k :: 0 <= k < |Gaps(lines)| ==> Gaps(lines)[k] < |lines|
  {
    if lines != [] {
      GapsInRange(Front(lines));
    }
  }

  function GapCalls(cfg: Config, obs: seq<Observation>): (rs: seq<Request>)
    ensures |rs| == |Gaps(LineSequence(obs))|
  {
    GapsInRange(LineSequence(obs));
    var gaps := Gaps(LineSequence(obs));
    seq(|gaps|, k requires 0 <= k < |gaps| && gaps[k] < |obs| => GapCall(cfg, obs, k, gaps[k]))
  }

  lemma GapCallsGrow(cfg: Config, obs: seq<Observation>)
    requires obs != []
    ensures var l := LinesAfter(Front(obs));
            GapCalls(cfg, obs) == GapCalls(cfg, Front(obs)) +
              if Transition(l.previous, Last(obs).at.line)
              then [Request.Call(Synthesised(CalleeName(cfg, l.seen)), Last(obs).at)] else []
  {
    LinesCountGaps(Front(obs));
    assert Front(LineSequence(obs)) == LineSequence(Front(obs));
    GapsInRange(LineSequence(Front(obs)));
  }

  lemma StagingKinds(cfg: Config, l: Lines, o: Observation)
    requires EventsOnly(o)
    ensures forall r :: r in Staging(cfg, l, o) ==> !IsSynthetic(r) && !r.Start?
    ensures o.switches == [] ==> forall r :: r in Staging(cfg, l, o) ==> !r.Call? && !r.Return?
  {
  }

  lemma SyntheticPart(cfg: Config, l: Lines, o: Observation)
    requires EventsOnly(o)
    ensures Filter(IsSynthetic, Emit(cfg, l, o)) == Filter(IsSynthetic, FrameRequests(cfg, l, o.at))
  {
    StagingKinds(cfg, l, o);
    FilterAppend(IsSynthetic, Staging(cfg, l, o), FrameRequests(cfg, l, o.at));
    FilterNone(IsSynthetic, Staging(cfg, l, o));
  }

  lemma SyntheticOfFrames(cfg: Config, l: Lines, at: Position)
    ensures Filter(IsSynthetic, FrameRequests(cfg, l, at)) ==
            if Transition(l.previous, at.line)
            then [Request.Call(Synthesised(CalleeName(cfg, l.seen)), at)] else []
  {
    var call := Request.Call(Synthesised(CalleeName(cfg, l.seen)), at);
    FilterAppend(IsSynthetic, if l.depth > 0 then [Request.Return] else [], [call]);
    FilterNone(IsSynthetic, [Request.Return]);
    FilterAll(IsSynthetic, [call]);
  }

  predicate AllEventsOnly(obs: seq<Observation>) {
    forall i :: 0 <= i < |obs| ==> EventsOnly(obs[i])
  }

  /** In every recording the synthesised calls are one per gap, in order, each
      under the next name and at the step that crosses the gap. */
  lemma {:induction false} SyntheticCallsAreGaps(cfg: Config, obs: seq<Observation>)
    requires AllEventsOnly(obs)
    ensures Filter(IsSynthetic, Requests(cfg, obs)) == GapCalls(cfg, obs)
  {
    if obs == [] {
      FilterNone(IsSynthetic, Requests(cfg, obs));
    } else {
      var l, o := LinesAfter(Front(obs)), Last(obs);
      SyntheticCallsAreGaps(cfg, Front(obs));
      FilterAppend(IsSynthetic, Requests(cfg, Front(obs)), Emit(cfg, l, o));
      SyntheticPart(cfg, l, o);
      SyntheticOfFrames(cfg, l, o.at);
      GapCallsGrow(cfg, obs);
    }
  }

  lemma {:induction false} ObservedEvents(cfg: Config, steps: seq<StepState>)
    ensures AllEventsOnly(Observations(cfg, steps))
  {
    if steps != [] {
      ObservedEvents(cfg, Front(steps));
      EventsFlat(NewReceipts(TrackersAfter(cfg, Front(steps)), Last(steps)), Last(steps));
    }
  }

  /** The synthesised calls of a whole recording, contract switches or not. */
  lemma {:induction false} RecordedSyntheticCalls(cfg: Config, steps: seq<StepState>, final: seq<Receipt>)
    requires |SeenAtEnd([], steps)| <= |final|
    ensures Filter(IsSynthetic, Recording(cfg, steps, final)) == GapCalls(cfg, Observations(cfg, steps))
  {
    var obs := Observations(cfg, steps);
    var closing := Closing(cfg, LinesAfter(obs), |SeenAtEnd([], steps)|, final);
    ObservedEvents(cfg, steps);
    SyntheticCallsAreGaps(cfg, obs);
    FilterAppend(IsSynthetic, Requests(cfg, obs), closing);
    FilterNone(IsSynthetic, closing);
  }

  // ----- receipts

  /** The requests of a callback after its receipt events. */
  function EmitRest(cfg: Config, l: Lines, o: Observation, s: StepState): (rs: seq<Request>)
    ensures forall r :: r in rs ==> !r.Event?
  {
    StorageEvents(s) + StepRequest(l, o.at) + Assigns(o.variables) + FrameRequests(cfg, l, o.at)
  }

  lemma EmittedReceipts(cfg: Config, t: Trackers, s: StepState, l: Lines)
    ensures Filter(IsReceiptEvent, Emit(cfg, l, Observe(cfg, t, s))) == RouteAll(NewReceipts(t, s))
  {
    var o := Observe(cfg, t, s);
    var switches, routed, rest := SwitchRequests(cfg, o.switches), RouteAll(NewReceipts(t, s)), EmitRest(cfg, l, o, s);
    Regroup6(switches, routed, StorageEvents(s), StepRequest(l, o.at), Assigns(o.variables), FrameRequests(cfg, l, o.at));
    FilterMiddle(IsReceiptEvent, switches, routed, rest);
    FilterNone(IsReceiptEvent, switches);
  }

  lemma {:induction false} LoggedReceipts(cfg: Config, steps: seq<StepState>)
    requires Growing([], steps)
    ensures Filter(IsReceiptEvent, Requests(cfg, Observations(cfg, steps))) == RouteAll(SeenAtEnd([], steps))
  {
    if steps == [] {
      FilterNone(IsReceiptEvent, Requests(cfg, []));
    } else {
      GrowingFront(steps);
      LoggedReceipts(cfg, Front(steps));
      StackFollowsReceipts(cfg, Front(steps));
      LoggedNext(cfg, steps);
      RoutedNext(SeenAtEnd([], Front(steps)), Last(steps).receipts);
    }
  }

  lemma RoutedNext(seen: seq<Receipt>, now: seq<Receipt>)
    requires seen <= now
    ensures RouteAll(now) == RouteAll(seen) + RouteAll(now[|seen|..])
  {
    assert now == seen + now[|seen|..];
    RouteAllAppend(seen, now[|seen|..]);
  }

  lemma LoggedNext(cfg: Config, steps: seq<StepState>)
    requires steps != []
    ensures Filter(IsReceiptEvent, Requests(cfg, Observations(cfg, steps))) ==
            Filter(IsReceiptEvent, Requests(cfg, Observations(cfg, Front(steps))))
            + RouteAll(NewReceipts(TrackersAfter(cfg, Front(steps)), Last(steps)))
  {
    var obs, t := Observations(cfg, steps), TrackersAfter(cfg, Front(steps));
    var l := LinesAfter(Front(obs));
    assert Front(obs) == Observations(cfg, Front(steps)) && Last(obs) == Observe(cfg, t, Last(steps));
    EmittedReceipts(cfg, t, Last(steps), l);
    FilterAppend(IsReceiptEvent, Requests(cfg, Front(obs)), Emit(cfg, l, Last(obs)));
  }

  /** The receipt events of a whole recording. */
  lemma {:induction false} RecordedReceipts(cfg: Config, steps: seq<StepState>, final: seq<Receipt>)
    requires Growing([], steps) && SeenAtEnd([], steps) <= final
    ensures Filter(IsReceiptEvent, Recording(cfg, steps, final)) == Routed(SeenAtEnd([], steps), final)
  {
    var obs := Observations(cfg, steps);
    var l, seen := LinesAfter(obs), |SeenAtEnd([], steps)|;
    LoggedReceipts(cfg, steps);
    FilterMiddle(IsReceiptEvent, Requests(cfg, obs), RouteTail(final[seen..]), ClosingRest(cfg, l, final));
    Regroup3(Requests(cfg, obs), RouteTail(final[seen..]), ClosingRest(cfg, l, final));
  }

  /** Every effect of the run is recorded exactly once, in order and on its
      channel, and no other receipt is, if and only if no `ScriptResult` was
      present before the run ended. */
  lemma {:induction false} RecordedEffects(cfg: Config, steps: seq<StepState>, final: seq<Receipt>)
    requires Growing([], steps) && SeenAtEnd([], steps) <= final
    ensures ReceiptsOf(Recording(cfg, steps, final)) == Filter(IsEffect, final)
            <==> !HasScriptResult(SeenAtEnd([], steps))
    ensures OnTheirChannels(Recording(cfg, steps, final))
  {
    RecordedReceipts(cfg, steps, final);
    ReceiptsOfEvents(Recording(cfg, steps, final));
    RoutedOnce(SeenAtEnd([], steps), final);
  }

  /** Exactly the first `Return` receipt decides a predicate: its result is
      true if and only if there is one and it carries a non-zero value. */
  lemma {:induction false} FirstReturnDecides(final: seq<Receipt>)
    ensures PredicateResult(final).name == "predicate_result" && PredicateResult(final).value.Bool?
    ensures PredicateResult(final).value == Bool(true) <==>
            exists i :: 0 <= i < |final| && IsFirstReturn(final, i) && final[i].val != 0
  {
    if final != [] && !final[0].Return? {
      FirstReturnDecides(final[1..]);
      forall i | 0 < i < |final| ensures IsFirstReturn(final, i) <==> IsFirstReturn(final[1..], i - 1) {
        FirstReturnShifts(final, i);
      }
      if i :| 0 <= i < |final[1..]| && IsFirstReturn(final[1..], i) && final[1..][i].val != 0 {
        assert IsFirstReturn(final, i + 1);
      }
    } else if final != [] && final[0].val != 0 {
      assert IsFirstReturn(final, 0);
    }
  }

  predicate IsFirstReturn(rs: seq<Receipt>, i: nat)
    requires i < |rs|
  {
    rs[i].Return? && forall j :: 0 <= j < i ==> !rs[j].Return?
  }

  lemma FirstReturnShifts(rs: seq<Receipt>, i: nat)
    requires 0 < i < |rs| && !rs[0].Return?
    ensures IsFirstReturn(rs, i) <==> IsFirstReturn(rs[1..], i - 1)
  {
    if IsFirstReturn(rs[1..], i - 1) {
      forall j | 0 <= j < i ensures !rs[j].Return? {
        assert j > 0 ==> rs[j] == rs[1..][j - 1];
      }
    }
  }
}
