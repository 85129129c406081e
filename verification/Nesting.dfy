/** Whether every return of an instruction-level recording closes the frame it
    is meant for. */
module Nesting {
  import opened Prelude
  import opened Machine
  import opened ContractCalls
  import opened TraceLog
  import opened Recorder
  import opened Brackets
  import opened OpenFrames

  datatype FrameKind = TopLevel | ContractCall | SynthesisedCall

  /** A call or a return of a recording, with the kind of frame it is meant for. */
  datatype Mark = Opens(kind: FrameKind) | Closes(kind: FrameKind)

  function SwitchMark(s: Switch): Mark {
    if s.Enter? then Opens(ContractCall) else Closes(ContractCall)
  }

  function SwitchMarks(switches: seq<Switch>): (marks: seq<Mark>)
    ensures |marks| == |switches|
  {
    seq(|switches|, i requires 0 <= i < |switches| => SwitchMark(switches[i]))
  }

  function FrameMarks(l: Lines, line: u32): seq<Mark> {
    if !Transition(l.previous, line) then []
    else (if l.depth > 0 then [Closes(SynthesisedCall)] else []) + [Opens(SynthesisedCall)]
  }

  function Marks(obs: seq<Observation>): seq<Mark> {
    if obs == [] then [Opens(TopLevel)]
    else Marks(Front(obs)) + (SwitchMarks(Last(obs).switches) + FrameMarks(LinesAfter(Front(obs)), Last(obs).at.line))
  }

  function ClosingMarks(n: nat): seq<Mark> {
    seq(n, _ => Closes(SynthesisedCall)) + [Closes(TopLevel)]
  }

  /** The marks of a whole recording. */
  function AllMarks(obs: seq<Observation>): seq<Mark> {
    Marks(obs) + ClosingMarks(LinesAfter(obs).depth)
  }

  // ----- the marks are those of the log

  predicate Fits(m: Mark, r: Request) {
    match m
    case Closes(_) => r.Return?
    case Opens(TopLevel) => r.Start?
    case Opens(ContractCall) => r.Call? && r.callee.OfContract?
    case Opens(SynthesisedCall) => r.Call? && r.callee.Synthesised?
  }

  predicate Describe(marks: seq<Mark>, rs: seq<Request>) {
    |marks| == |rs| && forall i :: 0 <= i < |rs| ==> Fits(marks[i], rs[i])
  }

  lemma DescribeAppend(m: seq<Mark>, rs: seq<Request>, n: seq<Mark>, ss: seq<Request>)
    requires Describe(m, rs) && Describe(n, ss)
    ensures Describe(m + n, rs + ss)
  {
  }

  lemma DescribeSwitches(cfg: Config, switches: seq<Switch>)
    ensures Describe(SwitchMarks(switches), SwitchRequests(cfg, switches))
  {
  }

  lemma DescribeFrames(cfg: Config, l: Lines, at: Position)
    ensures Describe(FrameMarks(l, at.line), FrameRequests(cfg, l, at))
  {
  }

  lemma {:induction false} DescribeRequests(cfg: Config, obs: seq<Observation>)
    requires AllEventsOnly(obs)
    ensures Describe(Marks(obs), Filter(IsBracket, Requests(cfg, obs)))
  {
    if obs == [] {
      FilterAll(IsBracket, Requests(cfg, obs));
    } else {
      var front, l, o := Front(obs), LinesAfter(Front(obs)), Last(obs);
      var switches, frames := SwitchMarks(o.switches), FrameMarks(l, o.at.line);
      DescribeRequests(cfg, front);
      FilterAppend(IsBracket, Requests(cfg, front), Emit(cfg, l, o));
      BracketsOfEmit(cfg, l, o);
      DescribeSwitches(cfg, o.switches);
      DescribeFrames(cfg, l, o.at);
      DescribeAppend(switches, SwitchRequests(cfg, o.switches), frames, FrameRequests(cfg, l, o.at));
      DescribeAppend(Marks(front), Filter(IsBracket, Requests(cfg, front)), switches + frames,
                     SwitchRequests(cfg, o.switches) + FrameRequests(cfg, l, o.at));
    }
  }

  lemma DescribeClosing(n: nat)
    ensures Describe(ClosingMarks(n), Returns(n) + [Request.Return])
  {
  }

  /** The calls and returns of every recording are its marks, in order. */
  lemma {:induction false} RecordingDescribed(cfg: Config, steps: seq<StepState>, final: seq<Receipt>)
    requires |SeenAtEnd([], steps)| <= |final|
    ensures Describe(AllMarks(Observations(cfg, steps)), Filter(IsBracket, Recording(cfg, steps, final)))
  {
    ObservedEvents(cfg, steps);
    DescribeLog(cfg, Observations(cfg, steps), |SeenAtEnd([], steps)|, final);
  }

  lemma DescribeLog(cfg: Config, obs: seq<Observation>, seen: nat, final: seq<Receipt>)
    requires AllEventsOnly(obs) && seen <= |final|
    ensures Describe(AllMarks(obs), Filter(IsBracket, Requests(cfg, obs) + Closing(cfg, LinesAfter(obs), seen, final)))
  {
    var l := LinesAfter(obs);
    DescribeRequests(cfg, obs);
    FilterAppend(IsBracket, Requests(cfg, obs), Closing(cfg, l, seen, final));
    ClosingBrackets(cfg, l, seen, final);
    DescribeClosing(l.depth);
    DescribeAppend(Marks(obs), Filter(IsBracket, Requests(cfg, obs)),
                   ClosingMarks(l.depth), Returns(l.depth) + [Request.Return]);
  }

  // ----- nesting

  /** The kinds of the frames open, innermost last, unless some return met the
      end of a frame other than the one it is meant for. */
  function NestOne(open: Option<seq<FrameKind>>, m: Mark): Option<seq<FrameKind>> {
    match open
    case None => None
    case Some(kinds) =>
      match m
      case Opens(k) => Some(kinds + [k])
      case Closes(k) => if kinds != [] && Last(kinds) == k then Some(Front(kinds)) else None
  }

  function Nest(open: Option<seq<FrameKind>>, marks: seq<Mark>): Option<seq<FrameKind>> {
    if marks == [] then open else NestOne(Nest(open, Front(marks)), Last(marks))
  }

  lemma {:induction false} NestAppend(open: Option<seq<FrameKind>>, a: seq<Mark>, b: seq<Mark>)
    ensures Nest(open, a + b) == Nest(Nest(open, a), b)
  {
    if b == [] {
      assert a + b == a;
    } else {
      NestAppend(open, a, Front(b));
      assert Front(a + b) == a + Front(b);
    }
  }

  lemma NestSingle(open: Option<seq<FrameKind>>, m: Mark)
    ensures Nest(open, [m]) == NestOne(open, m)
  {
    assert Front([m]) == [];
  }

  /** Every return of the recording closes the frame it is meant for, and no
      frame stays open. */
  predicate EachClosesItsOwn(obs: seq<Observation>) {
    Nest(Some([]), AllMarks(obs)) == Some([])
  }

  // ----- the layout of the open frames

  /** Contract frames, then the synthesised frame if there is one, then more
      contract frames, all inside the top-level frame. */
  datatype Layout = Broken | Layout(outer: nat, synthesised: bool, inner: nat)

  predicate Sound(l: Layout) {
    l.Broken? || l.synthesised || l.outer == 0
  }

  function Contracts(n: nat): (kinds: seq<FrameKind>)
    ensures |kinds| == n && forall i :: 0 <= i < n ==> kinds[i] == ContractCall
  {
    seq(n, _ => ContractCall)
  }

  function Below(l: Layout): seq<FrameKind>
    requires l.Layout?
  {
    [TopLevel] + Contracts(l.outer) + if l.synthesised then [SynthesisedCall] else []
  }

  function Shape(l: Layout): Option<seq<FrameKind>> {
    match l
    case Broken => None
    case Layout(_, _, inner) => Some(Below(l) + Contracts(inner))
  }

  function MoveOne(l: Layout, s: Switch): Layout {
    if l.Broken? then Broken
    else if s.Enter? then l.(inner := l.inner + 1)
    else if l.inner > 0 then l.(inner := l.inner - 1)
    else Broken
  }

  function Move(l: Layout, switches: seq<Switch>): Layout {
    if switches == [] then l else MoveOne(Move(l, Front(switches)), Last(switches))
  }

  /** A line gap: the open synthesised frame is closed, the next one opened. */
  function Cross(l: Layout): Layout {
    if l.Broken? then Broken
    else if !l.synthesised then Layout(l.inner, true, 0)
    else if l.inner == 0 then l
    else Broken
  }

  function LayoutOf(obs: seq<Observation>): Layout {
    if obs == [] then Layout(0, false, 0)
    else
      var moved := Move(LayoutOf(Front(obs)), Last(obs).switches);
      if OpensFrame(obs, |obs| - 1) then Cross(moved) else moved
  }

  lemma LastContract(l: Layout)
    requires l.Layout?
    ensures Shape(l).value != []
    ensures l.inner > 0 ==> Last(Shape(l).value) == ContractCall
                            && Front(Shape(l).value) == Shape(l.(inner := l.inner - 1)).value
    ensures l.inner == 0 ==> Shape(l).value == Below(l)
    ensures Shape(l).value + [ContractCall] == Shape(l.(inner := l.inner + 1)).value
  {
  }

  lemma NestSwitch(l: Layout, s: Switch)
    requires Sound(l)
    ensures Sound(MoveOne(l, s)) && NestOne(Shape(l), SwitchMark(s)) == Shape(MoveOne(l, s))
  {
    if l.Layout? {
      LastContract(l);
    }
  }

  lemma {:induction false} NestSwitches(l: Layout, switches: seq<Switch>)
    requires Sound(l)
    ensures Sound(Move(l, switches)) && Nest(Shape(l), SwitchMarks(switches)) == Shape(Move(l, switches))
    ensures Move(l, switches).Layout? ==> l.Layout? && Move(l, switches).synthesised == l.synthesised
  {
    if switches != [] {
      NestSwitches(l, Front(switches));
      assert Front(SwitchMarks(switches)) == SwitchMarks(Front(switches));
      NestSwitch(Move(l, Front(switches)), Last(switches));
    }
  }

  lemma OpenSynthesised(l: Layout)
    requires l.Layout? && Sound(l) && !l.synthesised
    ensures Shape(l).value + [SynthesisedCall] == Shape(Layout(l.inner, true, 0)).value
  {
    assert Contracts(0) == [];
  }

  lemma CloseSynthesised(l: Layout)
    requires l.Layout? && l.synthesised
    ensures l.inner == 0 ==> Last(Shape(l).value) == SynthesisedCall
                             && Front(Shape(l).value) + [SynthesisedCall] == Shape(l).value
                             && Front(Shape(l).value) == [TopLevel] + Contracts(l.outer)
  {
  }

  /** A transition's marks cross the gap. */
  lemma NestFrames(l: Layout, lines: Lines, line: u32)
    requires Sound(l) && (l.Layout? ==> (l.synthesised <==> lines.depth > 0))
    ensures Nest(Shape(l), FrameMarks(lines, line)) == Shape(if Transition(lines.previous, line) then Cross(l) else l)
  {
    var opens, closes := Opens(SynthesisedCall), Closes(SynthesisedCall);
    if Transition(lines.previous, line) {
      NestSingle(Shape(l), opens);
      NestSingle(Shape(l), closes);
      NestSingle(NestOne(Shape(l), closes), opens);
      NestAppend(Shape(l), [closes], [opens]);
      assert [] + [opens] == [opens];
      if l.Layout? {
        LastContract(l);
        if l.synthesised {
          CloseSynthesised(l);
        } else {
          OpenSynthesised(l);
        }
      }
    }
  }

  lemma CrossSound(l: Layout)
    requires Sound(l)
    ensures Sound(Cross(l)) && (Cross(l).Layout? ==> Cross(l).synthesised)
  {
  }

  /** The frames open in the log have the layout. */
  lemma {:induction false} NestMarks(obs: seq<Observation>)
    ensures Sound(LayoutOf(obs))
    ensures LayoutOf(obs).Layout? ==> (LayoutOf(obs).synthesised <==> LinesAfter(obs).depth > 0)
    ensures Nest(Some([]), Marks(obs)) == Shape(LayoutOf(obs))
  {
    if obs == [] {
      NestSingle(Some([]), Opens(TopLevel));
      OnlyTopLevel();
    } else {
      var front, o := Front(obs), Last(obs);
      NestMarks(front);
      PreviousLine(front);
      NestNext(LayoutOf(front), LinesAfter(front), o, Marks(front));
    }
  }

  lemma OnlyTopLevel()
    ensures Shape(Layout(0, false, 0)) == Some([TopLevel])
    ensures [] + [TopLevel] == [TopLevel]
  {
    assert Below(Layout(0, false, 0)) == [TopLevel];
    assert [TopLevel] + Contracts(0) == [TopLevel];
  }

  lemma NestNext(l: Layout, lines: Lines, o: Observation, marks: seq<Mark>)
    requires Sound(l) && (l.Layout? ==> (l.synthesised <==> lines.depth > 0))
    requires Nest(Some([]), marks) == Shape(l)
    ensures var moved := Move(l, o.switches);
            var next := if Transition(lines.previous, o.at.line) then Cross(moved) else moved;
            && Sound(next)
            && (next.Layout? ==> (next.synthesised <==> NextLines(lines, o.at.line).depth > 0))
            && Nest(Some([]), marks + (SwitchMarks(o.switches) + FrameMarks(lines, o.at.line))) == Shape(next)
  {
    var switches, frames := SwitchMarks(o.switches), FrameMarks(lines, o.at.line);
    NestSwitches(l, o.switches);
    NestFrames(Move(l, o.switches), lines, o.at.line);
    CrossSound(Move(l, o.switches));
    NestAppend(Some([]), marks, switches + frames);
    NestAppend(Shape(l), switches, frames);
  }

  /** The end closes what is open only if that is at most a synthesised frame. */
  lemma NestClosing(l: Layout, n: nat)
    requires Sound(l) && n <= 1 && (l.Layout? ==> (l.synthesised <==> n > 0))
    ensures Nest(Shape(l), ClosingMarks(n)) == Some([]) <==> l.Layout? && l.outer == 0 && l.inner == 0
  {
    var top, closes := Closes(TopLevel), Closes(SynthesisedCall);
    assert ClosingMarks(n) == (if n == 1 then [closes] else []) + [top];
    NestSingle(Shape(l), top);
    NestSingle(Shape(l), closes);
    NestSingle(NestOne(Shape(l), closes), top);
    NestAppend(Shape(l), [closes], [top]);
    assert [] + [top] == [top];
    if l.Layout? {
      LastContract(l);
      if l.synthesised {
        CloseSynthesised(l);
        LastOutside(l.outer);
      } else {
        LastOutside(l.inner);
      }
    }
  }

  lemma LastOutside(n: nat)
    ensures Last([TopLevel] + Contracts(n)) == if n == 0 then TopLevel else ContractCall
  {
  }

  // ----- when the layout is unbroken

  /** Calls and returns match throughout, and no line gap is crossed while a
      contract call is open. */
  predicate Nestable(obs: seq<Observation>) {
    obs != [] ==>
      && Nestable(Front(obs))
      && SwitchesLast(1 + Calls(Front(obs)), Last(obs).switches)
      && (OpensFrame(obs, |obs| - 1) ==> Calls(obs) == 0)
  }

  lemma {:induction false} MoveUnmixed(l: Layout, switches: seq<Switch>)
    requires l.Layout? && l.outer == 0
    ensures Move(l, switches) == if SwitchesLast(1 + l.inner, switches)
                                 then Layout(0, l.synthesised, l.inner + NetSwitches(switches)) else Broken
  {
    if switches != [] {
      MoveUnmixed(l, Front(switches));
    }
  }

  lemma {:induction false} MoveMixed(l: Layout, switches: seq<Switch>)
    requires l.Layout? && l.outer > 0
    ensures var moved := Move(l, switches);
            moved.Broken? || (moved.outer == l.outer && moved.synthesised == l.synthesised
                              && moved.inner == l.inner + NetSwitches(switches))
  {
    if switches != [] {
      MoveMixed(l, Front(switches));
    }
  }

  lemma {:induction false} MoveBroken(switches: seq<Switch>)
    ensures Move(Broken, switches) == Broken
  {
    if switches != [] {
      MoveBroken(Front(switches));
    }
  }

  /** What the layout tells about the calls open. */
  predicate Tells(l: Layout, nestable: bool, depth: nat, calls: int) {
    if nestable then calls >= 0 && l == Layout(0, depth > 0, calls)
    else l.Broken? || (l.outer > 0 && l.synthesised && l.outer + l.inner == calls)
  }

  lemma {:induction false} LayoutTells(obs: seq<Observation>)
    ensures Tells(LayoutOf(obs), Nestable(obs), LinesAfter(obs).depth, Calls(obs))
  {
    if obs != [] {
      var front, o := Front(obs), Last(obs);
      LayoutTells(front);
      PreviousLine(front);
      TellsNext(LayoutOf(front), Nestable(front), LinesAfter(front), Calls(front), o);
    }
  }

  lemma TellsNext(l: Layout, nestable: bool, lines: Lines, calls: int, o: Observation)
    requires Tells(l, nestable, lines.depth, calls)
    ensures var moved, gap := Move(l, o.switches), Transition(lines.previous, o.at.line);
            var after := calls + NetSwitches(o.switches);
            Tells(if gap then Cross(moved) else moved,
                  nestable && SwitchesLast(1 + calls, o.switches) && (gap ==> after == 0),
                  NextLines(lines, o.at.line).depth, after)
  {
    if nestable {
      MoveUnmixed(l, o.switches);
    } else if l.Broken? {
      MoveBroken(o.switches);
    } else {
      MoveMixed(l, o.switches);
    }
  }

  /** Every return of a recording closes the frame it is meant for if and only
      if calls and returns match and no line gap is crossed inside a call. */
  lemma {:induction false} NestsIffMatched(obs: seq<Observation>)
    ensures EachClosesItsOwn(obs) <==> Nestable(obs) && Calls(obs) == 0
  {
    LayoutTells(obs);
    NestMarks(obs);
    LinesCountGaps(obs);
    NestAppend(Some([]), Marks(obs), ClosingMarks(LinesAfter(obs).depth));
    NestClosing(LayoutOf(obs), LinesAfter(obs).depth);
  }

  // ----- matched receipts

  lemma MatchedEnd(stack: Stack, seen: seq<Receipt>, more: seq<Receipt>)
    requires NeverBelow(seen + more)
    ensures var now := AfterAll(stack, seen);
            1 + |now| - |stack| + NetSwitches(Switches(now, more)) >= 1
  {
    StackKept(stack, seen + more);
    AfterTwoParts(stack, seen, more);
    SwitchesMatchStack(AfterAll(stack, seen), more);
    BalanceAtEnd(seen + more);
  }

  lemma {:induction false} MatchedSwitchesLast(stack: Stack, seen: seq<Receipt>, more: seq<Receipt>)
    requires NeverBelow(seen + more)
    ensures SwitchesLast(1 + |AfterAll(stack, seen)| - |stack|, Switches(AfterAll(stack, seen), more))
  {
    var now := AfterAll(stack, seen);
    MatchedEnd(stack, seen, more);
    if more != [] {
      MatchedFront(seen, more);
      MatchedSwitchesLast(stack, seen, Front(more));
      SwitchesMatchStack(now, more);
      SwitchesLastSplit(1 + |now| - |stack|, now, more);
    }
  }

  lemma MatchedFront(seen: seq<Receipt>, more: seq<Receipt>)
    requires more != [] && NeverBelow(seen + more)
    ensures NeverBelow(seen + Front(more))
  {
    assert seen + more == seen + Front(more) + [Last(more)];
    NeverBelowPrefix(seen + Front(more), seen + more);
  }

  lemma BalanceAtEnd(rs: seq<Receipt>)
    requires NeverBelow(rs)
    ensures Balance(rs) >= 0
  {
    assert rs[..|rs|] == rs;
  }

  /** Callback `i` crosses no gap, or crosses it with no contract call open. */
  predicate CrossesOutside(cfg: Config, steps: seq<StepState>, i: nat)
    requires i < |steps|
  {
    OpensFrame(Observations(cfg, steps), i) ==>
      |TrackersAfter(cfg, steps[..i + 1]).stack| == |InitialTrackers(cfg).stack|
  }

  predicate GapsOutsideCalls(cfg: Config, steps: seq<StepState>) {
    forall i :: 0 <= i < |steps| ==> CrossesOutside(cfg, steps, i)
  }

  lemma CrossesOutsideFront(cfg: Config, steps: seq<StepState>, i: nat)
    requires i + 1 < |steps|
    ensures CrossesOutside(cfg, Front(steps), i) == CrossesOutside(cfg, steps, i)
  {
    assert Front(steps)[..i + 1] == steps[..i + 1];
    assert Front(Observations(cfg, steps)) == Observations(cfg, Front(steps));
  }

  lemma GapsOutsideSplit(cfg: Config, steps: seq<StepState>)
    requires steps != []
    ensures GapsOutsideCalls(cfg, steps) <==>
            GapsOutsideCalls(cfg, Front(steps)) && CrossesOutside(cfg, steps, |steps| - 1)
  {
    forall i | 0 <= i < |steps| - 1 ensures CrossesOutside(cfg, Front(steps), i) == CrossesOutside(cfg, steps, i) {
      CrossesOutsideFront(cfg, steps, i);
    }
  }

  lemma MatchedBefore(steps: seq<StepState>)
    requires steps != [] && Growing([], steps) && NeverBelow(SeenAtEnd([], steps))
    ensures var seen, now := SeenAtEnd([], Front(steps)), Last(steps).receipts;
            && Growing([], Front(steps)) && NeverBelow(seen)
            && seen <= now && NeverBelow(seen + now[|seen|..])
  {
    var seen, now := SeenAtEnd([], Front(steps)), Last(steps).receipts;
    GrowingFront(steps);
    assert now == seen + now[|seen|..];
    NeverBelowPrefix(seen, now);
  }

  /** The switches of the next callback keep to the calls open before it. */
  predicate NextSwitchesLast(before: seq<Observation>, switches: seq<Switch>) {
    SwitchesLast(1 + Calls(before), switches)
  }

  lemma MatchedSwitches(stack: Stack, seen: seq<Receipt>, more: seq<Receipt>,
                        before: seq<Observation>, switches: seq<Switch>)
    requires NeverBelow(seen + more)
    requires Calls(before) == |AfterAll(stack, seen)| - |stack| && switches == Switches(AfterAll(stack, seen), more)
    ensures NextSwitchesLast(before, switches)
  {
    MatchedSwitchesLast(stack, seen, more);
  }

  lemma MatchedNext(cfg: Config, steps: seq<StepState>)
    requires steps != [] && Growing([], steps) && NeverBelow(SeenAtEnd([], steps))
    ensures NextSwitchesLast(Observations(cfg, Front(steps)), Last(Observations(cfg, steps)).switches)
  {
    var seen, now := SeenAtEnd([], Front(steps)), Last(steps).receipts;
    MatchedBefore(steps);
    CallsOfSeen(cfg, Front(steps));
    SwitchesOfNext(cfg, steps);
    MatchedSwitches(InitialTrackers(cfg).stack, seen, now[|seen|..],
                    Observations(cfg, Front(steps)), Last(Observations(cfg, steps)).switches);
  }

  lemma LastCrosses(cfg: Config, steps: seq<StepState>)
    requires steps != []
    ensures var obs := Observations(cfg, steps);
            CrossesOutside(cfg, steps, |steps| - 1) <==> (OpensFrame(obs, |obs| - 1) ==> Calls(obs) == 0)
  {
    CallsAreContexts(cfg, steps);
    assert steps[..|steps|] == steps;
  }

  lemma NestableSplit(obs: seq<Observation>, crosses: bool)
    requires obs != [] && NextSwitchesLast(Front(obs), Last(obs).switches)
    requires crosses <==> (OpensFrame(obs, |obs| - 1) ==> Calls(obs) == 0)
    ensures Nestable(obs) <==> Nestable(Front(obs)) && crosses
  {
  }

  lemma NestableNext(cfg: Config, steps: seq<StepState>)
    requires steps != []
    requires NextSwitchesLast(Observations(cfg, Front(steps)), Last(Observations(cfg, steps)).switches)
    ensures Nestable(Observations(cfg, steps)) <==>
            Nestable(Observations(cfg, Front(steps))) && CrossesOutside(cfg, steps, |steps| - 1)
  {
    NextObserved(cfg, steps);
    LastCrosses(cfg, steps);
    NestableSplit(Observations(cfg, steps), CrossesOutside(cfg, steps, |steps| - 1));
  }

  lemma {:induction false} MatchedNestable(cfg: Config, steps: seq<StepState>)
    requires Growing([], steps) && NeverBelow(SeenAtEnd([], steps))
    ensures Nestable(Observations(cfg, steps)) <==> GapsOutsideCalls(cfg, steps)
  {
    if steps != [] {
      MatchedBefore(steps);
      MatchedNext(cfg, steps);
      MatchedNestable(cfg, Front(steps));
      NestableNext(cfg, steps);
      GapsOutsideSplit(cfg, steps);
    }
  }

  /** When the call and return receipts match, every return closes the frame it
      is meant for if and only if no line gap is crossed while a contract call
      is open. */
  lemma {:induction false} MatchedReceiptsNest(cfg: Config, steps: seq<StepState>)
    requires Growing([], steps) && Balanced(SeenAtEnd([], steps))
    ensures EachClosesItsOwn(Observations(cfg, steps)) <==> GapsOutsideCalls(cfg, steps)
  {
    var obs := Observations(cfg, steps);
    NestsIffMatched(obs);
    MatchedNestable(cfg, steps);
    CallsAreContexts(cfg, steps);
    StackFollowsReceipts(cfg, steps);
    BalancedRestores(InitialTrackers(cfg).stack, SeenAtEnd([], steps));
  }

  // ----- recordings that do not nest

  lemma {:induction false} CallObserved(cfg: Config, s: StepState, call: Receipt)
    requires s.receipts == [] && call.Call?
    ensures var obs := Observations(cfg, [s, s.(receipts := [call])]);
            && |obs| == 2 && obs[0].switches == []
            && |obs[1].switches| == 1 && obs[1].switches[0].Enter?
  {
    var t, steps := TrackersAfter(cfg, [s]), [s, s.(receipts := [call])];
    assert Front(steps) == [s] && Front([s]) == [] && Front([call]) == [];
    assert NewReceipts(t, s.(receipts := [call])) == [call];
    NextObserved(cfg, [s]);
    NextObserved(cfg, steps);
  }

  lemma {:induction false} MarksOfOneCall(obs: seq<Observation>)
    requires |obs| == 2 && obs[0].at.line == 1 && obs[1].at.line == 1
    requires obs[0].switches == [] && |obs[1].switches| == 1 && obs[1].switches[0].Enter?
    ensures AllMarks(obs) == [Opens(TopLevel), Opens(ContractCall), Closes(TopLevel)]
    ensures Calls(obs) == 1
  {
    var switches := obs[1].switches;
    assert Front(obs) == [obs[0]] && Front([obs[0]]) == [] && Front(switches) == [];
    assert Calls([]) == 0 && Calls([obs[0]]) == 0;
    assert NetSwitches(switches) == 1 && SwitchMarks(switches) == [Opens(ContractCall)];
    assert LinesAfter([obs[0]]) == Lines(Some(1), 0, 0) && LinesAfter(obs).depth == 0;
    assert Marks([obs[0]]) == [Opens(TopLevel)] + (SwitchMarks([]) + []);
    assert Marks(obs) == Marks([obs[0]]) + (SwitchMarks(switches) + []);
  }

  predicate CallThenReturn(brackets: seq<Request>) {
    && |brackets| == 3
    && brackets[0].Start?
    && brackets[1].Call? && brackets[1].callee.OfContract?
    && brackets[2].Return?
  }

  lemma DescribedByThree(marks: seq<Mark>, rs: seq<Request>)
    requires marks == [Opens(TopLevel), Opens(ContractCall), Closes(TopLevel)] && Describe(marks, rs)
    ensures CallThenReturn(rs)
  {
    assert Fits(marks[0], rs[0]) && Fits(marks[1], rs[1]) && Fits(marks[2], rs[2]);
  }

  /** A script whose first instruction calls a contract that never returns, its
      run ending at the contract's first instruction: the top-level return ends
      the contract's frame, and the top-level frame stays open. */
  lemma {:induction false} UnreturnedCall(cfg: Config, s: StepState, call: Receipt, final: seq<Receipt>)
    requires cfg.lines == [] && s.pc == 0 && s.receipts == []
    requires call.Call? && [call] <= final
    ensures var steps := [s, s.(receipts := [call])];
            && SeenAtEnd([], steps) == [call]
            && CallThenReturn(Filter(IsBracket, Recording(cfg, steps, final)))
            && !EachClosesItsOwn(Observations(cfg, steps))
  {
    var steps := [s, s.(receipts := [call])];
    var obs := Observations(cfg, steps);
    PlaceOfObservation(cfg, steps, 0);
    PlaceOfObservation(cfg, steps, 1);
    CallObserved(cfg, s, call);
    MarksOfOneCall(obs);
    NestsIffMatched(obs);
    RecordingDescribed(cfg, steps, final);
    DescribedByThree(AllMarks(obs), Filter(IsBracket, Recording(cfg, steps, final)));
  }

  /** A script's first instruction, the first instruction of the contract it
      calls, one of that contract nine lines further on, and the script again. */
  predicate JumpsInsideCall(steps: seq<StepState>, call: Receipt, ret: Receipt) {
    && |steps| == 4
    && steps[0].pc == 0 && steps[1].pc == 0 && steps[2].pc == 36 && steps[3].pc == 4
    && steps[0].receipts == [] && steps[1].receipts == [call] && steps[2].receipts == [call]
    && steps[3].receipts == [call, ret]
  }

  lemma {:induction false} JumpGrows(steps: seq<StepState>, call: Receipt, ret: Receipt)
    requires JumpsInsideCall(steps, call, ret)
    ensures Growing([], steps) && Growing([], steps[..3]) && SeenAtEnd([], steps[..3]) == [call]
  {
    forall i | 0 <= i < 4 ensures SeenAtEnd([], steps[..i]) <= steps[i].receipts {
      assert i > 0 ==> Last(steps[..i]) == steps[i - 1];
    }
    forall i | 0 <= i < 3 ensures SeenAtEnd([], steps[..3][..i]) <= steps[..3][i].receipts {
      assert steps[..3][..i] == steps[..i];
    }
  }

  lemma NineLinesAreAGap(obs: seq<Observation>)
    requires |obs| == 4 && obs[1].at.line == 1 && obs[2].at.line == 10
    ensures OpensFrame(obs, 2)
  {
  }

  lemma UnmappedLine(cfg: Config, s: StepState)
    requires cfg.lines == [] && (s.pc == 0 || s.pc == 36)
    ensures PlaceOf(cfg, s).line == if s.pc == 0 then 1 else 10
  {
  }

  lemma {:induction false} JumpOpens(cfg: Config, steps: seq<StepState>)
    requires cfg.lines == [] && |steps| == 4 && steps[1].pc == 0 && steps[2].pc == 36
    ensures OpensFrame(Observations(cfg, steps), 2)
  {
    UnmappedLine(cfg, steps[1]);
    UnmappedLine(cfg, steps[2]);
    PlaceOfObservation(cfg, steps, 1);
    PlaceOfObservation(cfg, steps, 2);
    NineLinesAreAGap(Observations(cfg, steps));
  }

  lemma CallRaises(stack: Stack, call: Receipt)
    requires call.Call?
    ensures |AfterAll(stack, [call])| == |stack| + 1
  {
    assert Front([call]) == [];
  }

  lemma {:induction false} CrossesInside(cfg: Config, steps: seq<StepState>, i: nat)
    requires i < |steps| && OpensFrame(Observations(cfg, steps), i)
    requires |TrackersAfter(cfg, steps[..i + 1]).stack| != |InitialTrackers(cfg).stack|
    ensures !GapsOutsideCalls(cfg, steps)
  {
    assert !CrossesOutside(cfg, steps, i);
  }

  /** A line gap inside a contract call that does return: the switch's return
      ends the synthesised frame. */
  lemma {:induction false} GapInsideCall(cfg: Config, steps: seq<StepState>, call: Receipt, ret: Receipt)
    requires call.Call? && IsReturn(ret) && cfg.lines == [] && JumpsInsideCall(steps, call, ret)
    ensures Growing([], steps) && Balanced(SeenAtEnd([], steps))
    ensures !EachClosesItsOwn(Observations(cfg, steps))
  {
    JumpGrows(steps, call, ret);
    CallAndReturn(call, ret);
    JumpOpens(cfg, steps);
    StackFollowsReceipts(cfg, steps[..3]);
    CallRaises(InitialTrackers(cfg).stack, call);
    CrossesInside(cfg, steps, 2);
    MatchedReceiptsNest(cfg, steps);
  }

  lemma CallAndReturn(call: Receipt, ret: Receipt)
    requires call.Call? && IsReturn(ret)
    ensures Balanced([call, ret])
  {
    var rs := [call, ret];
    assert Balance([]) == 0;
    assert Front([call]) == [] && Balance([call]) == 1;
    assert Front(rs) == [call] && Balance(rs) == 0;
    forall i | 0 <= i <= |rs| ensures Balance(rs[..i]) >= 0 {
      assert rs[..i] == if i == 0 then [] else if i == 1 then [call] else rs;
    }
  }
}
