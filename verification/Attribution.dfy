/** Which step each register snapshot ends up on, once the writer's buffer has
    replayed an instruction-level recording. */
module Attribution {
  import opened Prelude
  import opened Machine
  import opened ContractCalls
  import opened TraceLog
  import opened Writer
  import opened Recorder

  /** The steps written, in order. */
  function StepRecords(records: seq<Record>): seq<Record> {
    if records == [] then []
    else if Last(records).StepRecord? then StepRecords(Front(records)) + [Last(records)]
    else StepRecords(Front(records))
  }

  /** The steps written and the one still held back. */
  function AllSteps(b: Buffer): seq<Record> {
    StepRecords(b.records) + if b.step.Some? then [StepRecord(b.step.value, b.variables)] else []
  }

  function Extended(r: Record, vs: seq<Variable>): Record
    requires r.StepRecord?
  {
    StepRecord(r.at, r.variables + vs)
  }

  /** The attribution a reader expects: one step per run of instructions on the
      same line, holding exactly their snapshots. */
  function Groups(obs: seq<Observation>): (gs: seq<Record>)
    ensures obs != [] ==> gs != []
    ensures forall g :: g in gs ==> g.StepRecord?
  {
    if obs == [] then []
    else
      var before, o := Groups(Front(obs)), Last(obs);
      if |obs| > 1 && Last(Front(obs)).at.line == o.at.line then Front(before) + [Extended(Last(before), o.variables)]
      else before + [StepRecord(o.at, o.variables)]
  }

  /** Instruction `i` is on the line of the one before it, whose step has been
      written already: by the synthesised frame that one opened, or by a
      contract switch before this one. */
  predicate BreaksAt(obs: seq<Observation>, i: nat)
    requires 0 < i < |obs|
  {
    obs[i].at.line == obs[i - 1].at.line && (OpensFrame(obs, i - 1) || obs[i].switches != [])
  }

  /** No line goes on after its step has been written. */
  predicate Uninterrupted(obs: seq<Observation>) {
    forall i :: 0 < i < |obs| ==> !BreaksAt(obs, i)
  }

  lemma BreaksInPrefix(obs: seq<Observation>, n: nat, i: nat)
    requires 0 < i < n <= |obs|
    ensures BreaksAt(obs[..n], i) == BreaksAt(obs, i)
  {
  }

  /** Every callback has values to assign, besides events. */
  predicate Observed(obs: seq<Observation>) {
    forall i :: 0 <= i < |obs| ==> EventsOnly(obs[i]) && obs[i].variables != []
  }

  function Entry(cfg: Config): Record {
    StepRecord(Position(cfg.path, 1), [])
  }

  function BufferAfter(cfg: Config, obs: seq<Observation>): Buffer {
    Replay(EMPTY, Requests(cfg, obs))
  }

  // ----- replaying parts of a callback

  lemma {:induction false} ReplayEvents(b: Buffer, rs: seq<Request>)
    requires forall r :: r in rs ==> r.Event? || r.Storage?
    ensures var a := Replay(b, rs);
            a.step == b.step && a.variables == b.variables && StepRecords(a.records) == StepRecords(b.records)
  {
    if rs != [] {
      assert Last(rs) in rs;
      ReplayEvents(b, Front(rs));
      StepRecordsAdd(Replay(b, Front(rs)).records, EventRecord(Last(rs)));
    }
  }

  lemma {:induction false} ReplayAssigns(b: Buffer, vs: seq<Variable>)
    ensures Replay(b, Assigns(vs)) == Buffer(b.step, b.variables + vs, b.records)
  {
    if vs == [] {
      assert b.variables + vs == b.variables;
    } else {
      ReplayAssigns(b, Front(vs));
      assert Front(Assigns(vs)) == Assigns(Front(vs)) && Last(Assigns(vs)) == Assign(Last(vs));
      assert b.variables + Front(vs) + [Last(vs)] == b.variables + vs;
    }
  }

  lemma StepRecordsAdd(records: seq<Record>, r: Record)
    ensures StepRecords(records + [r]) == if r.StepRecord? then StepRecords(records) + [r] else StepRecords(records)
  {
    assert Front(records + [r]) == records;
  }

  /** Flushing writes the held step and loses nothing. */
  lemma FlushWrites(b: Buffer)
    ensures Flush(b).step.None? && StepRecords(Flush(b).records) == AllSteps(b)
    ensures b.step.None? ==> Flush(b) == b
    ensures b.step.Some? ==> Flush(b).variables == []
  {
    if b.step.Some? {
      StepRecordsAdd(b.records, StepRecord(b.step.value, b.variables));
    }
  }

  /** A call or a return writes the held step. */
  lemma PushFrame(b: Buffer, r: Request)
    requires r.Call? || r.Return?
    ensures var a := Push(b, r);
            a.step.None? && StepRecords(a.records) == AllSteps(b)
            && a.variables == if b.step.Some? then [] else b.variables
  {
    FlushWrites(b);
    var rec := if r.Return? then ReturnRecord else CallRecord(Some(r.callee), r.at);
    StepRecordsAdd(Flush(b).records, rec);
  }

  lemma ReplayFrames(cfg: Config, l: Lines, at: Position, b: Buffer)
    ensures var a := Replay(b, FrameRequests(cfg, l, at));
            AllSteps(a) == AllSteps(b)
            && (Transition(l.previous, at.line) ==>
                  a.step.None? && a.variables == if b.step.Some? then [] else b.variables)
            && (!Transition(l.previous, at.line) ==> a == b)
  {
    var rs := FrameRequests(cfg, l, at);
    if Transition(l.previous, at.line) {
      var call := Request.Call(Synthesised(CalleeName(cfg, l.seen)), at);
      var closing := if l.depth > 0 then [Request.Return] else [];
      ReplayAppend(b, closing, [call]);
      ReplayOne(Replay(b, closing), call);
      ReplayOne(b, Request.Return);
      PushFrame(b, Request.Return);
      PushFrame(Replay(b, closing), call);
    }
  }

  /** A contract switch writes the held step. */
  lemma {:induction false} ReplaySwitches(cfg: Config, switches: seq<Switch>, b: Buffer)
    ensures var a := Replay(b, SwitchRequests(cfg, switches));
            AllSteps(a) == AllSteps(b)
            && (switches == [] ==> a == b)
            && (switches != [] ==> a.step.None? && a.variables == if b.step.Some? then [] else b.variables)
  {
    var rs := SwitchRequests(cfg, switches);
    if switches != [] {
      ReplaySwitches(cfg, Front(switches), b);
      assert Front(rs) == SwitchRequests(cfg, Front(switches)) && Last(rs) == SwitchRequest(cfg, Last(switches));
      PushFrame(Replay(b, Front(rs)), Last(rs));
    }
  }

  /** The buffer before the synthesised frames of a callback. */
  function Staged(cfg: Config, l: Lines, o: Observation, b: Buffer): Buffer {
    Replay(Replay(Replay(Replay(b, SwitchRequests(cfg, o.switches)), o.events), StepRequest(l, o.at)), Assigns(o.variables))
  }

  lemma ReplayEmit(cfg: Config, l: Lines, o: Observation, b: Buffer)
    ensures Replay(b, Emit(cfg, l, o)) == Replay(Staged(cfg, l, o, b), FrameRequests(cfg, l, o.at))
  {
    var switches := SwitchRequests(cfg, o.switches);
    ReplayAppend(b, switches + o.events + StepRequest(l, o.at) + Assigns(o.variables), FrameRequests(cfg, l, o.at));
    ReplayAppend(b, switches + o.events + StepRequest(l, o.at), Assigns(o.variables));
    ReplayAppend(b, switches + o.events, StepRequest(l, o.at));
    ReplayAppend(b, switches, o.events);
  }

  /** A callback on a new line holds a new step with its own snapshot; one on
      the same line adds its snapshot to whatever is held. */
  lemma StagedSteps(cfg: Config, l: Lines, o: Observation, b: Buffer)
    requires EventsOnly(o)
    ensures var a := Staged(cfg, l, o, b);
            if l.previous != Some(o.at.line) then
              a.step == Some(o.at) && StepRecords(a.records) == AllSteps(b)
              && a.variables == (if b.step.Some? then [] else b.variables) + o.variables
            else if o.switches == [] then
              a.step == b.step && a.variables == b.variables + o.variables
              && StepRecords(a.records) == StepRecords(b.records)
            else a.step.None?
  {
    var w := Replay(b, SwitchRequests(cfg, o.switches));
    var e := Replay(w, o.events);
    ReplaySwitches(cfg, o.switches, b);
    ReplayEvents(w, o.events);
    ReplayAssigns(Replay(e, StepRequest(l, o.at)), o.variables);
    if l.previous != Some(o.at.line) {
      ReplayOne(e, Step(o.at));
      FlushWrites(e);
    }
  }

  // ----- the invariant of well-attributed runs

  predicate Attributed(cfg: Config, obs: seq<Observation>, b: Buffer) {
    && AllSteps(b) == [Entry(cfg)] + Groups(obs)
    && (b.step.None? ==> b.variables == [])
    && (b.step.None? <==> obs != [] && OpensFrame(obs, |obs| - 1))
  }

  lemma {:induction false} StartAttributed(cfg: Config)
    ensures Attributed(cfg, [], BufferAfter(cfg, []))
  {
    var at := Position(cfg.path, 1);
    ReplayOne(EMPTY, Start(at));
    assert BufferAfter(cfg, []) == Buffer(Some(at), [], [CallRecord(None, at)]);
    StepRecordsAdd([], CallRecord(None, at));
    assert StepRecords([] + [CallRecord(None, at)]) == [];
    assert [] + [CallRecord(None, at)] == [CallRecord(None, at)];
  }

  lemma BufferStep(cfg: Config, obs: seq<Observation>)
    requires obs != []
    ensures var l := LinesAfter(Front(obs));
            BufferAfter(cfg, obs) ==
              Replay(Staged(cfg, l, Last(obs), BufferAfter(cfg, Front(obs))), FrameRequests(cfg, l, Last(obs).at))
  {
    var l := LinesAfter(Front(obs));
    ReplayAppend(EMPTY, Requests(cfg, Front(obs)), Emit(cfg, l, Last(obs)));
    ReplayEmit(cfg, l, Last(obs), BufferAfter(cfg, Front(obs)));
  }

  lemma {:induction false} StagedAttributed(cfg: Config, obs: seq<Observation>, b: Buffer)
    requires obs != [] && EventsOnly(Last(obs))
    requires Attributed(cfg, Front(obs), b)
    requires |obs| > 1 ==> !BreaksAt(obs, |obs| - 1)
    ensures var a := Staged(cfg, LinesAfter(Front(obs)), Last(obs), b);
            AllSteps(a) == [Entry(cfg)] + Groups(obs) && a.step.Some?
  {
    var l, o := LinesAfter(Front(obs)), Last(obs);
    PreviousLine(Front(obs));
    StagedSteps(cfg, l, o, b);
    var before := [Entry(cfg)] + Groups(Front(obs));
    if l.previous == Some(o.at.line) {
      assert OpensFrame(obs, |obs| - 2) == OpensFrame(Front(obs), |obs| - 2);
      SameLine(StepRecords(b.records), b.step.value, b.variables, o.variables, Entry(cfg), Groups(Front(obs)));
    } else {
      assert [] + o.variables == o.variables;
      assert before + [StepRecord(o.at, o.variables)] == [Entry(cfg)] + Groups(obs);
    }
  }

  lemma SameLine(written: seq<Record>, at: Position, held: seq<Variable>, more: seq<Variable>,
                 entry: Record, groups: seq<Record>)
    requires groups != [] && (forall g :: g in groups ==> g.StepRecord?)
    requires written + [StepRecord(at, held)] == [entry] + groups
    ensures written + [StepRecord(at, held + more)] == [entry] + (Front(groups) + [Extended(Last(groups), more)])
  {
    var all := [entry] + groups;
    assert Last(all) == Last(groups) == StepRecord(at, held);
    assert Front(all) == [entry] + Front(groups) == written;
  }

  lemma FrontUninterrupted(obs: seq<Observation>)
    requires obs != [] && Uninterrupted(obs)
    ensures Uninterrupted(Front(obs))
  {
    forall i | 0 < i < |Front(obs)| ensures !BreaksAt(Front(obs), i) {
      BreaksInPrefix(obs, |obs| - 1, i);
    }
  }

  /** While no line is interrupted, every snapshot is where it belongs. */
  lemma {:induction false} WellAttributed(cfg: Config, obs: seq<Observation>)
    requires Observed(obs) && Uninterrupted(obs)
    ensures Attributed(cfg, obs, BufferAfter(cfg, obs))
  {
    if obs == [] {
      StartAttributed(cfg);
    } else {
      var front, l, o := Front(obs), LinesAfter(Front(obs)), Last(obs);
      FrontUninterrupted(obs);
      WellAttributed(cfg, front);
      PreviousLine(front);
      BufferStep(cfg, obs);
      StagedAttributed(cfg, obs, BufferAfter(cfg, front));
      ReplayFrames(cfg, l, o.at, Staged(cfg, l, o, BufferAfter(cfg, front)));
    }
  }

  // ----- what an interrupted line breaks

  /** Steps written stay as they are. */
  lemma {:induction false} WrittenStay(b: Buffer, rs: seq<Request>)
    ensures StepRecords(b.records) <= StepRecords(Replay(b, rs).records)
  {
    if rs != [] {
      WrittenStay(b, Front(rs));
      PushKeeps(Replay(b, Front(rs)), Last(rs));
    }
  }

  lemma PushKeeps(b: Buffer, r: Request)
    ensures StepRecords(b.records) <= StepRecords(Push(b, r).records)
  {
    FlushWrites(b);
    match r {
      case Start(at) => StepRecordsAdd(Flush(b).records, CallRecord(None, at));
      case Step(_) =>
      case Assign(_) =>
      case Call(_, _) => PushFrame(b, r);
      case Return => PushFrame(b, r);
      case Event(_, _) => StepRecordsAdd(b.records, EventRecord(r));
      case Storage(_, _, _, _) => StepRecordsAdd(b.records, EventRecord(r));
    }
  }

  lemma {:induction false} RequestsGrow(cfg: Config, obs: seq<Observation>, k: nat)
    requires k <= |obs|
    ensures Requests(cfg, obs[..k]) <= Requests(cfg, obs)
  {
    if k == |obs| {
      assert obs[..k] == obs;
    } else {
      RequestsGrow(cfg, Front(obs), k);
      assert Front(obs)[..k] == obs[..k];
    }
  }

  /** A group keeps its snapshots as the run goes on. */
  lemma {:induction false} GroupsGrow(obs: seq<Observation>, k: nat)
    requires 0 < k <= |obs|
    ensures |Groups(obs[..k])| <= |Groups(obs)|
    ensures var m := |Groups(obs[..k])| - 1;
            |Groups(obs[..k])[m].variables| <= |Groups(obs)[m].variables|
  {
    if k == |obs| {
      assert obs[..k] == obs;
    } else {
      GroupsGrow(Front(obs), k);
      assert Front(obs)[..k] == obs[..k];
    }
  }

  /** The expected group is larger than the step that was written for it. */
  lemma GroupOutgrows(obs: seq<Observation>, i: nat)
    requires 0 < i < |obs| && obs[i].at.line == obs[i - 1].at.line && obs[i].variables != []
    ensures var m := |Groups(obs[..i])| - 1;
            m < |Groups(obs)| && |Groups(obs[..i])[m].variables| < |Groups(obs)[m].variables|
  {
    GroupsGrow(obs, i + 1);
    assert Front(obs[..i + 1]) == obs[..i] && Last(obs[..i]) == obs[i - 1] && Last(obs[..i + 1]) == obs[i];
  }

  /** The first instruction that breaks the rule. */
  lemma {:induction false} FirstBreak(obs: seq<Observation>) returns (i: nat)
    requires !Uninterrupted(obs)
    ensures 0 < i < |obs| && BreaksAt(obs, i) && Uninterrupted(obs[..i])
  {
    var front := Front(obs);
    if Uninterrupted(front) {
      forall j | 0 < j < |front| ensures !BreaksAt(obs, j) {
        BreaksInPrefix(obs, |front|, j);
      }
      i := |front|;
    } else {
      i := FirstBreak(front);
      BreaksInPrefix(obs, |front|, i);
      assert obs[..i] == front[..i];
    }
  }

  /** The steps of a recording: those of its log, and what its end writes. */
  function FinalSteps(cfg: Config, obs: seq<Observation>, closing: seq<Request>): seq<Record> {
    StepRecords(Replay(EMPTY, Requests(cfg, obs) + closing).records)
  }

  /** As long as `base`, and no step with fewer values. */
  predicate AtLeast(steps: seq<Record>, base: seq<Record>) {
    |steps| == |base|
    && forall i :: 0 <= i < |steps| ==>
         steps[i].StepRecord? && base[i].StepRecord? && |steps[i].variables| >= |base[i].variables|
  }

  /** Once interrupted, a line's step stays without the snapshot of the next
      instruction, whatever follows. */
  lemma {:induction false} BreakShows(cfg: Config, obs: seq<Observation>, i: nat, closing: seq<Request>, expected: seq<Record>)
    requires 0 < i < |obs| && BreaksAt(obs, i)
    requires Observed(obs) && Uninterrupted(obs[..i])
    requires AtLeast(expected, [Entry(cfg)] + Groups(obs))
    ensures FinalSteps(cfg, obs, closing) != expected
  {
    var part := obs[..i];
    WrittenBeforeBreak(cfg, obs, i);
    WrittenPrefix(cfg, obs, i, closing);
    GroupOutgrows(obs, i);
    SmallerDiffers(Entry(cfg), Groups(part), Groups(obs), FinalSteps(cfg, obs, closing), expected);
  }

  /** The buffer when callback `i` has made its contract switches. */
  function Interrupted(cfg: Config, obs: seq<Observation>, i: nat): Buffer
    requires i < |obs|
  {
    Replay(BufferAfter(cfg, obs[..i]), SwitchRequests(cfg, obs[i].switches))
  }

  lemma WrittenBeforeBreak(cfg: Config, obs: seq<Observation>, i: nat)
    requires 0 < i < |obs| && BreaksAt(obs, i)
    requires Observed(obs) && Uninterrupted(obs[..i])
    ensures StepRecords(Interrupted(cfg, obs, i).records) == [Entry(cfg)] + Groups(obs[..i])
  {
    var part := obs[..i];
    assert OpensFrame(part, i - 1) == OpensFrame(obs, i - 1);
    WellAttributed(cfg, part);
    ReplaySwitches(cfg, obs[i].switches, BufferAfter(cfg, part));
  }

  lemma SmallerDiffers(entry: Record, part: seq<Record>, all: seq<Record>, written: seq<Record>, expected: seq<Record>)
    requires part != [] && |part| <= |all| && Last(part).StepRecord? && all[|part| - 1].StepRecord?
    requires |Last(part).variables| < |all[|part| - 1].variables|
    requires [entry] + part <= written && AtLeast(expected, [entry] + all)
    ensures written != expected
  {
    assert written[|part|] == ([entry] + part)[|part|] == Last(part);
    assert ([entry] + all)[|part|] == all[|part| - 1];
  }

  /** The steps written when callback `i` has made its switches stay the first ones. */
  lemma WrittenPrefix(cfg: Config, obs: seq<Observation>, i: nat, closing: seq<Request>)
    requires i < |obs|
    ensures StepRecords(Interrupted(cfg, obs, i).records) <= FinalSteps(cfg, obs, closing)
  {
    var log, whole := Requests(cfg, obs[..i]) + SwitchRequests(cfg, obs[i].switches), Requests(cfg, obs);
    InterruptedLog(cfg, obs, i);
    var rest := whole[|log|..] + closing;
    Continue(log, whole, closing);
    ReplayAppend(EMPTY, log, rest);
    WrittenStay(Replay(EMPTY, log), rest);
  }

  lemma InterruptedLog(cfg: Config, obs: seq<Observation>, i: nat)
    requires i < |obs|
    ensures var log := Requests(cfg, obs[..i]) + SwitchRequests(cfg, obs[i].switches);
            log <= Requests(cfg, obs) && Replay(EMPTY, log) == Interrupted(cfg, obs, i)
  {
    var before, switches := Requests(cfg, obs[..i]), SwitchRequests(cfg, obs[i].switches);
    RequestsGrow(cfg, obs, i + 1);
    assert Front(obs[..i + 1]) == obs[..i];
    EmitBegins(cfg, LinesAfter(obs[..i]), obs[i]);
    Begins(before, switches, Emit(cfg, LinesAfter(obs[..i]), obs[i]), Requests(cfg, obs));
    ReplayAppend(EMPTY, before, switches);
  }

  lemma EmitBegins(cfg: Config, l: Lines, o: Observation)
    ensures SwitchRequests(cfg, o.switches) <= Emit(cfg, l, o)
  {
  }

  lemma Begins(before: seq<Request>, switches: seq<Request>, next: seq<Request>, whole: seq<Request>)
    requires switches <= next && before + next <= whole
    ensures before + switches <= whole
  {
    assert (before + next)[..|before| + |switches|] == before + switches;
  }

  lemma Continue(log: seq<Request>, whole: seq<Request>, closing: seq<Request>)
    requires log <= whole
    ensures whole + closing == log + (whole[|log|..] + closing)
  {
  }

  // ----- the end of a recording

  /** Receipts, returns and the top-level return write the held step as it is. */
  lemma {:induction false} ReplayReturns(b: Buffer, n: nat)
    ensures AllSteps(Replay(b, Returns(n))) == AllSteps(b)
    ensures n > 0 ==> Replay(b, Returns(n)).step.None?
    ensures n == 0 ==> Replay(b, Returns(n)) == b
  {
    if n > 0 {
      ReplayReturns(b, n - 1);
      assert Front(Returns(n)) == Returns(n - 1);
      PushFrame(Replay(b, Returns(n - 1)), Request.Return);
    }
  }

  /** The end of a script recording: no value is left to assign. */
  lemma {:induction false} ScriptClosing(cfg: Config, obs: seq<Observation>, tail: seq<Request>)
    requires forall r :: r in tail ==> r.Event? || r.Storage?
    ensures FinalSteps(cfg, obs, tail + Returns(LinesAfter(obs).depth) + [Request.Return]) == AllSteps(BufferAfter(cfg, obs))
  {
    var b, n := BufferAfter(cfg, obs), LinesAfter(obs).depth;
    var closing := tail + Returns(n) + [Request.Return];
    ReplayAppend(EMPTY, Requests(cfg, obs), closing);
    ReplayAppend(b, tail + Returns(n), [Request.Return]);
    ReplayAppend(b, tail, Returns(n));
    ReplayEvents(b, tail);
    var c := Replay(b, tail);
    ReplayReturns(c, n);
    ReplayOne(Replay(c, Returns(n)), Request.Return);
    PushFrame(Replay(c, Returns(n)), Request.Return);
  }

  /** The end of a predicate recording: with a synthesised frame open, its
      return writes the held step before the result is assigned. */
  lemma PredicateClosing(cfg: Config, obs: seq<Observation>, tail: seq<Request>, result: Variable)
    requires forall r :: r in tail ==> r.Event? || r.Storage?
    ensures var b, n := BufferAfter(cfg, obs), LinesAfter(obs).depth;
            FinalSteps(cfg, obs, tail + Returns(n) + [Assign(result)] + [Request.Return]) ==
              if n > 0 || b.step.None? then AllSteps(b)
              else StepRecords(b.records) + [StepRecord(b.step.value, b.variables + [result])]
  {
    var b, n := BufferAfter(cfg, obs), LinesAfter(obs).depth;
    var closing := tail + Returns(n) + [Assign(result)] + [Request.Return];
    ReplayAppend(EMPTY, Requests(cfg, obs), closing);
    ReplayAppend(b, tail + Returns(n) + [Assign(result)], [Request.Return]);
    ReplayAppend(b, tail + Returns(n), [Assign(result)]);
    ReplayAppend(b, tail, Returns(n));
    ReplayEvents(b, tail);
    var c := Replay(Replay(b, tail), Returns(n));
    ReplayReturns(Replay(b, tail), n);
    ReplayOne(c, Assign(result));
    var d := Push(c, Assign(result));
    ReplayOne(d, Request.Return);
    PushFrame(d, Request.Return);
  }

  /** The steps a reader expects: the entry, then one per run of instructions on
      the same line, the result on the last. */
  function Expected(cfg: Config, obs: seq<Observation>, result: Option<Variable>): (steps: seq<Record>)
    ensures |steps| == 1 + |Groups(obs)|
  {
    var base := [Entry(cfg)] + Groups(obs);
    if result.None? then base else Front(base) + [Extended(Last(base), [result.value])]
  }

  lemma ExpectedAtLeast(cfg: Config, obs: seq<Observation>, result: Option<Variable>)
    ensures AtLeast(Expected(cfg, obs, result), [Entry(cfg)] + Groups(obs))
  {
    var base := [Entry(cfg)] + Groups(obs);
    forall i | 0 <= i < |base| ensures base[i].StepRecord? {
      assert i > 0 ==> base[i] in Groups(obs);
    }
  }

  /** What the end of a recording assigns to the top-level frame. */
  function Closed(obs: seq<Observation>, tail: seq<Request>, result: Option<Variable>): seq<Request> {
    tail + Returns(LinesAfter(obs).depth) + (if result.None? then [] else [Assign(result.value)]) + [Request.Return]
  }

  /** The result as far as it can be shown: only without a line gap. */
  function Shown(obs: seq<Observation>, result: Option<Variable>): Option<Variable> {
    if Gaps(LineSequence(obs)) == [] then result else None
  }

  lemma NoGapNoFrame(obs: seq<Observation>)
    requires Gaps(LineSequence(obs)) == []
    ensures obs != [] ==> !OpensFrame(obs, |obs| - 1)
  {
    if obs != [] {
      assert Front(LineSequence(obs)) == LineSequence(Front(obs));
    }
  }

  lemma ExtendLast(written: seq<Record>, step: Record, v: Variable, base: seq<Record>)
    requires step.StepRecord? && base != [] && written + [step] == base
    ensures written + [Extended(step, [v])] == Front(base) + [Extended(Last(base), [v])]
  {
    assert Front(base) == written && Last(base) == step;
  }

  /** An uninterrupted recording ends as expected. */
  lemma {:induction false} EndsAsExpected(cfg: Config, obs: seq<Observation>, tail: seq<Request>, result: Option<Variable>)
    requires Observed(obs) && Uninterrupted(obs) && forall r :: r in tail ==> r.Event? || r.Storage?
    ensures FinalSteps(cfg, obs, Closed(obs, tail, result)) == Expected(cfg, obs, Shown(obs, result))
  {
    var b := BufferAfter(cfg, obs);
    WellAttributed(cfg, obs);
    LinesCountGaps(obs);
    if result.None? {
      NoResult(tail + Returns(LinesAfter(obs).depth));
      ScriptClosing(cfg, obs, tail);
    } else {
      PredicateClosing(cfg, obs, tail, result.value);
      if Gaps(LineSequence(obs)) == [] {
        NoGapNoFrame(obs);
        ExtendLast(StepRecords(b.records), StepRecord(b.step.value, b.variables), result.value, [Entry(cfg)] + Groups(obs));
      }
    }
  }

  lemma NoResult(rs: seq<Request>)
    ensures rs + [] + [Request.Return] == rs + [Request.Return]
  {
  }

  /** The written steps are one per run of same-line instructions, each with
      exactly their snapshots, and with the result on the last unless a line
      gap was crossed, if and only if no line is interrupted. */
  lemma {:induction false} SnapshotsBelongIffUninterrupted(
      cfg: Config, obs: seq<Observation>, tail: seq<Request>, result: Option<Variable>)
    requires Observed(obs) && forall r :: r in tail ==> r.Event? || r.Storage?
    ensures FinalSteps(cfg, obs, Closed(obs, tail, result)) == Expected(cfg, obs, Shown(obs, result))
            <==> Uninterrupted(obs)
  {
    if Uninterrupted(obs) {
      EndsAsExpected(cfg, obs, tail, result);
    } else {
      var i := FirstBreak(obs);
      ExpectedAtLeast(cfg, obs, Shown(obs, result));
      BreakShows(cfg, obs, i, Closed(obs, tail, result), Expected(cfg, obs, Shown(obs, result)));
    }
  }

  /** Consecutive instructions are on different lines. */
  predicate LinesDiffer(obs: seq<Observation>) {
    forall i :: 0 < i < |obs| ==> obs[i].at.line != obs[i - 1].at.line
  }

  /** Then each instruction is expected to have its own step with exactly its
      own snapshot, and no line is interrupted. */
  lemma {:induction false} OneStepPerInstruction(obs: seq<Observation>)
    requires LinesDiffer(obs)
    ensures Uninterrupted(obs)
    ensures |Groups(obs)| == |obs|
    ensures forall i :: 0 <= i < |obs| ==> Groups(obs)[i] == StepRecord(obs[i].at, obs[i].variables)
  {
    if obs != [] {
      var front := Front(obs);
      forall i | 0 < i < |front| ensures front[i].at.line != front[i - 1].at.line {
        assert obs[i].at.line != obs[i - 1].at.line;
      }
      OneStepPerInstruction(front);
      assert |obs| > 1 ==> obs[|obs| - 1].at.line != obs[|obs| - 2].at.line;
      assert Groups(obs) == Groups(front) + [StepRecord(Last(obs).at, Last(obs).variables)];
    }
  }

  /** Instruction `i`'s own step, the result on the last. */
  function OwnStep(obs: seq<Observation>, i: nat, result: Option<Variable>): Record
    requires i < |obs|
  {
    StepRecord(obs[i].at, obs[i].variables + if i == |obs| - 1 && result.Some? then [result.value] else [])
  }

  predicate OwnSteps(steps: seq<Record>, obs: seq<Observation>, result: Option<Variable>) {
    |steps| == 1 + |obs| && forall i :: 0 <= i < |obs| ==> steps[i + 1] == OwnStep(obs, i, result)
  }

  lemma ExpectedOwnSteps(cfg: Config, obs: seq<Observation>, result: Option<Variable>)
    requires LinesDiffer(obs)
    ensures OwnSteps(Expected(cfg, obs, result), obs, result)
  {
    OneStepPerInstruction(obs);
    var base := [Entry(cfg)] + Groups(obs);
    forall i | 0 <= i < |obs| ensures Expected(cfg, obs, result)[i + 1] == OwnStep(obs, i, result) {
      assert base[i + 1] == Groups(obs)[i] == StepRecord(obs[i].at, obs[i].variables);
      assert obs[i].variables + [] == obs[i].variables;
    }
  }
}
