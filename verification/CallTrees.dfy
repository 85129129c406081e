/** Machine runs as trees of activations, and the theorem that the recorder
    gives the tree back, cut wherever the run stopped. */
module CallTrees {
  import opened Prelude
  import opened Machine
  import opened TraceLog
  import opened FunctionNames
  import opened SourceLevel
  import opened ReturnStack

  /** What one activation of a function executes from some point on. */
  datatype Body =
    | Cut                                              // the run stopped here
    | Leave(step: StepState)                           // jumps back to its return address
    | Halt(step: StepState)                            // `ret` or `retd` ends the script
    | Plain(step: StepState, rest: Body)
    | Call(step: StepState, callee: Body, rest: Body)  // a call, its activation, the resumption

  type Function = nat

  /** Which function each code address belongs to, and the entry addresses. */
  datatype Program = Program(owner: map<u64, Function>, entries: set<u64>)

  predicate Belongs(p: Program, f: Function, addr: u64) {
    addr in p.owner && p.owner[addr] == f
  }

  function First(b: Body): StepState
    requires b != Cut
  {
    b.step
  }

  /** The body runs to its return, and so do all its callees. */
  predicate Complete(b: Body) {
    match b
    case Cut => false
    case Leave(_) => true
    case Halt(_) => false
    case Plain(_, rest) => Complete(rest)
    case Call(_, callee, rest) => Complete(callee) && Complete(rest)
  }

  /** `b` is executed by `f`, to be left for the address `back`: every
      instruction belongs to `f`, a jump to `back` leaves it, a call enters
      another function at an entry address and comes back, once its activation
      has returned, to the address after the call, which is no entry and, if it
      is code at all, belongs to `f`. */
  predicate Executes(p: Program, f: Function, back: u64, b: Body)
    decreases b
  {
    && (b != Cut ==> Belongs(p, f, AbsPc(First(b))))
    && match b
       case Cut => true
       case Leave(s) => JumpsTo(s, back)
       case Halt(s) => EndsScript(s)
       case Plain(s, rest) =>
         && !EndsScript(s) && !SavesAddress(s)
         && !JumpsTo(s, back)
         && Executes(p, f, back, rest)
       case Call(s, callee, rest) =>
         && SavesAddress(s)
         && NextAddress(s) !in p.entries
         && (NextAddress(s) in p.owner ==> Belongs(p, f, NextAddress(s)))
         && (callee != Cut ==>
               && AbsPc(First(callee)) in p.entries && AbsPc(First(callee)) in p.owner
               && p.owner[AbsPc(First(callee))] != f
               && Executes(p, p.owner[AbsPc(First(callee))], NextAddress(s), callee))
         && (rest != Cut ==> Complete(callee) && AbsPc(First(rest)) == NextAddress(s))
         && Executes(p, f, back, rest)
  }

  /** The address an activation of `f` returns to is neither an entry nor `f`'s. */
  predicate Outside(p: Program, f: Function, back: u64) {
    back !in p.entries && !Belongs(p, f, back)
  }

  /** A whole script run: `main`'s activation, whose return address is the
      sentinel no code lives at. */
  predicate ScriptRun(p: Program, main: Function, b: Body) {
    U64_MAX !in p.owner && U64_MAX !in p.entries && Executes(p, main, U64_MAX, b)
  }

  /** The steps the machine single-steps through. */
  function Flatten(b: Body): seq<StepState> {
    match b
    case Cut => []
    case Leave(s) => [s]
    case Halt(s) => [s]
    case Plain(s, rest) => [s] + Flatten(rest)
    case Call(s, callee, rest) => [s] + Flatten(callee) + Flatten(rest)
  }

  // ----- the reference rendering

  /** What the symbols say of the instruction. */
  function SymbolOf(d: Debug, s: StepState): Option<SourceLoc> {
    if s.pc / 4 in d.symbols then Some(d.symbols[s.pc / 4]) else None
  }

  function EntryAt(d: Debug): Position {
    Position(d.entry.path, d.entry.line)
  }

  /** A frame at position `last` moves to the mapped position of `s`. */
  function Moved(d: Debug, s: StepState, last: Option<Position>): Option<Position> {
    match SymbolOf(d, s)
    case None => last
    case Some(loc) => Some(Position(loc.path, loc.line))
  }

  /** The step event of that move, if it is one. */
  function MoveEvents(d: Debug, s: StepState, last: Option<Position>): seq<Request> {
    var next := Moved(d, s, last);
    if next != last then [Step(next.value)] else []
  }

  /** The call event of an activation entered at `s`. */
  function CallEvent(d: Debug, s: StepState): Request {
    var loc := SymbolOf(d, s);
    Request.Call(NameFor(d.files, loc, s.pc / 4), if loc.Some? then Position(loc.value.path, loc.value.line) else EntryAt(d))
  }

  /** The events of the tree itself: each executed activation is one bracket
      named after its entry, holding its own moves; the instruction that leaves
      an activation is silent, and a caller resumes without a position. */
  function Render(d: Debug, b: Body, last: Option<Position>): seq<Request> {
    match b
    case Cut => []
    case Leave(_) => []
    case Halt(_) => []
    case Plain(s, rest) => MoveEvents(d, s, last) + Render(d, rest, Moved(d, s, last))
    case Call(s, callee, rest) => MoveEvents(d, s, last) + Bracket(d, callee) + Render(d, rest, None)
  }

  /** The bracket of a called activation, if it was entered. */
  function Bracket(d: Debug, callee: Body): seq<Request> {
    if callee == Cut then [] else [CallEvent(d, First(callee))] + Render(d, callee, None) + [Request.Return]
  }

  /** The return addresses of the frames open above `b`'s own when it stops. */
  function Open(b: Body): seq<u64> {
    match b
    case Cut => []
    case Leave(_) => []
    case Halt(_) => []
    case Plain(_, rest) => Open(rest)
    case Call(s, callee, rest) =>
      if rest != Cut then Open(rest)
      else if callee == Cut then []
      else [NextAddress(s)] + Open(callee)
  }

  // ----- one step of the simulation

  /** In the frame it belongs to, a step neither closes nor opens frames. */
  lemma StaysInFrame(d: Debug, st: Core, s: StepState)
    requires st.pending.None? && Last(st.frames).returnAddr != AbsPc(s)
    ensures OnStep(d, st, s) == Visit(d, st, s)
  {
  }

  /** Visiting a non-leaving instruction moves its frame as the rendering does. */
  lemma VisitMoves(d: Debug, fs: seq<Frame>, fr: Frame, st: Core, s: StepState)
    requires st.frames == fs + [fr] && st.pending.None?
    requires !LeavesFrame(st, s)
    ensures Visit(d, st, s) == Core(fs + [fr.(last := Moved(d, s, fr.last))],
                                    if SavesAddress(s) then Some(NextAddress(s)) else None,
                                    st.out + MoveEvents(d, s, fr.last))
  {
    assert st.frames[..|st.frames| - 1] == fs;
    assert fr.(last := fr.last) == fr;
    assert st.out + [] == st.out;
  }

  lemma RunFrom(d: Debug, a: Core, b: Core, s: StepState, steps: seq<StepState>)
    requires OnStep(d, a, s) == OnStep(d, b, s)
    ensures Run(d, a, [s] + steps) == Run(d, b, [s] + steps)
  {
    RunAppend(d, a, [s], steps);
    RunAppend(d, b, [s], steps);
    RunOne(d, a, s);
    RunOne(d, b, s);
  }

  lemma FlattenFirst(b: Body)
    requires b != Cut
    ensures Flatten(b) == [First(b)] + Flatten(b)[1..]
  {
  }

  /** What the simulation leaves behind: the frames below and the activation's
      own are where they were, the open callees' are above, and closing those
      completes the rendering. */
  predicate Simulated(d: Debug, b: Body, fs: seq<Frame>, fr: Frame, before: Core, after: Core) {
    && |after.frames| == |fs| + 1 + |Open(b)|
    && after.frames[..|fs|] == fs
    && after.frames[|fs|].returnAddr == fr.returnAddr
    && Addresses(after.frames[|fs| + 1..]) == Open(b)
    && after.out + Returns(|Open(b)|) == before.out + Render(d, b, fr.last)
    && (Complete(b) ==> Open(b) == [] && after.pending.None?)
  }

  /** At its callee's entry, a pending call has opened its frame. */
  lemma EntersCallee(d: Debug, fs: seq<Frame>, fr: Frame, out: seq<Request>, addr: u64, callee: Body)
    requires callee != Cut
    requires fr.returnAddr != AbsPc(First(callee)) && addr != AbsPc(First(callee))
    ensures Run(d, Core(fs + [fr], Some(addr), out), Flatten(callee)) ==
            Run(d, Core(fs + [fr] + [Frame(addr, None)], None, out + [CallEvent(d, First(callee))]), Flatten(callee))
  {
    FlattenFirst(callee);
    RunFrom(d, Core(fs + [fr], Some(addr), out),
            Core(fs + [fr] + [Frame(addr, None)], None, out + [CallEvent(d, First(callee))]),
            First(callee), Flatten(callee)[1..]);
  }

  /** Back at the return address, exactly the callee's frame is closed. */
  lemma ResumesCaller(d: Debug, fs: seq<Frame>, fr: Frame, top: Frame, out: seq<Request>, rest: Body)
    requires rest != Cut
    requires top.returnAddr == AbsPc(First(rest)) && fr.returnAddr != AbsPc(First(rest))
    ensures Run(d, Core(fs + [fr] + [top], None, out), Flatten(rest)) ==
            Run(d, Core(fs + [fr.(last := None)], None, out + [Request.Return]), Flatten(rest))
  {
    var st := Core(fs + [fr] + [top], None, out);
    var popped := Core(fs + [fr.(last := None)], None, out + [Request.Return]);
    assert st.frames[..|st.frames| - 2] == fs;
    assert PopFrame(st) == popped;
    assert PopReturns(popped, AbsPc(First(rest))) == popped;
    FlattenFirst(rest);
    RunFrom(d, st, popped, First(rest), Flatten(rest)[1..]);
  }

  lemma SimulateOne(d: Debug, fs: seq<Frame>, fr: Frame, st: Core, s: StepState, more: seq<StepState>)
    requires st.frames == fs + [fr] && st.pending.None?
    requires AbsPc(s) != fr.returnAddr && !LeavesFrame(st, s)
    ensures Run(d, st, [s] + more) ==
            Run(d, Core(fs + [fr.(last := Moved(d, s, fr.last))],
                        if SavesAddress(s) then Some(NextAddress(s)) else None,
                        st.out + MoveEvents(d, s, fr.last)), more)
  {
    StaysInFrame(d, st, s);
    VisitMoves(d, fs, fr, st, s);
    RunOne(d, st, s);
    RunAppend(d, st, [s], more);
  }

  lemma SimulateExit(d: Debug, fs: seq<Frame>, fr: Frame, st: Core, s: StepState)
    requires st.frames == fs + [fr] && st.pending.None?
    requires AbsPc(s) != fr.returnAddr
    requires EndsScript(s) || (JumpsTo(s, fr.returnAddr))
    ensures Run(d, st, [s]) == st
  {
    StaysInFrame(d, st, s);
    RunOne(d, st, s);
  }

  lemma OpenFramesAbove(frames: seq<Frame>, fs: seq<Frame>, moved: Frame, addr: u64, open: seq<u64>)
    requires |frames| == |fs| + 2 + |open|
    requires frames[..|fs| + 1] == fs + [moved] && frames[|fs| + 1].returnAddr == addr
    requires Addresses(frames[|fs| + 2..]) == open
    ensures frames[..|fs|] == fs && frames[|fs|] == moved
    ensures Addresses(frames[|fs| + 1..]) == [addr] + open
  {
    var n := |fs|;
    assert frames[..n] == frames[..n + 1][..n];
    assert frames[n] == frames[..n + 1][n];
    forall i | 0 <= i < |open| ensures frames[n + 2 + i].returnAddr == open[i] {
      assert Addresses(frames[n + 2..])[i] == open[i];
    }
  }

  /** The rendering of a call whose activation has been entered. */
  lemma RenderOfCall(d: Debug, b: Body, last: Option<Position>)
    requires b.Call? && b.callee != Cut
    ensures Render(d, b, last) == MoveEvents(d, b.step, last) + ([CallEvent(d, First(b.callee))]
                + Render(d, b.callee, None) + [Request.Return]) + Render(d, b.rest, None)
  {
  }

  /** A run that stops inside a callee has its frame open above the caller's. */
  lemma StopInCallee(d: Debug, b: Body, fs: seq<Frame>, fr: Frame, st: Core,
                     moved: Frame, out1: seq<Request>, after: Core)
    requires b.Call? && b.callee != Cut && b.rest == Cut
    requires moved.returnAddr == fr.returnAddr && out1 == st.out + MoveEvents(d, b.step, fr.last)
    requires Simulated(d, b.callee, fs + [moved], Frame(NextAddress(b.step), None),
                       Core(fs + [moved] + [Frame(NextAddress(b.step), None)], None,
                            out1 + [CallEvent(d, First(b.callee))]), after)
    ensures Simulated(d, b, fs, fr, st, after)
  {
    var k := |Open(b.callee)|;
    var inner := Render(d, b.callee, None);
    assert !Complete(b) by { assert !Complete(b.rest); }
    OpenFramesAbove(after.frames, fs, moved, NextAddress(b.step), Open(b.callee));
    assert after.out + Returns(k + 1) == st.out + Render(d, b, fr.last) by {
      assert Returns(k + 1) == Returns(k) + [Request.Return];
      assert after.out + Returns(k + 1) == (after.out + Returns(k)) + [Request.Return];
      RenderOfCall(d, b, fr.last);
      assert Render(d, b.rest, None) == [];
    }
  }

  lemma Unmoved(d: Debug, b: Body, fs: seq<Frame>, fr: Frame, st: Core)
    requires b.Cut? || b.Leave? || b.Halt?
    requires st.frames == fs + [fr] && st.pending.None?
    ensures Simulated(d, b, fs, fr, st, st)
  {
    assert st.out + Returns(0) == st.out + Render(d, b, fr.last);
  }

  lemma AfterMove(d: Debug, b: Body, fs: seq<Frame>, fr: Frame, st: Core, next: Core, after: Core)
    requires b.Plain?
    requires next.out == st.out + MoveEvents(d, b.step, fr.last)
    requires Simulated(d, b.rest, fs, fr.(last := Moved(d, b.step, fr.last)), next, after)
    ensures Simulated(d, b, fs, fr, st, after)
  {
    assert next.out + Render(d, b.rest, Moved(d, b.step, fr.last)) == st.out + Render(d, b, fr.last);
  }

  lemma CallNotEntered(d: Debug, b: Body, fs: seq<Frame>, fr: Frame, st: Core)
    requires b.Call? && b.callee == Cut && b.rest == Cut
    ensures Simulated(d, b, fs, fr, st,
                      Core(fs + [fr.(last := Moved(d, b.step, fr.last))], Some(NextAddress(b.step)),
                           st.out + MoveEvents(d, b.step, fr.last)))
  {
    assert !Complete(b.callee);
    assert st.out + MoveEvents(d, b.step, fr.last) + Returns(0) == st.out + Render(d, b, fr.last);
  }

  /** Once the callee has returned, the resumption is as if its frame were
      closed already. */
  lemma CalleeDone(d: Debug, b: Body, fs: seq<Frame>, fr: Frame, st: Core,
                   moved: Frame, out1: seq<Request>, returned: Core)
    requires b.Call? && Complete(b.callee) && b.rest != Cut && AbsPc(First(b.rest)) == NextAddress(b.step)
    requires moved.returnAddr != NextAddress(b.step) && out1 == st.out + MoveEvents(d, b.step, fr.last)
    requires Simulated(d, b.callee, fs + [moved], Frame(NextAddress(b.step), None),
                       Core(fs + [moved] + [Frame(NextAddress(b.step), None)], None,
                            out1 + [CallEvent(d, First(b.callee))]), returned)
    ensures Run(d, returned, Flatten(b.rest)) ==
            Run(d, Core(fs + [moved.(last := None)], None, returned.out + [Request.Return]), Flatten(b.rest))
    ensures returned.out + [Request.Return] + Render(d, b.rest, None) == st.out + Render(d, b, fr.last)
  {
    var top := returned.frames[|fs| + 1];
    assert returned.frames == returned.frames[..|fs| + 1] + [top];
    assert returned == Core(fs + [moved] + [top], None, returned.out);
    ResumesCaller(d, fs, moved, top, returned.out, b.rest);
    assert returned.out + Returns(0) == returned.out;
    RenderResumed(d, b, fr.last, st.out, returned.out);
  }

  lemma AfterResumption(d: Debug, b: Body, fs: seq<Frame>, fr: Frame, st: Core, resumed: Core, after: Core)
    requires b.Call? && b.rest != Cut && Complete(b.callee)
    requires resumed.out + Render(d, b.rest, None) == st.out + Render(d, b, fr.last)
    requires Simulated(d, b.rest, fs, fr.(last := None), resumed, after)
    ensures Simulated(d, b, fs, fr, st, after)
  {
  }

  /** The rendering of a call, once its callee has returned. */
  lemma RenderResumed(d: Debug, b: Body, last: Option<Position>, before: seq<Request>, returned: seq<Request>)
    requires b.Call? && b.callee != Cut
    requires returned == before + MoveEvents(d, b.step, last) + [CallEvent(d, First(b.callee))] + Render(d, b.callee, None)
    ensures returned + [Request.Return] + Render(d, b.rest, None) == before + Render(d, b, last)
  {
    Regroup6(before, MoveEvents(d, b.step, last), [CallEvent(d, First(b.callee))], Render(d, b.callee, None),
             [Request.Return], Render(d, b.rest, None));
  }

  /** The recorder simulates an activation from any point of it. */
  lemma {:induction false} Simulate(d: Debug, p: Program, f: Function, b: Body, fs: seq<Frame>, fr: Frame, st: Core)
    requires Executes(p, f, fr.returnAddr, b) && Outside(p, f, fr.returnAddr)
    requires st.frames == fs + [fr] && st.pending.None?
    ensures Simulated(d, b, fs, fr, st, Run(d, st, Flatten(b)))
    decreases b, 2
  {
    match b {
      case Cut =>
        Unmoved(d, b, fs, fr, st);
      case Leave(s) =>
        SimulateExit(d, fs, fr, st, s);
        Unmoved(d, b, fs, fr, st);
      case Halt(s) =>
        SimulateExit(d, fs, fr, st, s);
        Unmoved(d, b, fs, fr, st);
      case Plain(s, rest) =>
        SimulatePlain(d, p, f, b, fs, fr, st);
      case Call(s, callee, rest) =>
        SimulateCall(d, p, f, b, fs, fr, st);
    }
  }

  lemma {:induction false} SimulatePlain(
      d: Debug, p: Program, f: Function, b: Body, fs: seq<Frame>, fr: Frame, st: Core)
    requires b.Plain?
    requires Executes(p, f, fr.returnAddr, b) && Outside(p, f, fr.returnAddr)
    requires st.frames == fs + [fr] && st.pending.None?
    ensures Simulated(d, b, fs, fr, st, Run(d, st, Flatten(b)))
    decreases b, 1
  {
    var moved := fr.(last := Moved(d, b.step, fr.last));
    var next := Core(fs + [moved], None, st.out + MoveEvents(d, b.step, fr.last));
    SimulateOne(d, fs, fr, st, b.step, Flatten(b.rest));
    Simulate(d, p, f, b.rest, fs, moved, next);
    AfterMove(d, b, fs, fr, st, next, Run(d, next, Flatten(b.rest)));
  }

  lemma FlattenCall(b: Body)
    requires b.Call?
    ensures Flatten(b) == [b.step] + (Flatten(b.callee) + Flatten(b.rest))
  {
  }

  /** The run of a call is that of its activation, then of its resumption. */
  lemma SplitCall(d: Debug, fs: seq<Frame>, fr: Frame, st: Core, b: Body)
    requires b.Call? && SavesAddress(b.step) && AbsPc(b.step) != fr.returnAddr
    requires st.frames == fs + [fr] && st.pending.None?
    ensures var called := Core(fs + [fr.(last := Moved(d, b.step, fr.last))], Some(NextAddress(b.step)),
                               st.out + MoveEvents(d, b.step, fr.last));
            Run(d, st, Flatten(b)) == Run(d, Run(d, called, Flatten(b.callee)), Flatten(b.rest))
  {
    var called := Core(fs + [fr.(last := Moved(d, b.step, fr.last))], Some(NextAddress(b.step)),
                       st.out + MoveEvents(d, b.step, fr.last));
    var callee, rest := Flatten(b.callee), Flatten(b.rest);
    SimulateOne(d, fs, fr, st, b.step, callee + rest);
    FlattenCall(b);
    RunAppend(d, called, callee, rest);
  }

  lemma {:induction false} SimulateCallee(
      d: Debug, p: Program, f: Function, b: Body, fs: seq<Frame>, moved: Frame, out1: seq<Request>)
    requires b.Call? && b.callee != Cut
    requires Executes(p, f, moved.returnAddr, b) && Outside(p, f, moved.returnAddr)
    ensures Simulated(d, b.callee, fs + [moved], Frame(NextAddress(b.step), None),
                      Core(fs + [moved] + [Frame(NextAddress(b.step), None)], None,
                           out1 + [CallEvent(d, First(b.callee))]),
                      Run(d, Core(fs + [moved], Some(NextAddress(b.step)), out1), Flatten(b.callee)))
    decreases b, 0
  {
    var top := Frame(NextAddress(b.step), None);
    var entry := AbsPc(First(b.callee));
    EntersCallee(d, fs, moved, out1, NextAddress(b.step), b.callee);
    Simulate(d, p, p.owner[entry], b.callee, fs + [moved], top,
             Core(fs + [moved] + [top], None, out1 + [CallEvent(d, First(b.callee))]));
  }

  lemma {:induction false} SimulateCall(
      d: Debug, p: Program, f: Function, b: Body, fs: seq<Frame>, fr: Frame, st: Core)
    requires b.Call?
    requires Executes(p, f, fr.returnAddr, b) && Outside(p, f, fr.returnAddr)
    requires st.frames == fs + [fr] && st.pending.None?
    ensures Simulated(d, b, fs, fr, st, Run(d, st, Flatten(b)))
    decreases b, 1
  {
    var moved := fr.(last := Moved(d, b.step, fr.last));
    var out1 := st.out + MoveEvents(d, b.step, fr.last);
    var returned := Run(d, Core(fs + [moved], Some(NextAddress(b.step)), out1), Flatten(b.callee));
    SplitCall(d, fs, fr, st, b);
    if b.callee == Cut {
      CallNotEntered(d, b, fs, fr, st);
    } else {
      SimulateCallee(d, p, f, b, fs, moved, out1);
      if b.rest == Cut {
        StopInCallee(d, b, fs, fr, st, moved, out1, returned);
      } else {
        SimulateRest(d, p, f, b, fs, fr, st, moved, out1, returned);
      }
    }
  }

  lemma {:induction false} SimulateRest(
      d: Debug, p: Program, f: Function, b: Body, fs: seq<Frame>, fr: Frame, st: Core,
      moved: Frame, out1: seq<Request>, returned: Core)
    requires b.Call? && b.callee != Cut && b.rest != Cut
    requires Executes(p, f, fr.returnAddr, b) && Outside(p, f, fr.returnAddr)
    requires moved.returnAddr == fr.returnAddr && out1 == st.out + MoveEvents(d, b.step, fr.last)
    requires Simulated(d, b.callee, fs + [moved], Frame(NextAddress(b.step), None),
                       Core(fs + [moved] + [Frame(NextAddress(b.step), None)], None,
                            out1 + [CallEvent(d, First(b.callee))]), returned)
    requires moved == fr.(last := moved.last)
    ensures Simulated(d, b, fs, fr, st, Run(d, returned, Flatten(b.rest)))
    decreases b, 0
  {
    var resumed := Core(fs + [moved.(last := None)], None, returned.out + [Request.Return]);
    CalleeDone(d, b, fs, fr, st, moved, out1, returned);
    Simulate(d, p, f, b.rest, fs, moved.(last := None), resumed);
    AfterResumption(d, b, fs, fr, st, resumed, Run(d, resumed, Flatten(b.rest)));
  }

  // ----- the main theorems

  lemma SimulateScript(d: Debug, p: Program, main: Function, b: Body)
    requires ScriptRun(p, main, b)
    ensures Simulated(d, b, [], Frame(U64_MAX, Some(EntryAt(d))), Initial(d), Run(d, Initial(d), Flatten(b)))
  {
    Simulate(d, p, main, b, [], Frame(U64_MAX, Some(EntryAt(d))), Initial(d));
  }

  /** The trace of a run, stopped anywhere, is the rendering of its tree. */
  lemma {:induction false} TraceIsRenderedTree(d: Debug, p: Program, main: Function, b: Body)
    requires ScriptRun(p, main, b)
    ensures Trace(d, Flatten(b)) ==
            [Start(EntryAt(d))] + Render(d, b, Some(EntryAt(d))) + [Request.Return]
  {
    SimulateScript(d, p, main, b);
    var st := Run(d, Initial(d), Flatten(b));
    var k := |Open(b)|;
    assert Returns(k + 1) == Returns(k) + [Request.Return];
    assert st.out + Returns(k + 1) == (st.out + Returns(k)) + [Request.Return];
  }

  /** The tree of the first `k` steps of `b`. */
  function CutAt(b: Body, k: nat): Body
    requires k <= |Flatten(b)|
  {
    if k == 0 then Cut
    else
      match b
      case Leave(_) => b
      case Halt(_) => b
      case Plain(s, rest) => Plain(s, CutAt(rest, k - 1))
      case Call(s, callee, rest) =>
        var n := |Flatten(callee)|;
        if k - 1 <= n then Body.Call(s, CutAt(callee, k - 1), Cut) else Body.Call(s, callee, CutAt(rest, k - 1 - n))
  }

  lemma CutFirst(b: Body, k: nat)
    requires 0 < k <= |Flatten(b)|
    ensures b != Cut && CutAt(b, k) != Cut && First(CutAt(b, k)) == First(b)
  {
  }

  lemma {:induction false} CutFlattens(b: Body, k: nat)
    requires k <= |Flatten(b)|
    ensures Flatten(CutAt(b, k)) == Flatten(b)[..k]
    decreases b
  {
    if k > 0 && b.Plain? {
      CutFlattens(b.rest, k - 1);
    } else if k > 0 && b.Call? {
      var n := |Flatten(b.callee)|;
      assert Flatten(b) == [b.step] + Flatten(b.callee) + Flatten(b.rest);
      if k - 1 <= n {
        CutFlattens(b.callee, k - 1);
        assert Flatten(CutAt(b, k)) == [b.step] + Flatten(b.callee)[..k - 1];
      } else {
        CutFlattens(b.rest, k - 1 - n);
        assert Flatten(CutAt(b, k)) == [b.step] + Flatten(b.callee) + Flatten(b.rest)[..k - 1 - n];
      }
    }
  }

  lemma {:induction false} CutAtExecutes(p: Program, f: Function, back: u64, b: Body, k: nat)
    requires Executes(p, f, back, b) && k <= |Flatten(b)|
    ensures Executes(p, f, back, CutAt(b, k))
    decreases b
  {
    if k > 0 {
      CutFirst(b, k);
      if b.Plain? {
        CutAtExecutes(p, f, back, b.rest, k - 1);
      } else if b.Call? {
        var n := |Flatten(b.callee)|;
        if k - 1 <= n {
          if k > 1 {
            CutFirst(b.callee, k - 1);
            CutAtExecutes(p, p.owner[AbsPc(First(b.callee))], NextAddress(b.step), b.callee, k - 1);
          }
        } else {
          CutFirst(b.rest, k - 1 - n);
          CutAtExecutes(p, f, back, b.rest, k - 1 - n);
        }
      }
    }
  }

  /** Stopping a run after any `k` steps, as a panic or revert does, records
      the tree cut at that point. */
  lemma {:induction false} PrefixTraceIsCutTree(d: Debug, p: Program, main: Function, b: Body, k: nat)
    requires ScriptRun(p, main, b) && k <= |Flatten(b)|
    ensures Trace(d, Flatten(b)[..k]) ==
            [Start(EntryAt(d))] + Render(d, CutAt(b, k), Some(EntryAt(d))) + [Request.Return]
  {
    CutAtExecutes(p, main, U64_MAX, b, k);
    CutFlattens(b, k);
    TraceIsRenderedTree(d, p, main, CutAt(b, k));
  }

  /** Cutting `b` after `k` steps keeps `n` events and closes the open frames. */
  predicate CutKeeps(d: Debug, b: Body, last: Option<Position>, k: nat, n: nat)
    requires k <= |Flatten(b)|
  {
    && n <= |Render(d, b, last)|
    && Render(d, CutAt(b, k), last) == Render(d, b, last)[..n] + Returns(|Open(CutAt(b, k))|)
  }

  /** Cutting a tree cuts its rendering, and closes the frames then open. */
  lemma {:induction false} CutRendering(d: Debug, b: Body, last: Option<Position>, k: nat) returns (n: nat)
    requires k <= |Flatten(b)|
    ensures CutKeeps(d, b, last, k, n)
    decreases b, 1
  {
    if k == 0 || b.Leave? || b.Halt? {
      n := 0;
      CutAtStart(d, b, last, k);
    } else if b.Plain? {
      var m := CutRendering(d, b.rest, Moved(d, b.step, last), k - 1);
      n := |MoveEvents(d, b.step, last)| + m;
      CutInPlain(d, b, last, k, m);
    } else if k == 1 {
      n := |MoveEvents(d, b.step, last)|;
      CutBeforeCallee(d, b, last);
    } else if k - 1 <= |Flatten(b.callee)| {
      n := CutRenderingInCallee(d, b, last, k);
    } else {
      n := CutRenderingInRest(d, b, last, k);
    }
  }

  lemma {:induction false} CutRenderingInCallee(d: Debug, b: Body, last: Option<Position>, k: nat) returns (n: nat)
    requires b.Call? && 1 < k <= |Flatten(b)| && k - 1 <= |Flatten(b.callee)|
    ensures CutKeeps(d, b, last, k, n)
    decreases b, 0
  {
    var m := CutRendering(d, b.callee, None, k - 1);
    n := |MoveEvents(d, b.step, last)| + 1 + m;
    CutInCallee(d, b, last, k, m);
  }

  lemma {:induction false} CutRenderingInRest(d: Debug, b: Body, last: Option<Position>, k: nat) returns (n: nat)
    requires b.Call? && 1 < k <= |Flatten(b)| && k - 1 > |Flatten(b.callee)|
    ensures CutKeeps(d, b, last, k, n)
    decreases b, 0
  {
    var m := CutRendering(d, b.rest, None, k - 1 - |Flatten(b.callee)|);
    n := |MoveEvents(d, b.step, last)| + |Bracket(d, b.callee)| + m;
    CutInRest(d, b, last, k, m);
  }

  lemma CutAtStart(d: Debug, b: Body, last: Option<Position>, k: nat)
    requires k <= |Flatten(b)| && (k == 0 || b.Leave? || b.Halt?)
    ensures CutKeeps(d, b, last, k, 0)
  {
    assert Render(d, b, last)[..0] + Returns(0) == [];
  }

  lemma CutTail(head: seq<Request>, tail: seq<Request>, m: nat, closing: seq<Request>)
    requires m <= |tail|
    ensures (head + tail)[..|head| + m] + closing == head + (tail[..m] + closing)
  {
  }

  lemma CutInPlain(d: Debug, b: Body, last: Option<Position>, k: nat, m: nat)
    requires b.Plain? && 0 < k <= |Flatten(b)|
    requires CutKeeps(d, b.rest, Moved(d, b.step, last), k - 1, m)
    ensures CutKeeps(d, b, last, k, |MoveEvents(d, b.step, last)| + m)
  {
    CutTail(MoveEvents(d, b.step, last), Render(d, b.rest, Moved(d, b.step, last)), m,
            Returns(|Open(CutAt(b, k))|));
  }

  lemma CutBeforeCallee(d: Debug, b: Body, last: Option<Position>)
    requires b.Call?
    ensures CutKeeps(d, b, last, 1, |MoveEvents(d, b.step, last)|)
  {
    assert CutAt(b, 1) == Body.Call(b.step, Cut, Cut) by { assert CutAt(b.callee, 0) == Cut; }
  }

  lemma CutInCallee(d: Debug, b: Body, last: Option<Position>, k: nat, m: nat)
    requires b.Call? && 1 < k <= |Flatten(b)| && k - 1 <= |Flatten(b.callee)|
    requires CutKeeps(d, b.callee, None, k - 1, m)
    ensures CutKeeps(d, b, last, k, |MoveEvents(d, b.step, last)| + 1 + m)
  {
    CutOfCall(d, b, last, k);
    CutBracket(MoveEvents(d, b.step, last), CallEvent(d, First(b.callee)), Render(d, b.callee, None),
               Render(d, b.rest, None), m, |Open(CutAt(b.callee, k - 1))|);
  }

  lemma CutBracket(moves: seq<Request>, call: Request, whole: seq<Request>, tail: seq<Request>, m: nat, j: nat)
    requires m <= |whole|
    ensures (moves + ([call] + whole + [Request.Return]) + tail)[..|moves| + 1 + m] + Returns(j + 1) ==
            moves + ([call] + (whole[..m] + Returns(j)) + [Request.Return])
  {
    assert (moves + ([call] + whole + [Request.Return]) + tail)[..|moves| + 1 + m] == moves + [call] + whole[..m];
    assert Returns(j + 1) == Returns(j) + [Request.Return];
  }

  lemma CutOfCall(d: Debug, b: Body, last: Option<Position>, k: nat)
    requires b.Call? && 1 < k <= |Flatten(b)| && k - 1 <= |Flatten(b.callee)|
    ensures b.callee != Cut
    ensures |Open(CutAt(b, k))| == |Open(CutAt(b.callee, k - 1))| + 1
    ensures Render(d, CutAt(b, k), last) ==
            MoveEvents(d, b.step, last) + ([CallEvent(d, First(b.callee))]
              + Render(d, CutAt(b.callee, k - 1), None) + [Request.Return])
  {
    CutFirst(b.callee, k - 1);
    assert CutAt(b, k) == Body.Call(b.step, CutAt(b.callee, k - 1), Cut);
  }

  lemma CutInRest(d: Debug, b: Body, last: Option<Position>, k: nat, m: nat)
    requires b.Call? && 1 < k <= |Flatten(b)| && k - 1 > |Flatten(b.callee)|
    requires CutKeeps(d, b.rest, None, k - 1 - |Flatten(b.callee)|, m)
    ensures CutKeeps(d, b, last, k, |MoveEvents(d, b.step, last)| + |Bracket(d, b.callee)| + m)
  {
    var cut := CutAt(b.rest, k - 1 - |Flatten(b.callee)|);
    CutFirst(b.rest, k - 1 - |Flatten(b.callee)|);
    assert CutAt(b, k) == Body.Call(b.step, b.callee, cut);
    CutTail(MoveEvents(d, b.step, last) + Bracket(d, b.callee), Render(d, b.rest, None), m, Returns(|Open(cut)|));
  }

  lemma Enclose(start: Request, whole: seq<Request>, m: nat, j: nat)
    requires m <= |whole|
    ensures [start] + (whole[..m] + Returns(j)) + [Request.Return] ==
            ([start] + whole + [Request.Return])[..1 + m] + Returns(j + 1)
  {
    assert ([start] + whole + [Request.Return])[..1 + m] == [start] + whole[..m];
    assert Returns(j + 1) == Returns(j) + [Request.Return];
  }

  /** The trace of a stopped run is a prefix of the whole run's, then one
      return for each frame open at the stop, innermost first. */
  lemma {:induction false} StoppedTraceIsPrefix(d: Debug, p: Program, main: Function, b: Body, k: nat) returns (n: nat)
    requires ScriptRun(p, main, b) && k <= |Flatten(b)|
    ensures n <= |Trace(d, Flatten(b))|
    ensures Trace(d, Flatten(b)[..k]) ==
            Trace(d, Flatten(b))[..n] + Returns(|Open(CutAt(b, k))| + 1)
  {
    var at := EntryAt(d);
    PrefixTraceIsCutTree(d, p, main, b, k);
    TraceIsRenderedTree(d, p, main, b);
    var m := CutRendering(d, b, Some(at), k);
    n := 1 + m;
    Enclose(Start(at), Render(d, b, Some(at)), m, |Open(CutAt(b, k))|);
  }

  // ----- the machine's own stack of return addresses

  lemma {:induction false} ShadowAppend(base: seq<u64>, a: seq<StepState>, b: seq<StepState>)
    ensures ShadowStack(base, a + b) == ShadowStack(ShadowStack(base, a), b)
  {
    if b == [] {
      assert a + b == a;
    } else {
      ShadowAppend(base, a, Front(b));
      assert Front(a + b) == a + Front(b);
    }
  }

  lemma ShadowOne(base: seq<u64>, s: StepState, more: seq<StepState>)
    ensures ShadowStack(base, [s] + more) == ShadowStack(ShadowStack(base, [s]), more)
    ensures SavesAddress(s) ==> ShadowStack(base, [s]) == base + [NextAddress(s)]
    ensures !SavesAddress(s) && !ReturnsFrom(base, s) ==> ShadowStack(base, [s]) == base
  {
    ShadowAppend(base, [s], more);
    assert [s][..0] == [];
  }

  /** A finished activation has dropped its own return address. */
  lemma {:induction false} ShadowOfComplete(p: Program, f: Function, back: u64, b: Body, base: seq<u64>)
    requires Executes(p, f, back, b) && Outside(p, f, back) && Complete(b) && base != []
    ensures ShadowStack(base + [back], Flatten(b)) == base
    decreases b
  {
    match b {
      case Leave(s) =>
        assert [s][..0] == [];
      case Plain(s, rest) =>
        ShadowOne(base + [back], s, Flatten(rest));
        ShadowOfComplete(p, f, back, rest, base);
      case Call(s, callee, rest) =>
        assert Flatten(b) == [s] + (Flatten(callee) + Flatten(rest));
        ShadowAcrossCall(p, f, back, b, base, Flatten(rest));
        ShadowOfComplete(p, f, back, rest, base);
    }
  }

  lemma {:induction false} ShadowAcrossCall(
      p: Program, f: Function, back: u64, b: Body, base: seq<u64>, more: seq<StepState>)
    requires b.Call? && Executes(p, f, back, b) && Complete(b.callee)
    ensures ShadowStack(base + [back], [b.step] + (Flatten(b.callee) + more)) == ShadowStack(base + [back], more)
    decreases b, 0
  {
    var addr := NextAddress(b.step);
    ShadowOne(base + [back], b.step, Flatten(b.callee) + more);
    ShadowAppend(base + [back] + [addr], Flatten(b.callee), more);
    ShadowOfComplete(p, p.owner[AbsPc(First(b.callee))], addr, b.callee, base + [back]);
  }

  /** When the last instruction is about to run, the machine holds the return
      addresses of the activations then open. */
  predicate HoldsOpen(b: Body, base: seq<u64>)
    requires b != Cut
  {
    ShadowStack(base, Front(Flatten(b))) == base + Open(b)
  }

  lemma {:induction false} ShadowIsOpen(p: Program, f: Function, back: u64, b: Body, base: seq<u64>)
    requires Executes(p, f, back, b) && Outside(p, f, back) && b != Cut
    ensures HoldsOpen(b, base + [back])
    decreases b
  {
    if b.Plain? && b.rest != Cut {
      ShadowIsOpen(p, f, back, b.rest, base);
      HoldsAcross(b);
      ShadowOne(base + [back], b.step, Front(Flatten(b.rest)));
    } else if b.Call? && b.callee != Cut && b.rest == Cut {
      ShadowIsOpen(p, p.owner[AbsPc(First(b.callee))], NextAddress(b.step), b.callee, base + [back]);
      HoldsInCallee(b, base + [back]);
    } else if b.Call? && b.callee != Cut {
      ShadowIsOpen(p, f, back, b.rest, base);
      HoldsAcross(b);
      ShadowAcrossCall(p, f, back, b, base, Front(Flatten(b.rest)));
    } else {
      assert Front(Flatten(b)) == [] by { assert b.Call? ==> !Complete(b.callee); }
    }
  }

  lemma HoldsAcross(b: Body)
    requires b.Plain? || b.Call?
    requires b.rest != Cut
    ensures Flatten(b) != [] && Flatten(b.rest) != []
    ensures b.Plain? ==> Front(Flatten(b)) == [b.step] + Front(Flatten(b.rest))
    ensures b.Call? ==> Front(Flatten(b)) == [b.step] + (Flatten(b.callee) + Front(Flatten(b.rest)))
    ensures Open(b) == Open(b.rest)
  {
    FlattenFirst(b.rest);
    FrontOfConcat(b.step, if b.Plain? then [] else Flatten(b.callee), Flatten(b.rest));
  }

  lemma HoldsInCallee(b: Body, base: seq<u64>)
    requires b.Call? && b.callee != Cut && b.rest == Cut && SavesAddress(b.step)
    requires HoldsOpen(b.callee, base + [NextAddress(b.step)])
    ensures HoldsOpen(b, base)
  {
    FlattenFirst(b.callee);
    FrontOfConcat(b.step, [], Flatten(b.callee));
    assert Flatten(b) == [b.step] + Flatten(b.callee);
    ShadowOne(base, b.step, Front(Flatten(b.callee)));
  }

  /** At every step, the recorder's frames hold exactly the return addresses
      the machine holds when that step's instruction is about to run. */
  lemma {:induction false} FramesAreShadowStack(d: Debug, p: Program, main: Function, b: Body, k: nat)
    requires ScriptRun(p, main, b) && k < |Flatten(b)|
    ensures FramesFollow(d, Flatten(b), k)
  {
    CutAtExecutes(p, main, U64_MAX, b, k + 1);
    CutFlattens(b, k + 1);
    var c := CutAt(b, k + 1);
    assert Front(Flatten(c)) == Flatten(b)[..k];
    ShadowIsOpen(p, main, U64_MAX, c, []);
    assert [] + [U64_MAX] == [U64_MAX];
    SimulateScript(d, p, main, c);
    BottomAddress(Run(d, Initial(d), Flatten(c)).frames, Open(c));
  }

  /** So the call convention makes every instruction of a script run arrive: no
      activation runs an instruction at its own return address. */
  lemma {:induction false} ScriptRunsArrive(d: Debug, p: Program, main: Function, b: Body, k: nat)
    requires ScriptRun(p, main, b) && 0 < k < |Flatten(b)|
    ensures Arrives(Flatten(b), k)
  {
    FramesAreShadowStack(d, p, main, b, k - 1);
    FramesAreShadowStack(d, p, main, b, k);
    FollowOn(d, Flatten(b), k);
  }

  lemma BottomAddress(frames: seq<Frame>, open: seq<u64>)
    requires frames != [] && frames[0].returnAddr == U64_MAX && Addresses(frames[1..]) == open
    ensures Addresses(frames) == [U64_MAX] + open
  {
    forall i | 1 <= i < |frames| ensures Addresses(frames)[i] == open[i - 1] {
      assert frames[i] == frames[1..][i - 1];
    }
  }
}
