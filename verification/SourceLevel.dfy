/** The source-level recorder: the frame and step state machine that turns raw
    instructions into calls, steps and returns, as functions on values. */
module SourceLevel {
  import opened Prelude
  import opened Machine
  import opened TraceLog
  import opened FunctionNames

  /** The debug symbols of a recording: the source map, its first entry, and
      the readable source files as lists of lines. */
  datatype Debug = Debug(
    symbols: map<nat, SourceLoc>,
    entry: SourceLoc,
    files: map<Path, seq<string>>)

  function Lookup(d: Debug, index: nat): Option<SourceLoc> {
    if index in d.symbols then Some(d.symbols[index]) else None
  }

  // ----- the frame machine

  datatype Frame = Frame(returnAddr: u64, last: Option<Position>)

  /** The recorder between two steps: the open frames (innermost last), the
      return address of a call whose callee has not run yet, and the calls,
      steps and returns written so far. */
  datatype CoreState = Core(frames: seq<Frame>, pending: Option<u64>, out: seq<Request>)

  /** The bottom frame is never popped. */
  type Core = c: CoreState | c.frames != [] witness Core([Frame(0, None)], None, [])

  function Initial(d: Debug): Core {
    Core([Frame(U64_MAX, Some(PositionOf(d.entry)))], None, [Start(PositionOf(d.entry))])
  }

  /** Closes the innermost frame; its caller's position is forgotten. */
  function PopFrame(st: Core): Core
    requires |st.frames| > 1
  {
    var n := |st.frames|;
    Core(st.frames[..n - 2] + [st.frames[n - 2].(last := None)], st.pending, st.out + [Request.Return])
  }

  /** Closes frames while the innermost one returns to `pc`. */
  function PopReturns(st: Core, pc: u64): Core
    decreases |st.frames|
  {
    if |st.frames| > 1 && Last(st.frames).returnAddr == pc then PopReturns(PopFrame(st), pc) else st
  }

  /** Opens the frame of a pending call at its callee's first instruction. */
  function EnterCall(d: Debug, st: Core, index: nat): Core {
    match st.pending
    case None => st
    case Some(addr) =>
      var loc := Lookup(d, index);
      var at := if loc.Some? then loc.value else d.entry;
      Core(st.frames + [Frame(addr, None)], None,
           st.out + [Request.Call(NameFor(d.files, loc, index), PositionOf(at))])
  }

  predicate IsCall(s: StepState) {
    s.instruction.Some? && s.instruction.value.JAL? && s.instruction.value.link != ZERO
  }

  predicate IsJump(s: StepState) {
    s.instruction.Some? && s.instruction.value.JAL? && s.instruction.value.link == ZERO
  }

  predicate IsHalt(s: StepState) {
    s.instruction.Some? && (s.instruction.value.RET? || s.instruction.value.RETD?)
  }

  function JumpTarget(s: StepState): u64
    requires IsJump(s)
  {
    Wrap64(s.registers[s.instruction.value.target] + s.instruction.value.offset * 4)
  }

  function ReturnAddress(s: StepState): u64 {
    Wrap64(AbsPc(s) + 4)
  }

  predicate LeavesFrame(st: Core, s: StepState) {
    IsHalt(s) || (IsJump(s) && JumpTarget(s) == Last(st.frames).returnAddr)
  }

  /** Exactly these instructions leave the innermost frame: the ends of a script,
      and a `jal` that saves nothing and whose target register holds, four times
      the offset added, the frame's return address. */
  lemma LeavesExactly(st: Core, s: StepState)
    ensures s.instruction == Some(RET) || s.instruction == Some(RETD) ==> LeavesFrame(st, s)
    ensures forall target: Reg, offset: Imm12 :: s.instruction == Some(JAL(ZERO, target, offset)) ==>
              (LeavesFrame(st, s) <==> (s.registers[target] as int + 4 * offset as int) % TWO_64 == Last(st.frames).returnAddr)
    ensures LeavesFrame(st, s) <==> EndsScript(s) || JumpsTo(s, Last(st.frames).returnAddr)
  {
  }

  /** Records the instruction's position if it moves its frame's position. */
  function Visit(d: Debug, st: Core, s: StepState): Core {
    var pending := if IsCall(s) then Some(ReturnAddress(s)) else st.pending;
    var loc := Lookup(d, OpcodeIndex(s));
    if !LeavesFrame(st, s) && loc.Some? && Last(st.frames).last != Some(PositionOf(loc.value)) then
      var top := Last(st.frames).(last := Some(PositionOf(loc.value)));
      Core(st.frames[..|st.frames| - 1] + [top], pending, st.out + [Step(PositionOf(loc.value))])
    else
      Core(st.frames, pending, st.out)
  }

  /** The state in which a step's instruction is visited. */
  function Arrive(d: Debug, st: Core, s: StepState): Core {
    EnterCall(d, PopReturns(st, AbsPc(s)), OpcodeIndex(s))
  }

  function OnStep(d: Debug, st: Core, s: StepState): Core {
    Visit(d, Arrive(d, st, s), s)
  }

  function Run(d: Debug, st: Core, steps: seq<StepState>): Core {
    if steps == [] then st else OnStep(d, Run(d, st, Front(steps)), Last(steps))
  }

  /** The calls, steps and returns of a whole recording: every frame still
      open when the run ends is closed. */
  function Trace(d: Debug, steps: seq<StepState>): seq<Request> {
    var st := Run(d, Initial(d), steps);
    st.out + Returns(|st.frames|)
  }

  lemma RunOne(d: Debug, st: Core, s: StepState)
    ensures Run(d, st, [s]) == OnStep(d, st, s)
  {
    assert [s][..0] == [];
  }

  lemma {:induction false} RunAppend(d: Debug, st: Core, a: seq<StepState>, b: seq<StepState>)
    ensures Run(d, st, a + b) == Run(d, Run(d, st, a), b)
  {
    if b == [] {
      assert a + b == a;
    } else {
      var all := a + b;
      assert Front(all) == a + Front(b) && Last(all) == Last(b);
      RunAppend(d, st, a, Front(b));
    }
  }

  // ----- what every instruction stream keeps

  /** The position of the latest step, if no call or return came after it. */
  function LatestStep(rs: seq<Request>): Option<Position> {
    if rs != [] && (Last(rs).Step? || Last(rs).Start?) then Some(Last(rs).at) else None
  }

  /** No two steps in a row record the same position. */
  predicate NoRepeats(rs: seq<Request>) {
    forall i :: 0 <= i < |rs| && rs[i].Step? ==> LatestStep(rs[..i]) != Some(rs[i].at)
  }

  /** The log's depth is the number of frames, and the innermost frame's
      position is the latest step since it was entered or resumed. */
  predicate Consistent(st: Core) {
    && st.out != []
    && Depth(st.out) == |st.frames|
    && StaysOpen(st.out)
    && NoRepeats(st.out)
    && LatestStep(st.out) == Last(st.frames).last
  }

  lemma Extend(rs: seq<Request>, r: Request)
    requires StaysOpen(rs) && NoRepeats(rs)
    requires Depth(rs) + Delta(r) >= 1
    requires r.Step? ==> LatestStep(rs) != Some(r.at)
    ensures StaysOpen(rs + [r]) && NoRepeats(rs + [r])
    ensures Depth(rs + [r]) == Depth(rs) + Delta(r)
  {
    assert Front(rs + [r]) == rs;
    ExtendOpen(rs, r);
    ExtendSteps(rs, r);
  }

  lemma ExtendOpen(rs: seq<Request>, r: Request)
    requires StaysOpen(rs) && Depth(rs + [r]) >= 1
    ensures StaysOpen(rs + [r])
  {
    var all := rs + [r];
    forall i | 1 <= i <= |all| ensures Depth(all[..i]) >= 1 {
      assert if i <= |rs| then all[..i] == rs[..i] else all[..i] == all;
    }
  }

  lemma ExtendSteps(rs: seq<Request>, r: Request)
    requires NoRepeats(rs) && (r.Step? ==> LatestStep(rs) != Some(r.at))
    ensures NoRepeats(rs + [r])
  {
    var all := rs + [r];
    forall i | 0 <= i < |all| && all[i].Step? ensures LatestStep(all[..i]) != Some(all[i].at) {
      assert all[..i] == rs[..i];
      assert i == |rs| ==> rs[..i] == rs;
    }
  }

  lemma {:induction false} PopReturnsConsistent(st: Core, pc: u64)
    requires Consistent(st)
    ensures Consistent(PopReturns(st, pc))
    decreases |st.frames|
  {
    if |st.frames| > 1 && Last(st.frames).returnAddr == pc {
      Extend(st.out, Request.Return);
      PopReturnsConsistent(PopFrame(st), pc);
    }
  }

  lemma EnterCallConsistent(d: Debug, st: Core, index: nat)
    requires Consistent(st)
    ensures Consistent(EnterCall(d, st, index))
  {
    if st.pending.Some? {
      var r := Last(EnterCall(d, st, index).out);
      Extend(st.out, r);
      assert EnterCall(d, st, index).out == st.out + [r];
    }
  }

  lemma VisitConsistent(d: Debug, st: Core, s: StepState)
    requires Consistent(st)
    ensures Consistent(Visit(d, st, s))
    ensures var loc := Lookup(d, OpcodeIndex(s));
            !LeavesFrame(st, s) && loc.Some? ==> LatestStep(Visit(d, st, s).out) == Some(PositionOf(loc.value))
  {
    var loc := Lookup(d, OpcodeIndex(s));
    if !LeavesFrame(st, s) && loc.Some? && Last(st.frames).last != Some(PositionOf(loc.value)) {
      Extend(st.out, Step(PositionOf(loc.value)));
    }
  }

  /** Any instruction whatever keeps the recorder consistent, and after a
      mapped instruction that does not leave its frame, the innermost frame's
      position, and the latest step of the log, are that instruction's. */
  lemma StepConsistent(d: Debug, st: Core, s: StepState)
    requires Consistent(st)
    ensures Consistent(OnStep(d, st, s))
    ensures var loc := Lookup(d, OpcodeIndex(s));
            !LeavesFrame(Arrive(d, st, s), s) && loc.Some? ==>
              LatestStep(OnStep(d, st, s).out) == Some(PositionOf(loc.value))
  {
    PopReturnsConsistent(st, AbsPc(s));
    EnterCallConsistent(d, PopReturns(st, AbsPc(s)), OpcodeIndex(s));
    VisitConsistent(d, Arrive(d, st, s), s);
  }

  lemma InitialConsistent(d: Debug)
    ensures Consistent(Initial(d))
  {
    var o := Initial(d).out;
    assert o[..0] == [] && o[..1] == o;
    assert Depth([]) == 0;
  }

  lemma {:induction false} RunConsistent(d: Debug, steps: seq<StepState>)
    ensures Consistent(Run(d, Initial(d), steps))
  {
    if steps == [] {
      InitialConsistent(d);
    } else {
      RunConsistent(d, Front(steps));
      StepConsistent(d, Run(d, Initial(d), Front(steps)), Last(steps));
    }
  }

  /** For every instruction stream, however ill-formed, the calls and returns
      of the trace are well bracketed: a frame stays open until the very last
      return, which closes the last one. */
  lemma TraceWellBracketed(d: Debug, steps: seq<StepState>)
    ensures Depth(Trace(d, steps)) == 0
    ensures forall i :: 1 <= i < |Trace(d, steps)| ==> Depth(Trace(d, steps)[..i]) >= 1
  {
    RunConsistent(d, steps);
    var st := Run(d, Initial(d), steps);
    var n := |st.frames|;
    DepthAppend(st.out, Returns(n));
    DepthOfReturns(n);
    var t := Trace(d, steps);
    forall i | 1 <= i < |t| ensures Depth(t[..i]) >= 1 {
      if i <= |st.out| {
        assert t[..i] == st.out[..i];
      } else {
        var k := i - |st.out|;
        assert t[..i] == st.out + Returns(k);
        DepthAppend(st.out, Returns(k));
        DepthOfReturns(k);
      }
    }
  }

  lemma VisitExactly(d: Debug, st: Core, s: StepState)
    ensures Visit(d, st, s).pending == if SavesAddress(s) then Some(NextAddress(s)) else st.pending
    ensures LeavesFrame(st, s) ==> Visit(d, st, s).frames == st.frames && Visit(d, st, s).out == st.out
  {
  }

  /** A call is followed by its callee: the frame it opens returns to the address
      the call saved, the one after it. */
  lemma CallSavesAddress(d: Debug, st: Core, call: StepState, entry: StepState)
    requires SavesAddress(call)
    requires AbsPc(entry) != Last(OnStep(d, st, call).frames).returnAddr
    ensures var after := OnStep(d, OnStep(d, st, call), entry);
            && |after.frames| == |OnStep(d, st, call).frames| + 1
            && Last(after.frames).returnAddr == (call.registers[3] + 4) % TWO_64
  {
    var called := OnStep(d, st, call);
    VisitExactly(d, Arrive(d, st, call), call);
    assert PopReturns(called, AbsPc(entry)) == called;
  }

  /** The return is silent: in the frame a call opened, a `jal` that saves
      nothing, through a register that holds the address the call saved, writes
      no step and leaves the frames as they are until execution arrives there. */
  lemma ReturnIsSilent(d: Debug, st: Core, call: StepState, s: StepState, target: Reg)
    requires Last(Arrive(d, st, s).frames).returnAddr == (call.registers[3] + 4) % TWO_64
    requires s.instruction == Some(JAL(ZERO, target, 0)) && s.registers[target] == (call.registers[3] + 4) % TWO_64
    ensures OnStep(d, st, s) == Arrive(d, st, s)
    ensures st.pending.None? && s.registers[3] != Last(st.frames).returnAddr ==> OnStep(d, st, s) == st
  {
    LeavesExactly(Arrive(d, st, s), s);
    VisitExactly(d, Arrive(d, st, s), s);
  }

  /** One arrival at the innermost frame's return address closes just that
      frame exactly when the frame below is the bottom one or returns elsewhere. */
  lemma ArrivalClosesOneFrame(st: Core, pc: u64)
    requires |st.frames| > 1 && Last(st.frames).returnAddr == pc
    ensures |PopReturns(st, pc).frames| == |st.frames| - 1 <==>
            (|st.frames| == 2 || st.frames[|st.frames| - 2].returnAddr != pc)
  {
    var once := PopFrame(st);
    assert Last(once.frames).returnAddr == st.frames[|st.frames| - 2].returnAddr;
    if |st.frames| > 2 && st.frames[|st.frames| - 2].returnAddr == pc {
      PopsOnly(PopFrame(once), pc);
    }
  }

  lemma {:induction false} PopsOnly(st: Core, pc: u64)
    ensures |PopReturns(st, pc).frames| <= |st.frames|
    decreases |st.frames|
  {
    if |st.frames| > 1 && Last(st.frames).returnAddr == pc {
      PopsOnly(PopFrame(st), pc);
    }
  }
}
