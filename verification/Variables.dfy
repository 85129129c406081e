/** The variable tracker: registers named after printed symbolic expressions,
    and the theorem that says when a name tells the truth. */
module Variables {
  import opened Prelude
  import opened Machine

  datatype TrackedVariable = TrackedVariable(name: string, value: u64, register: Reg)

  /** The tracker: names so far, ABI parameter names, and MOVIs counted. */
  datatype Names = Names(names: map<Reg, string>, params: seq<string>, moviCount: nat)

  function RegisterName(t: Names, r: Reg): string {
    if r in t.names then t.names[r] else "r" + Decimal(r)
  }

  /** The register and name an instruction assigns. */
  function Assigned(t: Names, i: Instruction): Option<(Reg, string)> {
    match i
    case MOVI(dst, imm) =>
      if dst < FIRST_GENERAL then None
      else Some((dst, if t.moviCount < |t.params| then t.params[t.moviCount] else "imm_" + Decimal(imm)))
    case ADD(dst, lhs, rhs) => Binary(t, dst, RegisterName(t, lhs), "_plus_", RegisterName(t, rhs))
    case SUB(dst, lhs, rhs) => Binary(t, dst, RegisterName(t, lhs), "_minus_", RegisterName(t, rhs))
    case MUL(dst, lhs, rhs) => Binary(t, dst, RegisterName(t, lhs), "_times_", RegisterName(t, rhs))
    case ADDI(dst, lhs, imm) => Binary(t, dst, RegisterName(t, lhs), "_plus_", Decimal(imm))
    case SUBI(dst, lhs, imm) => Binary(t, dst, RegisterName(t, lhs), "_minus_", Decimal(imm))
    case MULI(dst, lhs, imm) => Binary(t, dst, RegisterName(t, lhs), "_times_", Decimal(imm))
    case _ => None
  }

  function Binary(t: Names, dst: Reg, lhs: string, op: string, rhs: string): Option<(Reg, string)> {
    if dst < FIRST_GENERAL then None else Some((dst, lhs + op + rhs))
  }

  /** The same for a step, whose instruction may be unreadable. */
  function AssignedAt(t: Names, instruction: Option<Instruction>): Option<(Reg, string)> {
    if instruction.None? then None else Assigned(t, instruction.value)
  }

  function Track(t: Names, instruction: Option<Instruction>): Names {
    match AssignedAt(t, instruction)
    case None => t
    case Some((dst, name)) =>
      Names(t.names[dst := name], t.params, t.moviCount + if instruction.value.MOVI? then 1 else 0)
  }

  /** The variable a step reports: a MOVI's carries its immediate, the others
      what their register holds before the instruction runs. */
  function Variables(t: Names, step: StepState): seq<TrackedVariable> {
    match AssignedAt(t, step.instruction)
    case None => []
    case Some((dst, name)) =>
      [TrackedVariable(name, if step.instruction.value.MOVI? then step.instruction.value.imm18
                             else step.registers[dst], dst)]
  }

  class VariableTracker {
    var registerNames: map<Reg, string>
    var abiParams: seq<string>
    var moviCount: nat

    ghost function State(): Names
      reads this
    {
      Names(registerNames, abiParams, moviCount)
    }

    constructor (params: seq<string>)
      ensures State() == Names(map[], params, 0)
    {
      registerNames, abiParams, moviCount := map[], params, 0;
    }

    method RegisterNameOf(r: Reg) returns (name: string)
      ensures name == RegisterName(State(), r)
    {
      name := if r in registerNames then registerNames[r] else "r" + Decimal(r);
    }

    method ProcessStep(step: StepState) returns (vars: seq<TrackedVariable>)
      modifies this
      ensures State() == Track(old(State()), step.instruction)
      ensures vars == Variables(old(State()), step)
    {
      if step.instruction.None? {
        return [];
      }
      match step.instruction.value {
        case MOVI(dst, imm) =>
          vars := Load(dst, imm);
        case ADD(dst, lhs, rhs) =>
          vars := Combine(step, dst, lhs, "_plus_", Some(rhs), 0);
        case SUB(dst, lhs, rhs) =>
          vars := Combine(step, dst, lhs, "_minus_", Some(rhs), 0);
        case MUL(dst, lhs, rhs) =>
          vars := Combine(step, dst, lhs, "_times_", Some(rhs), 0);
        case ADDI(dst, lhs, imm) =>
          vars := Combine(step, dst, lhs, "_plus_", None, imm);
        case SUBI(dst, lhs, imm) =>
          vars := Combine(step, dst, lhs, "_minus_", None, imm);
        case MULI(dst, lhs, imm) =>
          vars := Combine(step, dst, lhs, "_times_", None, imm);
        case _ =>
          return [];
      }
    }

    /** Names `dst` after the next ABI parameter, or else its immediate. */
    method Load(dst: Reg, imm: Imm18) returns (vars: seq<TrackedVariable>)
      modifies `registerNames, `moviCount
      ensures State() == Track(old(State()), Some(MOVI(dst, imm)))
      ensures vars == if dst < FIRST_GENERAL then []
                      else [TrackedVariable(registerNames[dst], imm, dst)]
    {
      if dst < FIRST_GENERAL {
        return [];
      }
      var name := if moviCount < |abiParams| then abiParams[moviCount] else "imm_" + Decimal(imm);
      moviCount := moviCount + 1;
      registerNames := registerNames[dst := name];
      return [TrackedVariable(name, imm, dst)];
    }

    /** Names `dst` after its operands, the second a register or an immediate. */
    method Combine(step: StepState, dst: Reg, lhs: Reg, op: string, rhs: Option<Reg>, imm: Imm12)
      returns (vars: seq<TrackedVariable>)
      modifies `registerNames
      ensures var name := RegisterName(old(State()), lhs) + op
                          + if rhs.Some? then RegisterName(old(State()), rhs.value) else Decimal(imm);
              if dst < FIRST_GENERAL then vars == [] && registerNames == old(registerNames)
              else vars == [TrackedVariable(name, step.registers[dst], dst)]
                   && registerNames == old(registerNames)[dst := name]
    {
      if dst < FIRST_GENERAL {
        return [];
      }
      var lhsName := RegisterNameOf(lhs);
      var rhsName := Decimal(imm);
      if rhs.Some? {
        rhsName := RegisterNameOf(rhs.value);
      }
      var name := lhsName + op + rhsName;
      registerNames := registerNames[dst := name];
      return [TrackedVariable(name, step.registers[dst], dst)];
    }
  }

  // ----- expressions

  datatype Op = Plus | Minus | Times

  /** What a register holds, in terms of the initial registers and of the
      immediates loaded; `Load(k, v)` is the k-th MOVI, which loaded `v`. */
  datatype Expr =
    | Initially(reg: Reg)
    | Load(index: nat, imm18: Imm18)
    | Immediate(imm12: Imm12)
    | Apply(op: Op, lhs: Expr, rhs: Expr)

  function Word(op: Op): string {
    match op
    case Plus => "_plus_"
    case Minus => "_minus_"
    case Times => "_times_"
  }

  function Print(params: seq<string>, e: Expr): string {
    match e
    case Initially(r) => "r" + Decimal(r)
    case Load(k, v) => if k < |params| then params[k] else "imm_" + Decimal(v)
    case Immediate(v) => Decimal(v)
    case Apply(op, lhs, rhs) => Print(params, lhs) + Word(op) + Print(params, rhs)
  }

  /** The machine's arithmetic: the low 64 bits. A run that goes on after an
      overflow runs in wrapping mode; otherwise the result is exact. */
  function Compute(op: Op, a: int, b: int): u64 {
    match op
    case Plus => Wrap64(a + b)
    case Minus => Wrap64(a - b)
    case Times => Wrap64(a * b)
  }

  function Eval(start: Registers, e: Expr): u64 {
    match e
    case Initially(r) => start[r]
    case Load(_, v) => v
    case Immediate(v) => v
    case Apply(op, lhs, rhs) => Compute(op, Eval(start, lhs), Eval(start, rhs))
  }

  // ----- the machine

  /** The operation of an arithmetic instruction, its destination and operands. */
  function Arithmetic(i: Instruction): Option<(Reg, Op, Reg, Option<Reg>, Imm12)> {
    match i
    case ADD(dst, lhs, rhs) => Some((dst, Plus, lhs, Some(rhs), 0))
    case SUB(dst, lhs, rhs) => Some((dst, Minus, lhs, Some(rhs), 0))
    case MUL(dst, lhs, rhs) => Some((dst, Times, lhs, Some(rhs), 0))
    case ADDI(dst, lhs, imm) => Some((dst, Plus, lhs, None, imm))
    case SUBI(dst, lhs, imm) => Some((dst, Minus, lhs, None, imm))
    case MULI(dst, lhs, imm) => Some((dst, Times, lhs, None, imm))
    case _ => None
  }

  /** The general-purpose registers other than `r` are unchanged. */
  predicate OnlyWrites(before: Registers, after: Registers, r: int) {
    forall i :: FIRST_GENERAL <= i < 64 && i != r ==> after[i] == before[i]
  }

  predicate IsTracked(i: Option<Instruction>) {
    i.Some? && (i.value.MOVI? || Arithmetic(i.value).Some?)
  }

  /** The general-purpose register a tracked opcode writes, and what it writes. */
  function Writes(before: Registers, i: Option<Instruction>): Option<(Reg, u64)> {
    match i
    case Some(MOVI(dst, imm)) => if dst < FIRST_GENERAL then None else Some((dst, imm))
    case Some(other) =>
      (match Arithmetic(other)
       case None => None
       case Some((dst, op, lhs, rhs, imm)) =>
         if dst < FIRST_GENERAL then None
         else Some((dst, Compute(op, before[lhs], if rhs.Some? then before[rhs.value] else imm))))
    case None => None
  }

  /** What the machine does to the general-purpose registers: the tracked
      opcodes write their result, any other instruction may do anything. */
  predicate Executed(before: Registers, i: Option<Instruction>, after: Registers) {
    IsTracked(i) ==>
      match Writes(before, i)
      case None => OnlyWrites(before, after, -1)
      case Some((dst, value)) => OnlyWrites(before, after, dst) && after[dst] == value
  }

  // ----- the expressions behind the names

  /** For each general-purpose register, the expression its name prints, unless
      an instruction the tracker does not follow had a part in its content. */
  type Behind = s: seq<Option<Expr>> | |s| == 64 witness seq(64, _ => None)

  function InitialBehind(): Behind {
    seq(64, r requires 0 <= r < 64 => if r < FIRST_GENERAL then None else Some(Initially(r)))
  }

  /** Registers an untracked instruction changed lose their expression. */
  function Taint(b: Behind, before: Registers, after: Registers): Behind {
    seq(64, r requires 0 <= r < 64 => if after[r] == before[r] then b[r] else None)
  }

  function Result(op: Op, lhs: Option<Expr>, rhs: Option<Expr>): Option<Expr> {
    if lhs.Some? && rhs.Some? then Some(Apply(op, lhs.value, rhs.value)) else None
  }

  function Follow(b: Behind, count: nat, before: Registers, i: Option<Instruction>, after: Registers): Behind {
    if i.Some? && i.value.MOVI? then
      if i.value.dst < FIRST_GENERAL then b else b[i.value.dst := Some(Load(count, i.value.imm18))]
    else if i.Some? && Arithmetic(i.value).Some? then
      var (dst, op, lhs, rhs, imm) := Arithmetic(i.value).value;
      if dst < FIRST_GENERAL then b
      else
        b[dst := Result(op, b[lhs], if rhs.Some? then b[rhs.value] else Some(Immediate(imm)))]
    else Taint(b, before, after)
  }

  /** Tracker and expressions after the first `n` steps; `regs[k]` are the
      registers before step k. */
  function Tracked(params: seq<string>, code: seq<Option<Instruction>>): Names {
    if code == [] then Names(map[], params, 0) else Track(Tracked(params, Front(code)), Last(code))
  }

  /** The immediates of the MOVIs into general-purpose registers, in order. */
  function GeneralMovis(code: seq<Option<Instruction>>): seq<Imm18> {
    if code == [] then []
    else
      match Last(code)
      case Some(MOVI(dst, imm)) =>
        if dst < FIRST_GENERAL then GeneralMovis(Front(code)) else GeneralMovis(Front(code)) + [imm]
      case _ => GeneralMovis(Front(code))
  }

  function Expressions(code: seq<Option<Instruction>>, regs: seq<Registers>): Behind
    requires |regs| == |code| + 1
  {
    if code == [] then InitialBehind()
    else
      var n := |code| - 1;
      Follow(Expressions(Front(code), Front(regs)), |GeneralMovis(Front(code))|, regs[n], code[n], regs[n + 1])
  }

  /** Every `Load(k, v)` in the expression is the k-th of those MOVIs. */
  predicate LoadsFrom(movis: seq<Imm18>, e: Expr) {
    match e
    case Load(k, v) => k < |movis| && movis[k] == v
    case Apply(_, lhs, rhs) => LoadsFrom(movis, lhs) && LoadsFrom(movis, rhs)
    case _ => true
  }

  predicate AllLoadFrom(movis: seq<Imm18>, b: Behind) {
    forall r: Reg :: b[r].Some? ==> LoadsFrom(movis, b[r].value)
  }

  /** A run: every step executes its instruction. */
  predicate IsRun(code: seq<Option<Instruction>>, regs: seq<Registers>) {
    && |regs| == |code| + 1
    && forall k :: 0 <= k < |code| ==> Executed(regs[k], code[k], regs[k + 1])
  }

  /** The expression behind `r`, if any, is printed by its name and has its
      content as value; reserved registers have neither expression nor name. */
  predicate TruthfulAt(t: Names, b: Behind, start: Registers, now: Registers, r: Reg) {
    && (r < FIRST_GENERAL ==> b[r].None? && r !in t.names)
    && (b[r].Some? ==> RegisterName(t, r) == Print(t.params, b[r].value) && Eval(start, b[r].value) == now[r])
  }

  predicate Truthful(t: Names, b: Behind, start: Registers, now: Registers) {
    forall r: Reg :: TruthfulAt(t, b, start, now, r)
  }

  lemma FollowStaysTruthful(t: Names, b: Behind, start: Registers, before: Registers,
                            i: Option<Instruction>, after: Registers)
    requires Truthful(t, b, start, before) && Executed(before, i, after)
    ensures Truthful(Track(t, i), Follow(b, t.moviCount, before, i, after), start, after)
  {
    var t', b' := Track(t, i), Follow(b, t.moviCount, before, i, after);
    if i.Some? && i.value.MOVI? {
      FollowLoad(t, b, start, before, i.value, after);
    } else if i.Some? && Arithmetic(i.value).Some? {
      FollowArithmetic(t, b, start, before, i.value, after);
    } else {
      assert t' == t;
      forall r: Reg ensures TruthfulAt(t', b', start, after, r) {
        assert TruthfulAt(t, b, start, before, r);
      }
    }
  }

  lemma FollowLoad(t: Names, b: Behind, start: Registers, before: Registers, i: Instruction, after: Registers)
    requires Truthful(t, b, start, before) && Executed(before, Some(i), after) && i.MOVI?
    ensures Truthful(Track(t, Some(i)), Follow(b, t.moviCount, before, Some(i), after), start, after)
  {
    var t', b' := Track(t, Some(i)), Follow(b, t.moviCount, before, Some(i), after);
    forall r: Reg ensures TruthfulAt(t', b', start, after, r) {
      assert TruthfulAt(t, b, start, before, r);
    }
  }

  lemma FollowArithmetic(t: Names, b: Behind, start: Registers, before: Registers, i: Instruction, after: Registers)
    requires Truthful(t, b, start, before) && Executed(before, Some(i), after) && Arithmetic(i).Some?
    ensures Truthful(Track(t, Some(i)), Follow(b, t.moviCount, before, Some(i), after), start, after)
  {
    var t', b' := Track(t, Some(i)), Follow(b, t.moviCount, before, Some(i), after);
    AssignsWord(t, i);
    forall r: Reg ensures TruthfulAt(t', b', start, after, r) {
      assert TruthfulAt(t, b, start, before, r);
      if r == Arithmetic(i).value.0 >= FIRST_GENERAL {
        FollowResult(t, b, start, before, i, after);
      }
    }
  }

  lemma FollowResult(t: Names, b: Behind, start: Registers, before: Registers, i: Instruction, after: Registers)
    requires Truthful(t, b, start, before) && Executed(before, Some(i), after)
    requires Arithmetic(i).Some? && Arithmetic(i).value.0 >= FIRST_GENERAL
    ensures TruthfulAt(Track(t, Some(i)), Follow(b, t.moviCount, before, Some(i), after), start, after,
                       Arithmetic(i).value.0)
  {
    var (dst, op, lhs, rhs, imm) := Arithmetic(i).value;
    var right := if rhs.Some? then b[rhs.value] else Some(Immediate(imm));
    var rightName := if rhs.Some? then RegisterName(t, rhs.value) else Decimal(imm);
    assert TruthfulAt(t, b, start, before, lhs);
    assert rhs.Some? ==> TruthfulAt(t, b, start, before, rhs.value);
    ResultIsTrue(t.params, start, op, b[lhs], right, RegisterName(t, lhs), rightName,
                 before[lhs], if rhs.Some? then before[rhs.value] else imm);
    AssignsWord(t, i);
    assert RegisterName(Track(t, Some(i)), dst) == RegisterName(t, lhs) + Word(op) + rightName;
  }

  lemma ResultIsTrue(params: seq<string>, start: Registers, op: Op, lhs: Option<Expr>, rhs: Option<Expr>,
                     lhsName: string, rhsName: string, lhsValue: int, rhsValue: int)
    requires lhs.Some? ==> lhsName == Print(params, lhs.value) && lhsValue == Eval(start, lhs.value)
    requires rhs.Some? ==> rhsName == Print(params, rhs.value) && rhsValue == Eval(start, rhs.value)
    ensures var e := Result(op, lhs, rhs);
            e.Some? ==> Print(params, e.value) == lhsName + Word(op) + rhsName
                        && Eval(start, e.value) == Compute(op, lhsValue, rhsValue)
  {
  }

  /** An arithmetic instruction's name joins its operands' with its operation. */
  lemma AssignsWord(t: Names, i: Instruction)
    requires Arithmetic(i).Some?
    ensures var (dst, op, lhs, rhs, imm) := Arithmetic(i).value;
            Assigned(t, i) == if dst < FIRST_GENERAL then None
                              else Some((dst, RegisterName(t, lhs) + Word(op)
                                              + if rhs.Some? then RegisterName(t, rhs.value) else Decimal(imm)))
  {
  }

  /** The tracker counts the MOVIs into general-purpose registers. */
  lemma {:induction false} MovisCounted(params: seq<string>, code: seq<Option<Instruction>>)
    ensures Tracked(params, code).moviCount == |GeneralMovis(code)|
    ensures Tracked(params, code).params == params
  {
    if code != [] {
      MovisCounted(params, Front(code));
    }
  }

  lemma {:induction false} LoadsFromMore(movis: seq<Imm18>, more: seq<Imm18>, e: Expr)
    requires LoadsFrom(movis, e)
    ensures LoadsFrom(movis + more, e)
  {
    if e.Apply? {
      LoadsFromMore(movis, more, e.lhs);
      LoadsFromMore(movis, more, e.rhs);
    }
  }

  /** Every immediate loaded in an expression is the one the MOVI of that
      number in the code loads. */
  lemma {:induction false} LoadsAreMovis(code: seq<Option<Instruction>>, regs: seq<Registers>)
    requires |regs| == |code| + 1
    ensures AllLoadFrom(GeneralMovis(code), Expressions(code, regs))
  {
    if code != [] {
      var n := |code| - 1;
      LoadsAreMovis(Front(code), Front(regs));
      FollowLoads(GeneralMovis(Front(code)), Expressions(Front(code), Front(regs)), regs[n], code[n], regs[n + 1]);
    }
  }

  lemma FollowLoads(movis: seq<Imm18>, b: Behind, before: Registers, i: Option<Instruction>, after: Registers)
    requires AllLoadFrom(movis, b)
    ensures var more := if i.Some? && i.value.MOVI? && i.value.dst >= FIRST_GENERAL then [i.value.imm18] else [];
            AllLoadFrom(movis + more, Follow(b, |movis|, before, i, after))
  {
    var more := if i.Some? && i.value.MOVI? && i.value.dst >= FIRST_GENERAL then [i.value.imm18] else [];
    forall r: Reg | b[r].Some? ensures LoadsFrom(movis + more, b[r].value) {
      LoadsFromMore(movis, more, b[r].value);
    }
    if i.Some? && Arithmetic(i.value).Some? {
      OperandsLoad(movis, b, i.value);
    }
  }

  lemma OperandsLoad(movis: seq<Imm18>, b: Behind, i: Instruction)
    requires AllLoadFrom(movis, b) && Arithmetic(i).Some?
    ensures var (dst, op, lhs, rhs, imm) := Arithmetic(i).value;
            var e := Result(op, b[lhs], if rhs.Some? then b[rhs.value] else Some(Immediate(imm)));
            e.Some? ==> LoadsFrom(movis, e.value)
  {
  }

  /** After any run whatever, every register that still has an expression is
      named by that expression's printed form and holds its value, and the k-th
      parameter stands in it for the k-th MOVI of the code. */
  lemma {:induction false} NamesTellTheTruth(params: seq<string>, code: seq<Option<Instruction>>, regs: seq<Registers>)
    requires IsRun(code, regs)
    ensures Truthful(Tracked(params, code), Expressions(code, regs), regs[0], Last(regs))
    ensures Tracked(params, code).params == params
    ensures AllLoadFrom(GeneralMovis(code), Expressions(code, regs))
  {
    LoadsAreMovis(code, regs);
    if code != [] {
      NamesTellTheTruth(params, Front(code), Front(regs));
      var n := |code| - 1;
      MovisCounted(params, Front(code));
      FollowStaysTruthful(Tracked(params, Front(code)), Expressions(Front(code), Front(regs)),
                          regs[0], regs[n], code[n], regs[n + 1]);
    }
  }

  // ----- runs the tracker follows completely

  /** The tracked opcodes on general-purpose operands, and instructions that
      write no general-purpose register. */
  predicate Followed(before: Registers, i: Option<Instruction>, after: Registers) {
    if i.Some? && i.value.MOVI? then true
    else if i.Some? && Arithmetic(i.value).Some? then
      var (dst, _, lhs, rhs, _) := Arithmetic(i.value).value;
      dst >= FIRST_GENERAL ==> lhs >= FIRST_GENERAL && (rhs.Some? ==> rhs.value >= FIRST_GENERAL)
    else OnlyWrites(before, after, -1)
  }

  /** In such a run every general-purpose register keeps an expression. */
  lemma {:induction false} NothingLost(code: seq<Option<Instruction>>, regs: seq<Registers>)
    requires |regs| == |code| + 1
    requires forall k :: 0 <= k < |code| ==> Followed(regs[k], code[k], regs[k + 1])
    ensures forall r :: FIRST_GENERAL <= r < 64 ==> Expressions(code, regs)[r].Some?
  {
    if code != [] {
      NothingLost(Front(code), Front(regs));
    }
  }

  /** What the recorder shows for a register on a step: the tracker's name
      after the step's instruction, and the content before it. */
  function Shown(t: Names, step: StepState, r: Reg): (string, u64) {
    (RegisterName(Track(t, step.instruction), r), step.registers[r])
  }

  /** The instruction does not write `r`, or writes what is there already. */
  predicate Keeps(before: Registers, i: Option<Instruction>, r: Reg) {
    match Writes(before, i)
    case None => true
    case Some((dst, value)) => dst == r ==> value == before[r]
  }

  lemma KeptExactly(before: Registers, i: Option<Instruction>, after: Registers, r: Reg)
    requires Executed(before, i, after) && Followed(before, i, after) && r >= FIRST_GENERAL
    ensures Keeps(before, i, r) <==> before[r] == after[r]
  {
  }

  /** On the last step of such a run, every general-purpose register is shown
      under the printed form of an expression for its content after the step;
      what is shown beside it is that value exactly when the step's instruction
      has another destination or writes what is there already. */
  lemma ShownIsTrueUnlessWritten(params: seq<string>, code: seq<Option<Instruction>>, regs: seq<Registers>,
                                 step: StepState, r: Reg)
    requires code != [] && IsRun(code, regs)
    requires forall k :: 0 <= k < |code| ==> Followed(regs[k], code[k], regs[k + 1])
    requires step.instruction == Last(code) && step.registers == regs[|code| - 1]
    requires r >= FIRST_GENERAL
    ensures var e := Expressions(code, regs)[r];
            && e.Some? && LoadsFrom(GeneralMovis(code), e.value)
            && Shown(Tracked(params, Front(code)), step, r).0 == Print(params, e.value)
            && Eval(regs[0], e.value) == Last(regs)[r]
            && (Shown(Tracked(params, Front(code)), step, r).1 == Eval(regs[0], e.value) <==>
                  Keeps(step.registers, step.instruction, r))
  {
    NamesTellTheTruth(params, code, regs);
    NothingLost(code, regs);
    KeptExactly(regs[|code| - 1], Last(code), regs[|code|], r);
    assert TruthfulAt(Tracked(params, code), Expressions(code, regs), regs[0], Last(regs), r);
  }

  /** A run on which the pair is false: a register holding 0 is loaded with 7
      and shown as `imm_7` with 0 beside it. */
  lemma WrittenRegisterShownStale(step: StepState, after: Registers)
    requires step.instruction == Some(MOVI(16, 7)) && step.registers[16] == 0
    requires after == step.registers[16 := 7]
    ensures IsRun([step.instruction], [step.registers, after])
    ensures Shown(Tracked([], []), step, 16) == ("imm_" + Decimal(7), 0) && after[16] == 7
    ensures !Keeps(step.registers, step.instruction, 16)
  {
  }

  /** What the tracker reports of a step: the one general-purpose register a
      tracked opcode writes, under the name it has from then on, with what it
      will hold if a MOVI writes it and else with what it holds. */
  lemma {:induction false} ReportedExactly(t: Names, step: StepState, after: Registers)
    requires Executed(step.registers, step.instruction, after)
    ensures |Variables(t, step)| == if Writes(step.registers, step.instruction).Some? then 1 else 0
    ensures forall v :: v in Variables(t, step) ==>
              && v.register == Writes(step.registers, step.instruction).value.0
              && v.name == RegisterName(Track(t, step.instruction), v.register)
              && v.value == if step.instruction.value.MOVI? then after[v.register] else step.registers[v.register]
  {
  }

  /** Registers below 16 are not tracked, the others are. */
  lemma {:induction false} TrackedRegisters(t: Names, dst: Reg, imm: Imm18)
    ensures Assigned(t, MOVI(dst, imm)).Some? <==> dst >= 16
  {
  }

  // ----- when two names are equal

  /** The leaves of an expression from left to right; which MOVI loaded an
      immediate is forgotten. */
  function Leaves(e: Expr): (leaves: seq<Expr>)
    ensures leaves != [] && forall i :: 0 <= i < |leaves| ==> !leaves[i].Apply?
    ensures |leaves| == |Ops(e)| + 1
  {
    match e
    case Load(_, v) => [Load(0, v)]
    case Apply(_, lhs, rhs) => Leaves(lhs) + Leaves(rhs)
    case _ => [e]
  }

  /** The operations of an expression from left to right. */
  function Ops(e: Expr): seq<Op> {
    match e
    case Apply(op, lhs, rhs) => Ops(lhs) + [op] + Ops(rhs)
    case _ => []
  }

  /** Leaves and operations printed in turn. */
  function Spell(leaves: seq<Expr>, ops: seq<Op>): (text: string)
    requires |leaves| == |ops| + 1
    decreases |ops|
  {
    if ops == [] then Print([], leaves[0])
    else Print([], leaves[0]) + (Word(ops[0]) + Spell(leaves[1..], ops[1..]))
  }

  lemma {:induction false} SpellJoin(l1: seq<Expr>, o1: seq<Op>, op: Op, l2: seq<Expr>, o2: seq<Op>)
    requires |l1| == |o1| + 1 && |l2| == |o2| + 1
    ensures Spell(l1 + l2, o1 + [op] + o2) == Spell(l1, o1) + Word(op) + Spell(l2, o2)
    decreases |o1|
  {
    var l, o := l1 + l2, o1 + [op] + o2;
    assert l[0] == l1[0] && l[1..] == l1[1..] + l2;
    if o1 == [] {
      assert l[1..] == l2 && o[0] == op && o[1..] == o2;
      Regroup3(Print([], l1[0]), Word(op), Spell(l2, o2));
    } else {
      assert o[0] == o1[0] && o[1..] == o1[1..] + [op] + o2;
      SpellJoin(l1[1..], o1[1..], op, l2, o2);
      Regroup5(Print([], l1[0]), Word(o1[0]), Spell(l1[1..], o1[1..]), Word(op), Spell(l2, o2));
    }
  }

  /** A name is its leaves and operations from left to right. */
  lemma {:induction false} PrintIsSpelling(e: Expr)
    ensures Print([], e) == Spell(Leaves(e), Ops(e))
  {
    if e.Apply? {
      PrintIsSpelling(e.lhs);
      PrintIsSpelling(e.rhs);
      SpellJoin(Leaves(e.lhs), Ops(e.lhs), e.op, Leaves(e.rhs), Ops(e.rhs));
    }
  }

  predicate IsDigits(s: string) {
    forall i :: 0 <= i < |s| ==> '0' <= s[i] <= '9'
  }

  /** What can follow a numeral in a name. */
  predicate EndsNumeral(s: string) {
    s != [] ==> s[0] == '_'
  }

  lemma {:induction false} NumeralEnds(a: string, x: string, b: string, y: string)
    requires IsDigits(a) && IsDigits(b) && EndsNumeral(x) && EndsNumeral(y)
    requires a + x == b + y
    ensures a == b && x == y
  {
    FirstOfJoin(a, x);
    FirstOfJoin(b, y);
    if a != [] && b != [] {
      assert (a + x)[1..] == a[1..] + x && (b + y)[1..] == b[1..] + y;
      NumeralEnds(a[1..], x, b[1..], y);
      assert a == [a[0]] + a[1..] && b == [b[0]] + b[1..];
    }
  }

  lemma FirstOfJoin(a: string, x: string)
    ensures a == [] ==> a + x == x
    ensures a != [] ==> a + x != [] && (a + x)[0] == a[0]
  {
  }

  /** What a leaf prints before its numeral, and the numeral's value. */
  function Mark(leaf: Expr): (string, nat)
    requires !leaf.Apply?
  {
    match leaf
    case Initially(r) => ("r", r)
    case Load(_, v) => ("imm_", v)
    case Immediate(v) => ([], v)
  }

  lemma MarkPrints(leaf: Expr, rest: string)
    requires !leaf.Apply?
    ensures Print([], leaf) == Mark(leaf).0 + Decimal(Mark(leaf).1)
    ensures Print([], leaf) + rest == Mark(leaf).0 + (Decimal(Mark(leaf).1) + rest)
  {
    assert [] + Decimal(Mark(leaf).1) == Decimal(Mark(leaf).1);
  }

  lemma SameMark(a: Expr, x: string, b: Expr, y: string)
    requires !a.Apply? && !b.Apply?
    requires Mark(a).0 + (Decimal(Mark(a).1) + x) == Mark(b).0 + (Decimal(Mark(b).1) + y)
    ensures Mark(a).0 == Mark(b).0
    ensures Decimal(Mark(a).1) + x == Decimal(Mark(b).1) + y
  {
    var s, t := Mark(a).0 + (Decimal(Mark(a).1) + x), Mark(b).0 + (Decimal(Mark(b).1) + y);
    assert s[0] == if a.Immediate? then Decimal(Mark(a).1)[0] else Mark(a).0[0];
    assert t[0] == if b.Immediate? then Decimal(Mark(b).1)[0] else Mark(b).0[0];
    assert Mark(a).0 == Mark(b).0;
    assert s[|Mark(a).0|..] == Decimal(Mark(a).1) + x && t[|Mark(b).0|..] == Decimal(Mark(b).1) + y;
  }

  /** A leaf and what follows it can be told apart. */
  lemma LeafEnds(a: Expr, x: string, b: Expr, y: string)
    requires !a.Apply? && !b.Apply? && EndsNumeral(x) && EndsNumeral(y)
    requires Print([], a) + x == Print([], b) + y
    ensures Mark(a) == Mark(b) && x == y
  {
    MarkPrints(a, x);
    MarkPrints(b, y);
    SameMark(a, x, b, y);
    NumeralEnds(Decimal(Mark(a).1), x, Decimal(Mark(b).1), y);
    DecimalInjective(Mark(a).1, Mark(b).1);
  }

  /** What follows the first leaf. */
  function AfterLeaf(leaves: seq<Expr>, ops: seq<Op>): string
    requires |leaves| == |ops| + 1
  {
    if ops == [] then [] else Word(ops[0]) + Spell(leaves[1..], ops[1..])
  }

  lemma SpellParts(leaves: seq<Expr>, ops: seq<Op>)
    requires |leaves| == |ops| + 1
    ensures Spell(leaves, ops) == Print([], leaves[0]) + AfterLeaf(leaves, ops)
    ensures EndsNumeral(AfterLeaf(leaves, ops))
    ensures AfterLeaf(leaves, ops) == [] <==> ops == []
  {
    assert Print([], leaves[0]) + [] == Print([], leaves[0]);
  }

  lemma SameWord(p: Op, x: string, q: Op, y: string)
    requires Word(p) + x == Word(q) + y
    ensures p == q && x == y
  {
    var s, t := Word(p) + x, Word(q) + y;
    assert s[1] == Word(p)[1] && t[1] == Word(q)[1];
    assert s[|Word(p)|..] == x && t[|Word(q)|..] == y;
  }

  /** Leaves with the same texts. */
  predicate SameMarks(l: seq<Expr>, m: seq<Expr>)
    requires forall i :: 0 <= i < |l| ==> !l[i].Apply?
    requires forall i :: 0 <= i < |m| ==> !m[i].Apply?
  {
    |l| == |m| && forall i :: 0 <= i < |l| ==> Mark(l[i]) == Mark(m[i])
  }

  lemma {:induction false} SpellingInjective(l: seq<Expr>, o: seq<Op>, m: seq<Expr>, q: seq<Op>)
    requires |l| == |o| + 1 && |m| == |q| + 1 && Spell(l, o) == Spell(m, q)
    requires forall i :: 0 <= i < |l| ==> !l[i].Apply?
    requires forall i :: 0 <= i < |m| ==> !m[i].Apply?
    ensures SameMarks(l, m) && o == q
    decreases |o|
  {
    SpellParts(l, o);
    SpellParts(m, q);
    LeafEnds(l[0], AfterLeaf(l, o), m[0], AfterLeaf(m, q));
    if o != [] {
      SameWord(o[0], Spell(l[1..], o[1..]), q[0], Spell(m[1..], q[1..]));
      SpellingInjective(l[1..], o[1..], m[1..], q[1..]);
      assert o == [o[0]] + o[1..] && q == [q[0]] + q[1..];
      forall i | 0 <= i < |l| ensures Mark(l[i]) == Mark(m[i]) {
        assert i > 0 ==> l[i] == l[1..][i - 1] && m[i] == m[1..][i - 1];
      }
    }
  }

  lemma {:induction false} LeavesForget(e: Expr)
    ensures forall i :: 0 <= i < |Leaves(e)| && Leaves(e)[i].Load? ==> Leaves(e)[i].index == 0
  {
    if e.Apply? {
      LeavesForget(e.lhs);
      LeavesForget(e.rhs);
    }
  }

  /** Without ABI parameters, two expressions have the same name if and only if
      they have the same leaves and the same operations from left to right:
      how they are bracketed does not show. */
  lemma {:induction false} SameName(a: Expr, b: Expr)
    ensures Print([], a) == Print([], b) <==> Leaves(a) == Leaves(b) && Ops(a) == Ops(b)
  {
    PrintIsSpelling(a);
    PrintIsSpelling(b);
    if Print([], a) == Print([], b) {
      SpellingInjective(Leaves(a), Ops(a), Leaves(b), Ops(b));
      LeavesForget(a);
      LeavesForget(b);
      forall i | 0 <= i < |Leaves(a)| ensures Leaves(a)[i] == Leaves(b)[i] {
        assert Mark(Leaves(a)[i]) == Mark(Leaves(b)[i]);
      }
    }
  }

  lemma NameOfOne(t: Names, i: Instruction)
    requires Assigned(t, i).Some?
    ensures var (dst, name) := Assigned(t, i).value;
            Track(t, Some(i)) == Names(t.names[dst := name], t.params, t.moviCount + if i.MOVI? then 1 else 0)
  {
  }

  lemma NextName(code: seq<Option<Instruction>>, i: Instruction)
    ensures Tracked([], code + [Some(i)]) == Track(Tracked([], code), Some(i))
  {
    assert Front(code + [Some(i)]) == code;
  }

  /** The code of the run below. */
  const COLLIDING: seq<Instruction> :=
    [MOVI(16, 3), ADD(19, 16, 16), MUL(20, 19, 16), MUL(21, 16, 16), ADD(22, 16, 21)]

  function Readable(code: seq<Instruction>): (steps: seq<Option<Instruction>>)
    ensures |steps| == |code| && forall i :: 0 <= i < |code| ==> steps[i] == Some(code[i])
  {
    if code == [] then [] else Readable(Front(code)) + [Some(Last(code))]
  }

  lemma CollidingNames()
    ensures var t := Tracked([], Readable(COLLIDING)); RegisterName(t, 20) == RegisterName(t, 22)
  {
    var n, plus, times := "imm_" + Decimal(3), "_plus_", "_times_";
    var c0: seq<Option<Instruction>> := [];
    var c1 := c0 + [Some(MOVI(16, 3))];
    var c2 := c1 + [Some(ADD(19, 16, 16))];
    var c3 := c2 + [Some(MUL(20, 19, 16))];
    var c4 := c3 + [Some(MUL(21, 16, 16))];
    NextName(c0, MOVI(16, 3));
    NextName(c1, ADD(19, 16, 16));
    NextName(c2, MUL(20, 19, 16));
    NextName(c3, MUL(21, 16, 16));
    NextName(c4, ADD(22, 16, 21));
    assert Readable(COLLIDING) == c4 + [Some(ADD(22, 16, 21))];
    NameOfOne(Tracked([], c0), MOVI(16, 3));
    NameOfOne(Tracked([], c1), ADD(19, 16, 16));
    NameOfOne(Tracked([], c2), MUL(20, 19, 16));
    NameOfOne(Tracked([], c3), MUL(21, 16, 16));
    NameOfOne(Tracked([], c4), ADD(22, 16, 21));
    assert n + plus + (n + times + n) == n + plus + n + times + n;
  }

  /** A run without overflow that gives two registers one name:
      `imm_3_plus_imm_3_times_imm_3` is both (3 + 3) * 3 and 3 + 3 * 3. */
  lemma NamesCanCollide(start: Registers) returns (regs: seq<Registers>)
    ensures IsRun(Readable(COLLIDING), regs) && regs[0] == start
    ensures var t := Tracked([], Readable(COLLIDING)); RegisterName(t, 20) == RegisterName(t, 22)
    ensures Last(regs)[20] == 18 && Last(regs)[22] == 12
  {
    var one := start[16 := 3];
    var two := one[19 := 6];
    var three := two[20 := 18];
    var four := three[21 := 9];
    regs := [start, one, two, three, four, four[22 := 12]];
    CollidingNames();
  }
}
