/** What a recorded register snapshot says about the machine. */
module Snapshots {
  import opened Prelude
  import opened Machine
  import opened TraceLog
  import opened Recorder
  import Attribution
  import Decoders
  import RecordedSteps
  import Variables

  function Code(steps: seq<StepState>): (code: seq<Option<Instruction>>)
    ensures |code| == |steps|
  {
    if steps == [] then [] else Code(Front(steps)) + [Last(steps).instruction]
  }

  /** The registers before each step, and after the last. */
  function Contents(steps: seq<StepState>, after: Registers): (regs: seq<Registers>)
    ensures |regs| == |steps| + 1
  {
    if steps == [] then [after] else Contents(Front(steps), Last(steps).registers) + [after]
  }

  /** The recorder's tracker follows the executed instructions. */
  lemma {:induction false} NamesFollowCode(cfg: Config, steps: seq<StepState>)
    ensures TrackersAfter(cfg, steps).names == Variables.Tracked(cfg.params, Code(steps))
  {
    if steps != [] {
      NamesFollowCode(cfg, Front(steps));
      assert Front(Code(steps)) == Code(Front(steps));
    }
  }

  lemma LastContents(steps: seq<StepState>, after: Registers)
    requires steps != []
    ensures Contents(steps, after)[|steps|] == after && Contents(steps, after)[|steps| - 1] == Last(steps).registers
  {
  }

  lemma VariableIsShown(cfg: Config, t: Trackers, s: StepState, k: nat)
    requires k < 8
    ensures var shown := Variables.Shown(t.names, s, 16 + k);
            Observe(cfg, t, s).variables[k] == Variable(shown.0, Decoders.U64Value(shown.1))
  {
    var names, rs := Advance(t, s).names, NewReceipts(t, s);
    assert Observe(cfg, t, s).variables == StepVariables(cfg, names, s, rs);
    assert StepVariables(cfg, names, s, rs)[k] == RegisterVariables(names, s.registers)[k];
  }

  lemma SnapshotIsShown(cfg: Config, steps: seq<StepState>, k: nat)
    requires steps != [] && k < 8
    ensures var shown := Variables.Shown(Variables.Tracked(cfg.params, Code(Front(steps))), Last(steps), 16 + k);
            Last(Observations(cfg, steps)).variables[k] == Variable(shown.0, Decoders.U64Value(shown.1))
  {
    var t := TrackersAfter(cfg, Front(steps));
    NamesFollowCode(cfg, Front(steps));
    VariableIsShown(cfg, t, Last(steps), k);
    assert Last(Observations(cfg, steps)) == Observe(cfg, t, Last(steps));
  }

  lemma SameValue(held: u64, content: u64)
    ensures Decoders.Signed(Decoders.AsI64(held), content) <==> held == content
  {
    Decoders.ShownSigned(held);
    Decoders.ShownSigned(content);
    if Decoders.Signed(Decoders.AsI64(held), content) {
      Decoders.SignedUnique(Decoders.AsI64(held), Decoders.AsI64(content), content);
      Decoders.AsI64Injective(held, content);
    }
  }

  /** The shown variable is named by an expression for `r`'s content after the
      last instruction, the k-th ABI parameter standing for the k-th MOVI. Its
      value is a signed 64-bit integer: what `r` holds before the instruction,
      as itself below 2^63, which is that content exactly when the instruction
      has another destination or writes what is there already. */
  predicate TellsTheTruth(params: seq<string>, code: seq<Option<Instruction>>, regs: seq<Registers>,
                          shown: Variable, r: Reg)
    requires code != [] && |regs| == |code| + 1
  {
    var e, held := Variables.Expressions(code, regs)[r], regs[|code| - 1][r];
    && e.Some? && Variables.LoadsFrom(Variables.GeneralMovis(code), e.value)
    && shown.name == Variables.Print(params, e.value)
    && Variables.Eval(regs[0], e.value) == Last(regs)[r]
    && Decoders.ShowsWord(shown.value, held)
    && (held < 0x8000_0000_0000_0000 ==> shown.value.i == held)
    && (Decoders.ShowsWord(shown.value, Last(regs)[r]) <==> Variables.Keeps(regs[|code| - 1], Last(code), r))
  }

  lemma ShownTellsTheTruth(params: seq<string>, code: seq<Option<Instruction>>, regs: seq<Registers>,
                           step: StepState, shown: Variable, r: Reg)
    requires code != [] && Variables.IsRun(code, regs) && r >= FIRST_GENERAL
    requires forall i :: 0 <= i < |code| ==> Variables.Followed(regs[i], code[i], regs[i + 1])
    requires step.instruction == Last(code) && step.registers == regs[|code| - 1]
    requires var pair := Variables.Shown(Variables.Tracked(params, Front(code)), step, r);
             shown == Variable(pair.0, Decoders.U64Value(pair.1))
    ensures TellsTheTruth(params, code, regs, shown, r)
  {
    Variables.ShownIsTrueUnlessWritten(params, code, regs, step, r);
    Decoders.ShownSigned(step.registers[r]);
    SameValue(step.registers[r], Last(regs)[r]);
  }

  /** At every step of a run the tracker can follow, the snapshot tells the truth
      about each of r16 to r23. */
  lemma {:induction false} SnapshotTellsTheTruth(cfg: Config, steps: seq<StepState>, after: Registers, k: nat)
    requires steps != [] && k < 8
    requires Variables.IsRun(Code(steps), Contents(steps, after))
    requires forall i :: 0 <= i < |steps| ==>
               Variables.Followed(Contents(steps, after)[i], Code(steps)[i], Contents(steps, after)[i + 1])
    ensures TellsTheTruth(cfg.params, Code(steps), Contents(steps, after),
                          Last(Observations(cfg, steps)).variables[k], 16 + k)
  {
    var code, regs := Code(steps), Contents(steps, after);
    LastContents(steps, after);
    SnapshotIsShown(cfg, steps, k);
    assert Front(code) == Code(Front(steps));
    ShownTellsTheTruth(cfg.params, code, regs, Last(steps), Last(Observations(cfg, steps)).variables[k], 16 + k);
  }

  // ----- every step written

  lemma {:induction false} CodePrefix(steps: seq<StepState>, n: nat)
    requires n <= |steps|
    ensures Code(steps[..n]) == Code(steps)[..n]
  {
    if n == |steps| {
      assert steps[..n] == steps;
    } else {
      CodePrefix(Front(steps), n);
      PrefixOfFront(steps, n);
      PrefixOfFront(Code(steps), n);
    }
  }

  lemma {:induction false} ContentsPrefix(steps: seq<StepState>, after: Registers, n: nat)
    requires n <= |steps|
    ensures Contents(steps[..n], Contents(steps, after)[n]) == Contents(steps, after)[..n + 1]
  {
    var regs := Contents(steps, after);
    if n == |steps| {
      assert steps[..n] == steps;
    } else {
      ContentsPrefix(Front(steps), Last(steps).registers, n);
      PrefixOfFront(steps, n);
      assert Front(regs) == Contents(Front(steps), Last(steps).registers);
      assert Front(regs)[..n + 1] == regs[..n + 1] && Front(regs)[n] == regs[n];
    }
  }

  /** A run the tracker can follow: its instructions are executed, and none of
      them brings in a content the tracker does not know. */
  predicate FollowedRun(code: seq<Option<Instruction>>, regs: seq<Registers>) {
    && Variables.IsRun(code, regs)
    && forall i :: 0 <= i < |code| ==> Variables.Followed(regs[i], code[i], regs[i + 1])
  }

  lemma {:induction false} FollowedPrefix(code: seq<Option<Instruction>>, regs: seq<Registers>, n: nat)
    requires FollowedRun(code, regs) && n <= |code|
    ensures FollowedRun(code[..n], regs[..n + 1])
  {
  }

  /** What callback `i` observes tells the truth about the run up to it. */
  lemma {:induction false} ObservedTruth(cfg: Config, steps: seq<StepState>, after: Registers, i: nat, k: nat)
    requires i < |steps| && k < 8 && FollowedRun(Code(steps), Contents(steps, after))
    ensures k < |Observations(cfg, steps)[i].variables|
    ensures TellsTheTruth(cfg.params, Code(steps)[..i + 1], Contents(steps, after)[..i + 2],
                          Observations(cfg, steps)[i].variables[k], 16 + k)
  {
    var part, next := steps[..i + 1], Contents(steps, after)[i + 1];
    ObservedAtLeastEight(cfg, steps, i);
    CodePrefix(steps, i + 1);
    ContentsPrefix(steps, after, i + 1);
    FollowedPrefix(Code(steps), Contents(steps, after), i + 1);
    ObservationsPrefix(cfg, steps, i + 1);
    LastOfPrefix(Observations(cfg, steps), i);
    SnapshotTellsTheTruth(cfg, part, next, k);
  }

  lemma FirstOfOwnStep(obs: seq<Observation>, i: nat, result: Option<Variable>, k: nat)
    requires i < |obs| && k < |obs[i].variables|
    ensures var own := Attribution.OwnStep(obs, i, result);
            own.StepRecord? && k < |own.variables| && own.variables[k] == obs[i].variables[k]
  {
  }

  /** When consecutive instructions are on different lines, every step of the
      recording shows each of r16 to r23 under the printed form of an expression
      for its content after the step's own instruction, and with that content
      exactly when that instruction keeps the register. */
  lemma {:induction false} WrittenStepsTellTheTruth(cfg: Config, steps: seq<StepState>, final: seq<Receipt>,
                                                    after: Registers, i: nat, k: nat)
    requires |SeenAtEnd([], steps)| <= |final| && Attribution.LinesDiffer(Observations(cfg, steps))
    requires i < |steps| && k < 8 && FollowedRun(Code(steps), Contents(steps, after))
    ensures var w := RecordedSteps.WrittenSteps(cfg, steps, final);
            && |w| == 1 + |steps| && w[i + 1].StepRecord? && k < |w[i + 1].variables|
            && TellsTheTruth(cfg.params, Code(steps)[..i + 1], Contents(steps, after)[..i + 2],
                             w[i + 1].variables[k], 16 + k)
  {
    var obs := Observations(cfg, steps);
    RecordedSteps.OneWrittenStepEach(cfg, steps, final);
    ObservedAtLeastEight(cfg, steps, i);
    FirstOfOwnStep(obs, i, Attribution.Shown(obs, RecordedSteps.Assigned(cfg, final)), k);
    ObservedTruth(cfg, steps, after, i, k);
  }

  lemma {:induction false} ObservedAtLeastEight(cfg: Config, steps: seq<StepState>, i: nat)
    requires i < |steps|
    ensures |Observations(cfg, steps)[i].variables| >= 8
  {
    if i < |steps| - 1 {
      ObservedAtLeastEight(cfg, Front(steps), i);
      ObservationsFront(cfg, steps);
      assert Observations(cfg, steps)[i] == Front(Observations(cfg, steps))[i];
    }
  }
}
