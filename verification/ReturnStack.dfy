/** The machine's own stack of return addresses, and exactly when the
    recorder's frames are that stack. */
module ReturnStack {
  import opened Prelude
  import opened Machine
  import opened SourceLevel

  function Addresses(frames: seq<Frame>): (r: seq<u64>)
    ensures |r| == |frames|
  {
    seq(|frames|, i requires 0 <= i < |frames| => frames[i].returnAddr)
  }

  /** A jump back to the innermost address held; the bottom one is kept. */
  predicate ReturnsFrom(held: seq<u64>, s: StepState) {
    |held| > 1 && JumpsTo(s, Last(held))
  }

  /** The addresses held after one instruction. */
  function ShadowStep(held: seq<u64>, s: StepState): seq<u64> {
    if SavesAddress(s) then held + [NextAddress(s)]
    else if ReturnsFrom(held, s) then Front(held)
    else held
  }

  /** The return addresses the machine holds after executing `steps`: a call
      adds its own, a jump to the innermost one drops it. */
  function ShadowStack(base: seq<u64>, steps: seq<StepState>): seq<u64> {
    if steps == [] then base else ShadowStep(ShadowStack(base, Front(steps)), Last(steps))
  }

  /** Before instruction `k` runs. */
  function HeldBefore(steps: seq<StepState>, k: nat): (held: seq<u64>)
    requires k <= |steps|
  {
    ShadowStack([U64_MAX], steps[..k])
  }

  /** Once instruction `k` has been recorded, the frames hold exactly the
      addresses the machine holds when that instruction is about to run. */
  predicate FramesFollow(d: Debug, steps: seq<StepState>, k: nat)
    requires k < |steps|
  {
    Addresses(Run(d, Initial(d), steps[..k + 1]).frames) == HeldBefore(steps, k)
  }

  /** Instruction `k` is where the one before it leads: a return lands on the
      address it jumps to, and otherwise no instruction runs at the return
      address of the innermost activation while that activation is open. At a
      callee's entry the activation meant is the caller's. */
  predicate Arrives(steps: seq<StepState>, k: nat)
    requires 0 < k < |steps|
  {
    var held, s, pc := HeldBefore(steps, k - 1), steps[k - 1], AbsPc(steps[k]);
    var own := if SavesAddress(s) then held else ShadowStep(held, s);
    && (!SavesAddress(s) && ReturnsFrom(held, s) ==> pc == Last(held))
    && (|own| > 1 ==> pc != Last(own))
  }

  // ----- what one arrival does

  lemma {:induction false} PopsAreAPrefix(st: Core, pc: u64)
    ensures |PopReturns(st, pc).frames| <= |st.frames|
    ensures Addresses(PopReturns(st, pc).frames) == Addresses(st.frames)[..|PopReturns(st, pc).frames|]
    decreases |st.frames|
  {
    if |st.frames| > 1 && Last(st.frames).returnAddr == pc {
      PopsAreAPrefix(PopFrame(st), pc);
      assert Addresses(PopFrame(st).frames) == Addresses(st.frames)[..|st.frames| - 1];
    } else {
      assert PopReturns(st, pc).frames == st.frames;
    }
  }

  /** Nothing is closed exactly when execution is not at the return address of
      the innermost frame, and that frame alone exactly when it is and the
      frame below is the bottom one or returns elsewhere. */
  lemma PopsExactly(st: Core, pc: u64)
    ensures var held, left := Addresses(st.frames), Addresses(PopReturns(st, pc).frames);
            && (left == held <==> |held| == 1 || Last(held) != pc)
            && (|held| > 1 ==> (left == Front(held) <==>
                  Last(held) == pc && (|held| == 2 || Last(Front(held)) != pc)))
  {
    PopsAreAPrefix(st, pc);
    if |st.frames| > 1 && Last(st.frames).returnAddr == pc {
      PopsAreAPrefix(PopFrame(st), pc);
      ArrivalClosesOneFrame(st, pc);
    }
  }

  lemma {:induction false} PendingAfter(d: Debug, steps: seq<StepState>)
    requires steps != []
    ensures Run(d, Initial(d), steps).pending ==
            if SavesAddress(Last(steps)) then Some(NextAddress(Last(steps))) else None
  {
  }

  lemma VisitKeepsAddresses(d: Debug, st: Core, s: StepState)
    ensures Addresses(Visit(d, st, s).frames) == Addresses(st.frames)
  {
    var frames := Visit(d, st, s).frames;
    forall i | 0 <= i < |frames| ensures frames[i].returnAddr == st.frames[i].returnAddr {
    }
  }

  lemma EnterAddsAddress(d: Debug, st: Core, index: nat)
    ensures Addresses(EnterCall(d, st, index).frames) ==
            Addresses(st.frames) + if st.pending.Some? then [st.pending.value] else []
  {
  }

  /** The frames after an instruction: those left by its arrival, and the one
      of a call just entered. */
  lemma FramesOfStep(d: Debug, st: Core, s: StepState)
    ensures Addresses(OnStep(d, st, s).frames) ==
            Addresses(PopReturns(st, AbsPc(s)).frames) + if st.pending.Some? then [st.pending.value] else []
  {
    var popped := PopReturns(st, AbsPc(s));
    PendingKept(st, AbsPc(s));
    EnterAddsAddress(d, popped, OpcodeIndex(s));
    VisitKeepsAddresses(d, EnterCall(d, popped, OpcodeIndex(s)), s);
  }

  lemma {:induction false} PendingKept(st: Core, pc: u64)
    ensures PopReturns(st, pc).pending == st.pending
    decreases |st.frames|
  {
    if |st.frames| > 1 && Last(st.frames).returnAddr == pc {
      PendingKept(PopFrame(st), pc);
    }
  }

  /** Where the frames followed so far, they follow on exactly if instruction
      `k` arrives. */
  lemma FollowOn(d: Debug, steps: seq<StepState>, k: nat)
    requires 0 < k < |steps| && FramesFollow(d, steps, k - 1)
    ensures FramesFollow(d, steps, k) <==> Arrives(steps, k)
  {
    var st, s, pc := Run(d, Initial(d), steps[..k]), steps[k - 1], AbsPc(steps[k]);
    assert Front(steps[..k]) == steps[..k - 1] && Front(steps[..k + 1]) == steps[..k];
    PendingAfter(d, steps[..k]);
    FramesOfStep(d, st, steps[k]);
    PopsExactly(st, pc);
    SamePops(Addresses(PopReturns(st, pc).frames), HeldBefore(steps, k - 1), NextAddress(s));
  }

  lemma SamePops(left: seq<u64>, held: seq<u64>, addr: u64)
    ensures left + [addr] == held + [addr] <==> left == held
    ensures left + [] == left
  {
    if left + [addr] == held + [addr] {
      assert left == (left + [addr])[..|left|] && held == (held + [addr])[..|held|];
    }
  }

  lemma FramesFollowFirst(d: Debug, steps: seq<StepState>)
    requires steps != []
    ensures FramesFollow(d, steps, 0)
  {
    var st := Initial(d);
    assert Front(steps[..1]) == [] && steps[..0] == [];
    FramesOfStep(d, st, steps[0]);
    assert PopReturns(st, AbsPc(steps[0])) == st;
  }

  /** For every instruction stream whatever: the recorder's frames are the
      machine's stack of return addresses at every step if and only if every
      instruction arrives. */
  lemma {:induction false} FramesFollowIffArrives(d: Debug, steps: seq<StepState>)
    ensures (forall k :: 0 <= k < |steps| ==> FramesFollow(d, steps, k)) <==>
            forall k :: 0 < k < |steps| ==> Arrives(steps, k)
  {
    if forall k :: 0 < k < |steps| ==> Arrives(steps, k) {
      FollowWhileArriving(d, steps, |steps|);
    } else {
      var k :| 0 < k < |steps| && !Arrives(steps, k);
      if FramesFollow(d, steps, k - 1) {
        FollowOn(d, steps, k);
      }
    }
  }

  lemma {:induction false} FollowWhileArriving(d: Debug, steps: seq<StepState>, n: nat)
    requires n <= |steps| && forall k :: 0 < k < n ==> Arrives(steps, k)
    ensures forall k :: 0 <= k < n ==> FramesFollow(d, steps, k)
  {
    if n == 1 {
      FramesFollowFirst(d, steps);
    } else if n > 1 {
      FollowWhileArriving(d, steps, n - 1);
      FollowOn(d, steps, n - 1);
    }
  }

  predicate NoJump(s: StepState) {
    s.instruction.Some? ==> !s.instruction.value.JAL?
  }

  /** A run on which they part, wherever the code is loaded: `base` calls 100
      further on, which calls itself at 104; the inner activation's instruction
      at 108 is not its return to 108, but it is taken for one, and the open
      activation's frame is gone. */
  lemma SelfCallLosesItsFrame(d: Debug, base: u64, steps: seq<StepState>)
    requires base + 108 < U64_MAX && |steps| == 5
    requires forall i :: 0 <= i < 5 ==> AbsPc(steps[i]) == base + [0, 100, 104, 100, 108][i]
    requires SavesAddress(steps[0]) && NoJump(steps[1]) && SavesAddress(steps[2]) && NoJump(steps[3])
    ensures forall k :: 0 <= k < 4 ==> FramesFollow(d, steps, k)
    ensures HeldBefore(steps, 4) == [U64_MAX, base + 4, base + 108]
    ensures !FramesFollow(d, steps, 4)
  {
    assert steps[..0] == [];
    forall i | 0 <= i < 4 ensures HeldBefore(steps, i + 1) == ShadowStep(HeldBefore(steps, i), steps[i]) {
      assert Front(steps[..i + 1]) == steps[..i];
    }
    assert HeldBefore(steps, 1) == [U64_MAX, base + 4];
    assert HeldBefore(steps, 2) == [U64_MAX, base + 4];
    assert HeldBefore(steps, 3) == [U64_MAX, base + 4, base + 108];
    assert HeldBefore(steps, 4) == [U64_MAX, base + 4, base + 108];
    assert forall k :: 0 < k < 4 ==> Arrives(steps, k);
    FollowWhileArriving(d, steps, 4);
    assert !Arrives(steps, 4);
    FollowOn(d, steps, 4);
  }
}
