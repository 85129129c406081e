/** The contract call tracker: a stack of execution contexts driven by the
    receipts, and the source map selected by its top. */
module ContractCalls {
  import opened Prelude
  import opened Machine

  datatype Kind = Script | Contract | Predicate

  datatype Context = Context(id: ContractId, kind: Kind)

  /** A context switch; `depth` is the stack's height after it. */
  datatype Switch =
    | Enter(from: ContractId, to: ContractId, depth: nat)
    | Exit(from: ContractId, to: ContractId, depth: nat)

  const SCRIPT: Context := Context(ZERO_ID, Script)
  const PREDICATE: Context := Context(ZERO_ID, Predicate)

  type Stack = s: seq<Context> | s != [] witness [SCRIPT]

  predicate IsReturn(r: Receipt) {
    r.Return? || r.ReturnData?
  }

  /** A call pushes its callee; a return pops, except that the bottom context
      stays. */
  function After(stack: Stack, r: Receipt): Stack {
    if r.Call? then stack + [Context(r.to, Contract)]
    else if IsReturn(r) && |stack| > 1 then Front(stack)
    else stack
  }

  function SwitchOf(stack: Stack, r: Receipt): seq<Switch> {
    if r.Call? then [Enter(r.id, r.to, |stack| + 1)]
    else if IsReturn(r) && |stack| > 1 then [Exit(r.id, Last(Front(stack)).id, |stack| - 1)]
    else []
  }

  function AfterAll(stack: Stack, rs: seq<Receipt>): Stack {
    if rs == [] then stack else After(AfterAll(stack, Front(rs)), Last(rs))
  }

  function Switches(stack: Stack, rs: seq<Receipt>): seq<Switch> {
    if rs == [] then [] else Switches(stack, Front(rs)) + SwitchOf(AfterAll(stack, Front(rs)), Last(rs))
  }

  lemma {:induction false} AfterTwoParts(stack: Stack, a: seq<Receipt>, b: seq<Receipt>)
    ensures AfterAll(stack, a + b) == AfterAll(AfterAll(stack, a), b)
  {
    if b == [] {
      assert a + b == a;
    } else {
      AfterTwoParts(stack, a, Front(b));
      assert Front(a + b) == a + Front(b) && Last(a + b) == Last(b);
    }
  }

  lemma {:induction false} SwitchesTwoParts(stack: Stack, a: seq<Receipt>, b: seq<Receipt>)
    ensures Switches(stack, a + b) == Switches(stack, a) + Switches(AfterAll(stack, a), b)
  {
    if b == [] {
      assert a + b == a;
    } else {
      var front := a + Front(b);
      SwitchesTwoParts(stack, a, Front(b));
      AfterTwoParts(stack, a, Front(b));
      assert Front(a + b) == front && Last(a + b) == Last(b);
      Regroup3(Switches(stack, a), Switches(AfterAll(stack, a), Front(b)),
               SwitchOf(AfterAll(stack, front), Last(b)));
    }
  }

  lemma InTwoParts(stack: Stack, a: seq<Receipt>, b: seq<Receipt>)
    ensures AfterAll(stack, a + b) == AfterAll(AfterAll(stack, a), b)
    ensures Switches(stack, a + b) == Switches(stack, a) + Switches(AfterAll(stack, a), b)
  {
    AfterTwoParts(stack, a, b);
    SwitchesTwoParts(stack, a, b);
  }

  // ----- source maps

  type LineMap = seq<(nat, Path, u32)>

  /** The first entry for an opcode index. */
  function Find(m: LineMap, index: nat): Option<(Path, u32)> {
    if m == [] then None
    else if m[0].0 == index then Some((m[0].1, m[0].2))
    else Find(m[1..], index)
  }

  /** The contract's own map, then the default map, then the index as a line. */
  function Locate(own: Option<LineMap>, fallback: LineMap, fallbackPath: Path, index: nat): (Path, u32) {
    if own.Some? && Find(own.value, index).Some? then Find(own.value, index).value
    else if Find(fallback, index).Some? then Find(fallback, index).value
    else (fallbackPath, (index + 1) % 0x1_0000_0000)
  }

  /** Entry `i` is the first one for the index. */
  predicate IsFirstFor(m: LineMap, index: nat, i: nat)
    requires i < |m|
  {
    m[i].0 == index && forall j :: 0 <= j < i ==> m[j].0 != index
  }

  predicate Unmapped(m: LineMap, index: nat) {
    forall i :: 0 <= i < |m| ==> m[i].0 != index
  }

  lemma {:induction false} FindsFirst(m: LineMap, index: nat)
    ensures forall i :: 0 <= i < |m| && IsFirstFor(m, index, i) ==> Find(m, index) == Some((m[i].1, m[i].2))
    ensures Unmapped(m, index) <==> Find(m, index) == None
  {
    if m != [] && m[0].0 != index {
      FindsFirst(m[1..], index);
      forall i | 0 <= i < |m| && IsFirstFor(m, index, i) ensures Find(m, index) == Some((m[i].1, m[i].2)) {
        assert IsFirstFor(m[1..], index, i - 1);
      }
      if Unmapped(m[1..], index) {
        forall i | 0 <= i < |m| ensures m[i].0 != index {
          assert i > 0 ==> m[i] == m[1..][i - 1];
        }
      }
      if Unmapped(m, index) {
        forall i | 0 <= i < |m[1..]| ensures m[1..][i].0 != index {
          assert m[1..][i] == m[i + 1];
        }
      }
    }
  }

  /** A step is located by the first entry for its index in the contract's own
      map, else in the default map, else at the index plus one as a line. */
  lemma {:induction false} LocatedExactly(own: Option<LineMap>, fallback: LineMap, path: Path, index: nat)
    ensures own.Some? ==> forall i :: 0 <= i < |own.value| && IsFirstFor(own.value, index, i) ==>
              Locate(own, fallback, path, index) == (own.value[i].1, own.value[i].2)
    ensures own.None? || Unmapped(own.value, index) ==>
              forall i :: 0 <= i < |fallback| && IsFirstFor(fallback, index, i) ==>
                Locate(own, fallback, path, index) == (fallback[i].1, fallback[i].2)
    ensures (own.None? || Unmapped(own.value, index)) && Unmapped(fallback, index) ==>
              Locate(own, fallback, path, index) == (path, (index + 1) % 0x1_0000_0000)
  {
    if own.Some? {
      FindsFirst(own.value, index);
    }
    FindsFirst(fallback, index);
  }

  class Tracker {
    var callStack: seq<Context>
    var sourceMaps: map<ContractId, LineMap>
    var sourcePaths: map<ContractId, Path>
    var processedReceiptCount: nat
    var inPredicate: bool

    /** The bottom entry is the script context, so the stack is never empty. */
    ghost predicate Valid()
      reads this
    {
      callStack != [] && callStack[0] == SCRIPT
    }

    constructor ()
      ensures Valid() && callStack == [SCRIPT]
      ensures sourceMaps == map[] && sourcePaths == map[] && processedReceiptCount == 0 && !inPredicate
    {
      callStack := [SCRIPT];
      sourceMaps, sourcePaths, processedReceiptCount, inPredicate := map[], map[], 0, false;
    }

    method RegisterSourceMap(id: ContractId, lines: LineMap, path: Path)
      modifies `sourceMaps, `sourcePaths
      ensures sourceMaps == old(sourceMaps)[id := lines] && sourcePaths == old(sourcePaths)[id := path]
    {
      sourceMaps := sourceMaps[id := lines];
      sourcePaths := sourcePaths[id := path];
    }

    method LookupSource(index: nat, fallback: LineMap, fallbackPath: Path) returns (path: Path, line: u32)
      requires Valid()
      ensures (path, line) == Locate(if Last(callStack).id in sourceMaps then Some(sourceMaps[Last(callStack).id]) else None,
                           fallback, fallbackPath, index)
    {
      var id := Last(callStack).id;
      if id in sourceMaps && Find(sourceMaps[id], index).Some? {
        return Find(sourceMaps[id], index).value.0, Find(sourceMaps[id], index).value.1;
      }
      if Find(fallback, index).Some? {
        return Find(fallback, index).value.0, Find(fallback, index).value.1;
      }
      return fallbackPath, (index + 1) % 0x1_0000_0000;
    }

    method CurrentSourcePath(fallback: Path) returns (path: Path)
      requires Valid()
      ensures path == if Last(callStack).id in sourcePaths then sourcePaths[Last(callStack).id] else fallback
    {
      var id := Last(callStack).id;
      path := if id in sourcePaths then sourcePaths[id] else fallback;
    }

    method EnterPredicate()
      requires Valid()
      modifies `callStack, `inPredicate
      ensures Valid() && inPredicate && callStack == old(callStack) + [PREDICATE]
    {
      inPredicate := true;
      callStack := callStack + [PREDICATE];
    }

    /** Leaves the predicate context if it is the current one. */
    method ExitPredicate()
      requires Valid()
      modifies `callStack, `inPredicate
      ensures Valid() && !inPredicate
      ensures callStack == AfterExit(old(callStack))
    {
      inPredicate := false;
      if Last(callStack).kind == Predicate {
        callStack := Front(callStack);
      }
    }

    /** Processes the receipts not seen before. */
    method ProcessReceipts(receipts: seq<Receipt>) returns (switches: seq<Switch>)
      requires Valid() && processedReceiptCount <= |receipts|
      modifies `callStack, `processedReceiptCount
      ensures Valid() && processedReceiptCount == |receipts|
      ensures callStack == AfterAll(old(callStack), receipts[old(processedReceiptCount)..])
      ensures switches == Switches(old(callStack), receipts[old(processedReceiptCount)..])
    {
      switches := [];
      var newReceipts := receipts[processedReceiptCount..];
      for i := 0 to |newReceipts|
        invariant Valid()
        invariant callStack == AfterAll(old(callStack), newReceipts[..i])
        invariant switches == Switches(old(callStack), newReceipts[..i])
      {
        var r := newReceipts[i];
        assert Front(newReceipts[..i + 1]) == newReceipts[..i];
        if r.Call? {
          callStack := callStack + [Context(r.to, Contract)];
          switches := switches + [Enter(r.id, r.to, |callStack|)];
        } else if IsReturn(r) {
          // The bottom context is never popped.
          if |callStack| > 1 {
            callStack := Front(callStack);
            switches := switches + [Exit(r.id, Last(callStack).id, |callStack|)];
          }
        }
      }
      assert newReceipts[..|newReceipts|] == newReceipts;
      processedReceiptCount := |receipts|;
    }
  }

  /** The stack after leaving predicate mode. */
  function AfterExit(stack: seq<Context>): seq<Context> {
    if stack != [] && Last(stack).kind == Predicate then Front(stack) else stack
  }

  // ----- chains of growing lists

  /** Feeding growing lists one after another, as `ProcessReceipts` does. */
  function Fed(stack: Stack, lists: seq<seq<Receipt>>): (r: (Stack, seq<Switch>, nat))
    requires forall i :: 0 <= i < |lists| - 1 ==> lists[i] <= lists[i + 1]
    ensures r.2 == if lists == [] then 0 else |Last(lists)|
  {
    if lists == [] then (stack, [], 0)
    else
      var (before, switches, count) := Fed(stack, Front(lists));
      assert lists != [] && |lists| > 1 ==> Last(Front(lists)) <= Last(lists);
      var more := Last(lists)[count..];
      (AfterAll(before, more), switches + Switches(before, more), |Last(lists)|)
  }

  /** However the list grew, the switches and the stack are those of the full
      list processed at once. */
  lemma {:induction false} GrowthIsIrrelevant(stack: Stack, lists: seq<seq<Receipt>>)
    requires lists != [] && forall i :: 0 <= i < |lists| - 1 ==> lists[i] <= lists[i + 1]
    ensures Fed(stack, lists) == (AfterAll(stack, Last(lists)), Switches(stack, Last(lists)), |Last(lists)|)
  {
    if |lists| == 1 {
      assert Front(lists) == [] && Last(lists)[0..] == Last(lists);
      assert [] + Switches(stack, Last(lists)) == Switches(stack, Last(lists));
    } else {
      GrowthIsIrrelevant(stack, Front(lists));
      var seen := Last(Front(lists));
      assert seen <= Last(lists);
      assert Last(lists) == seen + Last(lists)[|seen|..];
      InTwoParts(stack, seen, Last(lists)[|seen|..]);
    }
  }

  // ----- balanced segments

  /** Calls minus returns. */
  function Balance(rs: seq<Receipt>): int {
    if rs == [] then 0
    else
      Balance(Front(rs))
      + (if Last(rs).Call? then 1 else if Last(rs).Return? || Last(rs).ReturnData? then -1 else 0)
  }

  /** No prefix returns more often than it calls. */
  predicate NeverBelow(rs: seq<Receipt>) {
    forall i :: 0 <= i <= |rs| ==> Balance(rs[..i]) >= 0
  }

  predicate Balanced(rs: seq<Receipt>) {
    NeverBelow(rs) && Balance(rs) == 0
  }

  lemma NeverBelowFront(rs: seq<Receipt>)
    requires rs != [] && NeverBelow(rs)
    ensures NeverBelow(Front(rs)) && Balance(rs) >= 0
  {
    assert rs[..|rs|] == rs;
    forall i | 0 <= i <= |Front(rs)| ensures Balance(Front(rs)[..i]) >= 0 {
      assert Front(rs)[..i] == rs[..i];
    }
  }

  /** Unreturned calls sit above an untouched stack. */
  lemma {:induction false} StackKept(stack: Stack, rs: seq<Receipt>)
    requires NeverBelow(rs)
    ensures |AfterAll(stack, rs)| == |stack| + Balance(rs)
    ensures stack <= AfterAll(stack, rs)
  {
    if rs != [] {
      NeverBelowFront(rs);
      StackKept(stack, Front(rs));
    }
  }

  /** A balanced segment restores the exact stack, hence every answer of the
      source lookup. */
  lemma BalancedRestores(stack: Stack, rs: seq<Receipt>)
    requires Balanced(rs)
    ensures AfterAll(stack, rs) == stack
  {
    StackKept(stack, rs);
  }

  /** A call, a balanced segment and a return: the exit carries the enter's
      depth minus one and names the context current before the call. */
  lemma ExitMatchesEnter(stack: Stack, call: Receipt, rs: seq<Receipt>, ret: Receipt)
    requires call.Call? && Balanced(rs) && (ret.Return? || ret.ReturnData?)
    ensures AfterAll(stack, [call] + rs + [ret]) == stack
    ensures var sw := Switches(stack, [call] + rs + [ret]);
            && |sw| >= 2
            && sw[0] == Enter(call.id, call.to, |stack| + 1)
            && Last(sw) == Exit(ret.id, Last(stack).id, sw[0].depth - 1)
  {
    var inside := stack + [Context(call.to, Contract)];
    assert Front([call]) == [] && Front([ret]) == [];
    assert AfterAll(stack, [call]) == inside;
    BalancedRestores(inside, rs);
    InTwoParts(stack, [call], rs);
    InTwoParts(stack, [call] + rs, [ret]);
    assert Front(inside) == stack;
  }

  // ----- predicate mode

  datatype Operation = Receive(rs: seq<Receipt>) | BeginPredicate | EndPredicate

  function Perform(stack: Stack, op: Operation): seq<Context> {
    match op
    case Receive(rs) => AfterAll(stack, rs)
    case BeginPredicate => stack + [PREDICATE]
    case EndPredicate => AfterExit(stack)
  }

  function PerformAll(ops: seq<Operation>): (stack: seq<Context>)
    ensures stack != [] && stack[0] == SCRIPT
  {
    if ops == [] then [SCRIPT]
    else
      var before := PerformAll(Front(ops));
      BottomKept(before, Last(ops));
      Perform(before, Last(ops))
  }

  /** Whatever is done to a tracker, its bottom entry stays. */
  lemma BottomKept(stack: Stack, op: Operation)
    requires stack[0] == SCRIPT
    ensures Perform(stack, op) != [] && Perform(stack, op)[0] == SCRIPT
  {
    if op.Receive? {
      BottomKeptByReceipts(stack, op.rs);
    }
  }

  lemma {:induction false} BottomKeptByReceipts(stack: Stack, rs: seq<Receipt>)
    ensures AfterAll(stack, rs)[0] == stack[0]
  {
    if rs != [] {
      BottomKeptByReceipts(stack, Front(rs));
    }
  }

  /** The running height of the stack of a predicate recording: it starts at 2
      and never falls below 1. */
  function Height(rs: seq<Receipt>): nat {
    if rs == [] then 2
    else
      var h := Height(Front(rs));
      if Last(rs).Call? then h + 1 else if (Last(rs).Return? || Last(rs).ReturnData?) && h > 1 then h - 1 else h
  }

  /** The predicate context has been popped by a return. */
  predicate Popped(rs: seq<Receipt>) {
    rs != [] && (Popped(Front(rs)) || Height(rs) == 1)
  }

  lemma {:induction false} PredicateStack(rs: seq<Receipt>)
    ensures var stack := AfterAll([SCRIPT, PREDICATE], rs);
            && |stack| == Height(rs) && stack[0] == SCRIPT
            && (!Popped(rs) ==> Height(rs) >= 2 && stack[1] == PREDICATE)
            && (forall i :: (if Popped(rs) then 1 else 2) <= i < |stack| ==> stack[i].kind == Contract)
  {
    if rs != [] {
      PredicateStack(Front(rs));
    }
  }

  /** Ending predicate mode gives the script context back exactly when the
      receipts left no contract call open: above the predicate context while it
      is there, above the script once a stray return has popped it. */
  lemma PredicateModeEnds(rs: seq<Receipt>)
    ensures AfterExit(AfterAll([SCRIPT, PREDICATE], rs)) == [SCRIPT] <==>
            Height(rs) == (if Popped(rs) then 1 else 2)
  {
    PredicateStack(rs);
    var stack := AfterAll([SCRIPT, PREDICATE], rs);
    if Height(rs) == 2 && !Popped(rs) {
      assert Front(stack) == [SCRIPT];
    }
    if Last(stack).kind == Predicate {
      assert |Front(stack)| == |stack| - 1;
    }
  }

  /** A predicate that calls a contract which does not return keeps both. */
  lemma UnreturnedCallStays(call: Receipt)
    requires call.Call?
    ensures AfterExit(AfterAll([SCRIPT, PREDICATE], [call])) == [SCRIPT, PREDICATE, Context(call.to, Contract)]
  {
    assert Front([call]) == [];
    assert AfterAll([SCRIPT, PREDICATE], [call]) == [SCRIPT, PREDICATE] + [Context(call.to, Contract)];
  }
}
