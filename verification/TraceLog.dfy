/** The trace writer: the requests it receives, and the records its
    pending-step buffer turns them into. */
module TraceLog {
  import opened Prelude
  import opened Machine

  /** A recorded value; the integer width stands for its registered type. */
  datatype Value =
    | Int(i: int, bits: nat)
    | Bool(b: bool)
    | Sequence(elements: seq<Value>, isSlice: bool)
    | Tuple(elements: seq<Value>)
    | Struct(fields: seq<Value>)
    | Variant(discriminator: string, contents: Value)
    | Absent

  datatype Variable = Variable(name: string, value: Value)

  /** A source position; columns do not separate steps. */
  datatype Position = Position(path: Path, line: u32)

  /** What a call event names. */
  datatype Callee =
    | Declared(name: string)
    | AtLocation(path: Path, line: u32)
    | AtInstruction(index: nat)
    | OfContract(id: ContractId)
    | Synthesised(name: string)

  datatype Channel = EvmEvent | ErrorEvent | InfoEvent

  datatype Request =
    | Start(at: Position)
    | Step(at: Position)
    | Assign(variable: Variable)
    | Call(callee: Callee, at: Position)
    | Return
    | Event(channel: Channel, receipt: Receipt)
    | Storage(write: bool, keyReg: Reg, key: u64, value: u64)

  // ----- call depth

  function Delta(r: Request): int {
    match r
    case Start(_) => 1
    case Call(_, _) => 1
    case Return => -1
    case _ => 0
  }

  /** Frames opened minus frames closed. */
  function Depth(rs: seq<Request>): int {
    if rs == [] then 0 else Depth(Front(rs)) + Delta(Last(rs))
  }

  lemma {:induction false} DepthAppend(a: seq<Request>, b: seq<Request>)
    ensures Depth(a + b) == Depth(a) + Depth(b)
  {
    if b == [] {
      assert a + b == a;
    } else {
      DepthAppend(a, Front(b));
      assert Front(a + b) == a + Front(b) && Last(a + b) == Last(b);
    }
  }

  /** `n` frame closings. */
  function Returns(n: nat): (r: seq<Request>)
    ensures |r| == n && forall i :: 0 <= i < n ==> r[i] == Request.Return
  {
    seq(n, _ => Request.Return)
  }

  lemma {:induction false} DepthOfReturns(n: nat)
    ensures Depth(Returns(n)) + n == 0
  {
    if n > 0 {
      assert Front(Returns(n)) == Returns(n - 1);
      DepthOfReturns(n - 1);
    }
  }

  /** Every non-empty prefix has a frame open. */
  predicate StaysOpen(rs: seq<Request>) {
    forall i :: 1 <= i <= |rs| ==> Depth(rs[..i]) >= 1
  }

  /** Appended to a log with `base` frames open, it keeps one open throughout. */
  predicate KeepsOpen(base: int, rs: seq<Request>) {
    rs != [] ==> KeepsOpen(base, Front(rs)) && base + Depth(rs) >= 1
  }

  lemma {:induction false} KeepsOpenAppend(base: int, a: seq<Request>, b: seq<Request>)
    ensures KeepsOpen(base, a + b) <==> KeepsOpen(base, a) && KeepsOpen(base + Depth(a), b)
  {
    if b == [] {
      assert a + b == a;
    } else {
      KeepsOpenAppend(base, a, Front(b));
      DepthAppend(a, b);
      assert Front(a + b) == a + Front(b);
    }
  }

  lemma {:induction false} StaysOpenKeeps(rs: seq<Request>)
    ensures StaysOpen(rs) <==> KeepsOpen(0, rs)
  {
    if rs != [] {
      var front := Front(rs);
      StaysOpenKeeps(front);
      assert rs[..|rs|] == rs;
      forall i | 1 <= i <= |front| ensures front[..i] == rs[..i] {
      }
      if StaysOpen(rs) {
        forall i | 1 <= i <= |front| ensures Depth(front[..i]) >= 1 {
          assert Depth(rs[..i]) >= 1;
        }
        assert Depth(rs[..|rs|]) >= 1;
      }
    }
  }

  /** One request keeps a frame open exactly when one is left after it. */
  lemma KeepsOpenOne(base: int, r: Request)
    ensures Depth([r]) == Delta(r)
    ensures KeepsOpen(base, [r]) <==> base + Delta(r) >= 1
  {
    assert Front([r]) == [];
  }

  // ----- views of a request log

  /** The elements satisfying `p`, in order. */
  function Filter<T>(p: T -> bool, rs: seq<T>): seq<T> {
    if rs == [] then []
    else if p(Last(rs)) then Filter(p, Front(rs)) + [Last(rs)]
    else Filter(p, Front(rs))
  }

  lemma {:induction false} FilterAppend<T>(p: T -> bool, a: seq<T>, b: seq<T>)
    ensures Filter(p, a + b) == Filter(p, a) + Filter(p, b)
  {
    if b == [] {
      assert a + b == a;
    } else {
      FilterAppend(p, a, Front(b));
      assert Front(a + b) == a + Front(b) && Last(a + b) == Last(b);
    }
  }

  lemma {:induction false} FilterAll<T>(p: T -> bool, a: seq<T>)
    requires forall r :: r in a ==> p(r)
    ensures Filter(p, a) == a
  {
    if a != [] {
      var front, last := Front(a), Last(a);
      assert a == front + [last];
      FilterAll(p, front);
    }
  }

  lemma {:induction false} FilterNone<T>(p: T -> bool, a: seq<T>)
    requires forall r :: r in a ==> !p(r)
    ensures Filter(p, a) == []
  {
    if a != [] {
      FilterNone(p, Front(a));
    }
  }

  lemma FilterLast<T>(p: T -> bool, a: seq<T>, b: seq<T>, c: seq<T>)
    requires (forall r :: r in b ==> !p(r)) && forall r :: r in c ==> p(r)
    ensures Filter(p, a + b + c) == Filter(p, a) + c
  {
    FilterAppend(p, a + b, c);
    FilterAppend(p, a, b);
    FilterNone(p, b);
    FilterAll(p, c);
    assert Filter(p, a) + [] == Filter(p, a);
  }

  lemma FilterMiddle<T>(p: T -> bool, a: seq<T>, b: seq<T>, c: seq<T>)
    requires (forall r :: r in b ==> p(r)) && forall r :: r in c ==> !p(r)
    ensures Filter(p, a + b + c) == Filter(p, a) + b
  {
    FilterAppend(p, a + b, c);
    FilterAppend(p, a, b);
    FilterAll(p, b);
    FilterNone(p, c);
  }

  /** Calls, steps and returns. */
  predicate IsStructural(r: Request) {
    r.Start? || r.Step? || r.Call? || r.Return?
  }

  predicate IsReceiptEvent(r: Request) {
    r.Event?
  }

  /** Receipt events up to a point, and none from it on. */
  predicate EventsThenRest(rs: seq<Request>, a: nat) {
    && a <= |rs|
    && (forall k :: 0 <= k < a ==> rs[k].Event?)
    && (forall k :: a <= k < |rs| ==> !rs[k].Event?)
  }

  lemma EventsPut(events: seq<Request>, rest: seq<Request>)
    requires forall r :: r in events ==> r.Event?
    requires forall r :: r in rest ==> !r.Event?
    ensures EventsThenRest(events + rest, |events|)
  {
  }

  // ----- receipts

  /** Calls and returns are told by the frames, not by events. */
  predicate HasEvent(r: Receipt) {
    !r.Call? && !r.Return? && !r.ReturnData?
  }

  /** What a run did besides calling and returning; the closing `ScriptResult`
      is not part of it. */
  predicate IsEffect(r: Receipt) {
    HasEvent(r) && !r.ScriptResult?
  }

  /** The event of a receipt; calls and returns have none of their own. */
  function Route(r: Receipt): seq<Request> {
    match r
    case Call(_, _) => []
    case Return(_, _) => []
    case ReturnData(_) => []
    case Panic(_, _) => [Event(ErrorEvent, r)]
    case Revert(_, _) => [Event(ErrorEvent, r)]
    case ScriptResult(_) => [Event(InfoEvent, r)]
    case _ => [Event(EvmEvent, r)]
  }

  function RouteAll(rs: seq<Receipt>): (out: seq<Request>)
    ensures forall i :: 0 <= i < |out| ==> out[i].Event?
  {
    if rs == [] then [] else RouteAll(Front(rs)) + Route(Last(rs))
  }

  /** Routing of the receipts left when the run has ended: the closing
      `ScriptResult` is not repeated. */
  function RouteTail(rs: seq<Receipt>): (out: seq<Request>)
    ensures forall i :: 0 <= i < |out| ==> out[i].Event?
  {
    if rs == [] then []
    else if Last(rs).ScriptResult? then RouteTail(Front(rs))
    else RouteTail(Front(rs)) + Route(Last(rs))
  }

  lemma {:induction false} RouteAllAppend(a: seq<Receipt>, b: seq<Receipt>)
    ensures RouteAll(a + b) == RouteAll(a) + RouteAll(b)
  {
    if b == [] {
      assert a + b == a;
    } else {
      RouteAllAppend(a, Front(b));
      assert Front(a + b) == a + Front(b) && Last(a + b) == Last(b);
    }
  }

  // ----- the receipts and channels of a log

  /** The receipts a log's events carry, in order. */
  function ReceiptsOf(rs: seq<Request>): seq<Receipt> {
    if rs == [] then []
    else if Last(rs).Event? then ReceiptsOf(Front(rs)) + [Last(rs).receipt]
    else ReceiptsOf(Front(rs))
  }

  /** Panics and reverts are errors, a script result is informative, every
      other receipt is an event of the virtual machine. */
  predicate OnItsChannel(r: Request) {
    r.Event? ==>
      && (r.channel == ErrorEvent <==> r.receipt.Panic? || r.receipt.Revert?)
      && (r.channel == InfoEvent <==> r.receipt.ScriptResult?)
  }

  predicate OnTheirChannels(rs: seq<Request>) {
    forall i :: 0 <= i < |rs| ==> OnItsChannel(rs[i])
  }

  lemma {:induction false} ReceiptsOfAppend(a: seq<Request>, b: seq<Request>)
    ensures ReceiptsOf(a + b) == ReceiptsOf(a) + ReceiptsOf(b)
  {
    if b == [] {
      assert a + b == a;
    } else {
      ReceiptsOfAppend(a, Front(b));
      assert Front(a + b) == a + Front(b) && Last(a + b) == Last(b);
    }
  }

  /** A log's receipts are those of its receipt events. */
  lemma {:induction false} ReceiptsOfEvents(rs: seq<Request>)
    ensures ReceiptsOf(Filter(IsReceiptEvent, rs)) == ReceiptsOf(rs)
    ensures OnTheirChannels(Filter(IsReceiptEvent, rs)) <==> OnTheirChannels(rs)
  {
    if rs != [] {
      ReceiptsOfEvents(Front(rs));
      ChannelsSplit(Front(rs), Last(rs));
      if Last(rs).Event? {
        ChannelsSplit(Filter(IsReceiptEvent, Front(rs)), Last(rs));
        assert Front(Filter(IsReceiptEvent, rs)) == Filter(IsReceiptEvent, Front(rs));
      }
    }
  }

  lemma ChannelsSplit(rs: seq<Request>, r: Request)
    ensures OnTheirChannels(rs + [r]) <==> OnTheirChannels(rs) && OnItsChannel(r)
  {
    var all := rs + [r];
    assert all[|rs|] == r;
    if OnTheirChannels(all) {
      forall i | 0 <= i < |rs| ensures OnItsChannel(rs[i]) {
        assert all[i] == rs[i];
      }
    }
  }

  /** One receipt's routing: exactly one event, on the receipt's channel, if it
      has one, and nothing otherwise. */
  lemma RouteOf(r: Receipt)
    ensures ReceiptsOf(Route(r)) == if HasEvent(r) then [r] else []
    ensures OnTheirChannels(Route(r))
    ensures HasEvent(r) ==> |Route(r)| == 1 && Route(r)[0].Event?
    ensures !HasEvent(r) ==> Route(r) == []
  {
    if Route(r) != [] {
      assert Front(Route(r)) == [];
    }
  }

  /** Routing keeps every receipt with an event, in order, on its channel. */
  lemma {:induction false} RouteAllReceipts(rs: seq<Receipt>)
    ensures ReceiptsOf(RouteAll(rs)) == Filter(HasEvent, rs)
    ensures OnTheirChannels(RouteAll(rs))
  {
    if rs != [] {
      RouteAllReceipts(Front(rs));
      RouteOf(Last(rs));
      ReceiptsOfAppend(RouteAll(Front(rs)), Route(Last(rs)));
    }
  }

  /** The final routing keeps every effect, in order, on its channel. */
  lemma {:induction false} RouteTailReceipts(rs: seq<Receipt>)
    ensures ReceiptsOf(RouteTail(rs)) == Filter(IsEffect, rs)
    ensures OnTheirChannels(RouteTail(rs))
  {
    if rs != [] {
      RouteTailReceipts(Front(rs));
      RouteOf(Last(rs));
      ReceiptsOfAppend(RouteTail(Front(rs)), Route(Last(rs)));
    }
  }

  predicate HasScriptResult(rs: seq<Receipt>) {
    exists i :: 0 <= i < |rs| && rs[i].ScriptResult?
  }

  lemma HasScriptResultSplit(rs: seq<Receipt>)
    requires rs != []
    ensures HasScriptResult(rs) <==> HasScriptResult(Front(rs)) || Last(rs).ScriptResult?
  {
    if i :| 0 <= i < |rs| && rs[i].ScriptResult? && i < |rs| - 1 {
      assert Front(rs)[i].ScriptResult?;
    }
  }

  /** The receipts with an event are the effects, and as many, exactly when
      there is no `ScriptResult`. */
  lemma {:induction false} EffectsAreEvents(rs: seq<Receipt>)
    ensures |Filter(IsEffect, rs)| <= |Filter(HasEvent, rs)|
    ensures HasScriptResult(rs) ==> |Filter(IsEffect, rs)| < |Filter(HasEvent, rs)|
    ensures !HasScriptResult(rs) ==> Filter(IsEffect, rs) == Filter(HasEvent, rs)
  {
    if rs != [] {
      EffectsAreEvents(Front(rs));
      HasScriptResultSplit(rs);
    }
  }

  /** The step-time and the final routing agree exactly on lists without a
      `ScriptResult`; with one, the step-time routing is the longer one. */
  lemma RoutingsAgree(rs: seq<Receipt>)
    ensures |RouteTail(rs)| <= |RouteAll(rs)|
    ensures RouteAll(rs) == RouteTail(rs) <==> !HasScriptResult(rs)
  {
    RouteAllReceipts(rs);
    RouteTailReceipts(rs);
    EffectsAreEvents(rs);
    RoutingsCompared(rs);
  }

  lemma {:induction false} RoutingsCompared(rs: seq<Receipt>)
    ensures |RouteTail(rs)| <= |RouteAll(rs)|
    ensures !HasScriptResult(rs) ==> RouteAll(rs) == RouteTail(rs)
  {
    if rs != [] {
      HasScriptResultSplit(rs);
      RoutingsCompared(Front(rs));
    }
  }

  /** The receipt events both recorders write: those of the receipts present at
      the last step at step time, the rest when the run has ended. */
  function Routed(seen: seq<Receipt>, final: seq<Receipt>): seq<Request>
    requires seen <= final
  {
    RouteAll(seen) + RouteTail(final[|seen|..])
  }

  /** They carry, in order and on their channels, the receipts of the run other
      than calls and returns; each effect of the whole run is there exactly
      once, and nothing else is, if and only if no `ScriptResult` was present
      before the run ended. */
  lemma {:induction false} RoutedOnce(seen: seq<Receipt>, final: seq<Receipt>)
    requires seen <= final
    ensures ReceiptsOf(Routed(seen, final)) == Filter(HasEvent, seen) + Filter(IsEffect, final[|seen|..])
    ensures ReceiptsOf(Routed(seen, final)) == Filter(IsEffect, final) <==> !HasScriptResult(seen)
    ensures OnTheirChannels(Routed(seen, final))
  {
    var rest := final[|seen|..];
    RouteAllReceipts(seen);
    RouteTailReceipts(rest);
    ReceiptsOfAppend(RouteAll(seen), RouteTail(rest));
    assert final == seen + rest;
    FilterAppend(IsEffect, seen, rest);
    EffectsAreEvents(seen);
  }

  /** The condition is needed: a `ScriptResult` at a step, as no run shows one,
      would be written as an event, though the end of a recording drops it. */
  lemma EarlyScriptResult(r: Receipt)
    requires r.ScriptResult?
    ensures ReceiptsOf(Routed([r], [r])) == [r] && Filter(IsEffect, [r]) == []
  {
    RoutedOnce([r], [r]);
    assert Front([r]) == [] && [r][1..] == [];
    assert Filter(HasEvent, [r]) == [r] && Filter(IsEffect, []) == [];
  }
}
