/** The trace writer's pending-step buffer: a step is held back, together with
    the values assigned after it, until the next step, call or return. */
module Writer {
  import opened Prelude
  import Machine
  import opened TraceLog

  datatype Record =
    | StepRecord(at: Position, variables: seq<Variable>)
    | CallRecord(callee: Option<Callee>, at: Position)
    | ReturnRecord
    | EventRecord(request: Request)

  datatype Buffer = Buffer(step: Option<Position>, variables: seq<Variable>, records: seq<Record>)

  const EMPTY: Buffer := Buffer(None, [], [])

  /** Writes the held step with the held values; without a held step the values
      stay, and go to whichever step is written next. */
  function Flush(b: Buffer): Buffer {
    match b.step
    case None => b
    case Some(at) => Buffer(None, [], b.records + [StepRecord(at, b.variables)])
  }

  function Push(b: Buffer, r: Request): Buffer {
    match r
    case Start(at) => var f := Flush(b); Buffer(Some(at), f.variables, f.records + [CallRecord(None, at)])
    case Step(at) => Flush(b).(step := Some(at))
    case Assign(v) => b.(variables := b.variables + [v])
    case Call(callee, at) => var f := Flush(b); f.(records := f.records + [CallRecord(Some(callee), at)])
    case Return => var f := Flush(b); f.(records := f.records + [ReturnRecord])
    case Event(_, _) => b.(records := b.records + [EventRecord(r)])
    case Storage(_, _, _, _) => b.(records := b.records + [EventRecord(r)])
  }

  function Replay(b: Buffer, rs: seq<Request>): Buffer {
    if rs == [] then b else Push(Replay(b, Front(rs)), Last(rs))
  }

  lemma {:induction false} ReplayAppend(b: Buffer, x: seq<Request>, y: seq<Request>)
    ensures Replay(b, x + y) == Replay(Replay(b, x), y)
  {
    if y == [] {
      assert x + y == x;
    } else {
      ReplayAppend(b, x, Front(y));
      assert Front(x + y) == x + Front(y);
    }
  }

  lemma ReplayOne(b: Buffer, r: Request)
    ensures Replay(b, [r]) == Push(b, r)
  {
    assert Front([r]) == [];
  }

  class TraceWriter {
    /** Every request received so far. */
    var requests: seq<Request>
    var step: Option<Position>
    var variables: seq<Variable>
    var records: seq<Record>

    ghost predicate Valid()
      reads this
    {
      Buffer(step, variables, records) == Replay(EMPTY, requests)
    }

    constructor ()
      ensures Valid() && requests == []
    {
      requests, step, variables, records := [], None, [], [];
    }

    method FlushPendingStep()
      modifies this`step, this`variables, this`records
      ensures Buffer(step, variables, records) == Flush(old(Buffer(step, variables, records)))
    {
      if step.Some? {
        records := records + [StepRecord(step.value, variables)];
        step, variables := None, [];
      }
    }

    method Register(r: Request)
      requires Valid()
      modifies this
      ensures Valid()
      ensures requests == old(requests) + [r]
    {
      match r {
        case Start(at) =>
          FlushPendingStep();
          records := records + [CallRecord(None, at)];
          step := Some(at);
        case Step(at) =>
          FlushPendingStep();
          step := Some(at);
        case Assign(v) =>
          variables := variables + [v];
        case Call(callee, at) =>
          FlushPendingStep();
          records := records + [CallRecord(Some(callee), at)];
        case Return =>
          FlushPendingStep();
          records := records + [ReturnRecord];
        case Event(_, _) =>
          records := records + [EventRecord(r)];
        case Storage(_, _, _, _) =>
          records := records + [EventRecord(r)];
      }
      requests := requests + [r];
      assert Front(requests) == old(requests);
    }

    method RegisterSpecialEvent(channel: Channel, r: Machine.Receipt)
      requires Valid()
      modifies this
      ensures Valid()
      ensures requests == old(requests) + [Event(channel, r)]
      ensures Front(requests) == old(requests) && Last(requests) == Event(channel, r)
    {
      Register(Event(channel, r));
    }

    /** The event of a receipt: a call or return leaves the log alone, every
        other receipt adds exactly one event, carrying it on its channel. */
    method EmitReceiptSpecialEvent(r: Machine.Receipt)
      requires Valid()
      modifies this
      ensures Valid()
      ensures requests == old(requests) + Route(r)
      ensures !HasEvent(r) ==> requests == old(requests)
      ensures HasEvent(r) ==>
                && requests != [] && Front(requests) == old(requests)
                && Last(requests).Event? && Last(requests).receipt == r && OnItsChannel(Last(requests))
    {
      var channel: Option<Channel>;
      match r {
        case Call(_, _) => channel := None;
        case Return(_, _) => channel := None;
        case ReturnData(_) => channel := None;
        case Panic(_, _) => channel := Some(ErrorEvent);
        case Revert(_, _) => channel := Some(ErrorEvent);
        case ScriptResult(_) => channel := Some(InfoEvent);
        case _ => channel := Some(EvmEvent);
      }
      assert Route(r) == if channel.None? then [] else [Event(channel.value, r)];
      if channel.Some? {
        RegisterSpecialEvent(channel.value, r);
      }
    }
  }
}
