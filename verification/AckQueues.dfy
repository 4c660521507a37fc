/**
  The acknowledged queue.  Every locked region is one atomic step, so a run of several threads is a
  list of steps; a `get` that must wait is a step that leaves the state alone and is tried again
  later, until its deadline has passed if it has one.
 */
module AckQueues {
  import opened Options

  /** How long a `get` waits; `Until` says whether its deadline has passed at this try. */
  datatype Patience = NoWait | Forever | Until(passed: bool)

  datatype Op<T> = Put(item: T) | Get(patience: Patience) | Ack

  datatype Reply<T> =
    | Done
    | Item(item: T)
    | Empty
    | Waits
    | NothingActive
    | QueueLost
    | HeadChanged

  datatype State<T> = State(queue: seq<T>, current: Option<T>)

  /** What a `get` that finds nothing does. */
  function EmptyHanded<T>(patience: Patience): Reply<T> {
    if patience == Forever || patience == Until(false) then Waits else Empty
  }

  /** One locked region, with the two branches the code reports as internal errors. */
  function Step<T(==)>(s: State<T>, op: Op<T>): (State<T>, Reply<T>) {
    match op
    case Put(item) => (s.(queue := s.queue + [item]), Done)
    case Get(patience) =>
      if s.current.Some? then (s, Item(s.current.value))
      else if s.queue != [] then (s.(current := Some(s.queue[0])), Item(s.queue[0]))
      else (s, EmptyHanded(patience))
    case Ack =>
      if s.current.None? then (s, NothingActive)
      else if s.queue == [] then (s.(current := None), QueueLost)
      else if s.queue[0] != s.current.value then (State(s.queue[1..], None), HeadChanged)
      else (State(s.queue[1..], None), Done)
  }

  // ----- the program -----

  class AckQueue<T(==)> {
    var queue: seq<T>
    var current: Option<T>

    constructor ()
      ensures Snapshot() == State([], None)
    {
      queue, current := [], None;
    }

    function Snapshot(): State<T>
      reads this
    {
      State(queue, current)
    }

    method Put(item: T)
      modifies this
      ensures Snapshot() == Step(old(Snapshot()), Op.Put(item)).0
    {
      queue := queue + [item];
    }

    /** One try of `get`: with the item, or empty-handed, or about to wait. */
    method Get(patience: Patience) returns (r: Reply<T>)
      modifies this
      ensures (Snapshot(), r) == Step(old(Snapshot()), Op.Get(patience))
    {
      if current.Some? {
        return Item(current.value);
      }
      if patience.NoWait? {
        if queue == [] {
          return Empty;
        }
        current := Some(queue[0]);
        return Item(queue[0]);
      }
      if queue != [] {
        current := Some(queue[0]);
        return Item(queue[0]);
      }
      if patience.Until? && patience.passed {
        return Empty;
      }
      r := Waits;
    }

    method Ack() returns (r: Reply<T>)
      modifies this
      ensures (Snapshot(), r) == Step(old(Snapshot()), Op.Ack)
    {
      if current.None? {
        return NothingActive;
      }
      if queue == [] {
        current := None;
        return QueueLost;
      }
      var head := queue[0];
      queue := queue[1..];
      if head != current.value {
        current := None;
        return HeadChanged;
      }
      current := None;
      r := Done;
    }

    /** The threads' steps in the order the lock admits them. */
    method Interleave(ops: seq<Op<T>>) returns (replies: seq<Reply<T>>)
      modifies this
      ensures (Snapshot(), replies) == Run(old(Snapshot()), ops)
    {
      hide Step;
      replies := [];
      for i := 0 to |ops|
        invariant (Snapshot(), replies) == Run(old(Snapshot()), ops[..i])
      {
        assert ops[..i + 1][..i] == ops[..i];
        var r;
        match ops[i] {
          case Put(item) =>
            Put(item);
            r := Done;
          case Get(patience) => r := Get(patience);
          case Ack => r := Ack();
        }
        assert (Snapshot(), r) == Step(Run(old(Snapshot()), ops[..i]).0, ops[i]) by {
          if ops[i].Put? {
            PutIsDone(Run(old(Snapshot()), ops[..i]).0, ops[i].item);
          }
        }
        replies := replies + [r];
      }
      assert ops[..|ops|] == ops;
    }
  }

  lemma PutIsDone<T>(s: State<T>, item: T)
    ensures Step(s, Op.Put(item)).1 == Done
  {
  }

  function Run<T(==)>(s: State<T>, ops: seq<Op<T>>): (State<T>, seq<Reply<T>>) {
    if ops == [] then (s, []) else
    var (before, replies) := Run(s, ops[..|ops| - 1]);
    var (after, r) := Step(before, ops[|ops| - 1]);
    (after, replies + [r])
  }

  // ----- the simple form -----

  /** All items ever put, how many of them are acknowledged, and whether the next one is handed out. */
  datatype Log<T> = Log(items: seq<T>, acked: nat, active: bool)

  predicate Possible<T>(l: Log<T>) {
    l.acked <= |l.items| && (l.active ==> l.acked < |l.items|)
  }

  function LogStep<T>(l: Log<T>, op: Op<T>): (Log<T>, Reply<T>)
    requires Possible(l)
  {
    match op
    case Put(item) => (l.(items := l.items + [item]), Done)
    case Get(patience) =>
      if l.acked < |l.items| then (l.(active := true), Item(l.items[l.acked]))
      else (l, EmptyHanded(patience))
    case Ack => if l.active then (l.(acked := l.acked + 1, active := false), Done) else (l, NothingActive)
  }

  function LogRun<T>(ops: seq<Op<T>>): (r: (Log<T>, seq<Reply<T>>))
    ensures Possible(r.0) && |r.1| == |ops|
  {
    if ops == [] then (Log([], 0, false), []) else
    var (before, replies) := LogRun(ops[..|ops| - 1]);
    var (after, r) := LogStep(before, ops[|ops| - 1]);
    (after, replies + [r])
  }

  /** The queue holds what is not acknowledged, the active item is its head. */
  function Concrete<T>(l: Log<T>): State<T>
    requires Possible(l)
  {
    State(l.items[l.acked..], if l.active then Some(l.items[l.acked]) else None)
  }

  lemma StepRefines<T>(l: Log<T>, op: Op<T>)
    requires Possible(l)
    ensures Possible(LogStep(l, op).0)
    ensures Step(Concrete(l), op) == (Concrete(LogStep(l, op).0), LogStep(l, op).1)
  {
    match op
    case Put(item) =>
      assert (l.items + [item])[l.acked..] == l.items[l.acked..] + [item];
    case Get(_) =>
    case Ack =>
      if l.active {
        assert l.items[l.acked..][1..] == l.items[l.acked + 1..];
      }
  }

  /** Every interleaving gives the replies of the log, and the queue is the part of the log not acknowledged. */
  lemma {:induction false} RunRefinesLog<T>(ops: seq<Op<T>>)
    ensures Run(State([], None), ops) == (Concrete(LogRun(ops).0), LogRun(ops).1)
  {
    hide Step, LogStep, Concrete;
    if ops == [] {
      EmptyLog<T>();
    } else {
      RunRefinesLog(ops[..|ops| - 1]);
      StepRefines(LogRun(ops[..|ops| - 1]).0, ops[|ops| - 1]);
    }
  }

  lemma EmptyLog<T>()
    ensures var empty: seq<T> := []; Concrete(Log(empty, 0, false)) == State(empty, None)
  {
  }

  // ----- what follows for the threads -----

  /** The items put, in order. */
  function Puts<T>(ops: seq<Op<T>>): seq<T> {
    if ops == [] then [] else
    var last := ops[|ops| - 1];
    Puts(ops[..|ops| - 1]) + if last.Put? then [last.item] else []
  }

  /** The items handed out and then acknowledged, in order: each is the last one handed out before its `ack`. */
  function Acknowledged<T>(ops: seq<Op<T>>, replies: seq<Reply<T>>): seq<T>
    requires |replies| == |ops|
  {
    if ops == [] then [] else
    var n := |ops| - 1;
    var before := Acknowledged(ops[..n], replies[..n]);
    if ops[n].Ack? && replies[n].Done? then before + LastItem(replies[..n]) else before
  }

  function LastItem<T>(replies: seq<Reply<T>>): seq<T> {
    if replies == [] then []
    else if replies[|replies| - 1].Item? then [replies[|replies| - 1].item]
    else LastItem(replies[..|replies| - 1])
  }

  /** Some item is handed out and not yet acknowledged. */
  predicate HandedOut<T>(ops: seq<Op<T>>, replies: seq<Reply<T>>)
    requires |replies| == |ops|
  {
    if ops == [] then false else
    var n := |ops| - 1;
    replies[n].Item? || (HandedOut(ops[..n], replies[..n]) && !(ops[n].Ack? && replies[n].Done?))
  }

  lemma {:induction false} LogIsHistory<T>(ops: seq<Op<T>>)
    ensures var (l, replies) := LogRun(ops);
            l.items == Puts(ops) && Acknowledged(ops, replies) == l.items[..l.acked] &&
            l.active == HandedOut(ops, replies) && (l.active ==> LastItem(replies) == [l.items[l.acked]])
  {
    if ops != [] {
      var n := |ops| - 1;
      LogIsHistory(ops[..n]);
      var (before, replies) := LogRun(ops[..n]);
      var (after, all) := LogRun(ops);
      assert all[..n] == replies;
      match ops[n]
      case Put(item) =>
        assert after.items[..after.acked] == before.items[..before.acked];
      case Get(_) =>
      case Ack =>
        if before.active {
          assert after.items[..after.acked] == before.items[..before.acked] + [before.items[before.acked]];
        }
    }
  }

  /** Nothing is lost, doubled or reordered: what is acknowledged, then what is queued, is what was put. */
  lemma NothingLost<T>(ops: seq<Op<T>>)
    ensures var (s, replies) := Run(State([], None), ops);
            |replies| == |ops| && Acknowledged(ops, replies) + s.queue == Puts(ops) &&
            (s.current.Some? <==> HandedOut(ops, replies)) &&
            (s.current.Some? ==> s.queue != [] && s.current.value == s.queue[0] && LastItem(replies) == [s.queue[0]])
  {
    hide Run, LogRun, Puts, Acknowledged, HandedOut, LastItem;
    RunRefinesLog(ops);
    LogIsHistory(ops);
    var (l, replies) := LogRun(ops);
    assert l.items[..l.acked] + l.items[l.acked..] == l.items;
  }

  /** The two internal errors never happen. */
  lemma {:induction false} NoInternalError<T>(ops: seq<Op<T>>)
    ensures forall r <- Run(State([], None), ops).1 :: !r.QueueLost? && !r.HeadChanged?
  {
    if ops != [] {
      NoInternalError(ops[..|ops| - 1]);
      NothingLost(ops[..|ops| - 1]);
    }
  }

  /** Until it is acknowledged, every `get` hands out the same item, whatever happens in between. */
  lemma {:induction false} SameItemUntilAck<T>(ops: seq<Op<T>>, more: seq<Op<T>>, item: T)
    requires Run(State([], None), ops).0.current == Some(item)
    requires forall op <- more :: !op.Ack?
    ensures Run(State([], None), ops + more).0.current == Some(item)
    ensures forall patience :: Step(Run(State([], None), ops + more).0, Op.Get(patience)).1 == Item(item)
  {
    if more == [] {
      assert ops + more == ops;
    } else {
      var init, all := more[..|more| - 1], ops + more;
      assert all[..|all| - 1] == ops + init && all[|all| - 1] == more[|more| - 1];
      assert more[|more| - 1] in more;
      SameItemUntilAck(ops, init, item);
    }
  }
}
