/**
 Incremental delivery: the loop that executes an operation, then works off the fragments it
 deferred, one payload for each.  Executing a workload may record errors in the shared error
 list and send further workloads to the queue.
 */
module Deferred {
  import opened Common

  type Content(==)
  type Error(==)
  type Path(==)

  datatype Data = Null | NonNull(content: Content)

  /** What resolving a selection set does: the errors it records, the workloads it defers, and
      its data or the error that made it fail. */
  datatype Execution = Execution(recorded: seq<Error>, deferred: seq<Workload>, data: Data, failure: Option<Error>)

  datatype Workload = Workload(tag: Option<string>, path: Path, run: Execution)

  datatype Payload =
    | InitialResponse(data: Data, errors: seq<Error>, hasNext: bool)
    | Incremental(tag: Option<string>, path: Path, data: Data, errors: seq<Error>, hasNext: bool)

  datatype Status =
    | Success
    | FieldError(count: nat, dataIsNull: bool)
    | RequestError(count: nat)
    | RefusedRequest

  function Union(a: Status, b: Status): Status {
    match (a, b)
    case (RefusedRequest, _) => RefusedRequest
    case (_, RefusedRequest) => RefusedRequest
    case (RequestError(_), _) => a
    case (_, RequestError(_)) => b
    case (Success, FieldError(_, _)) => b
    case (FieldError(_, _), Success) => a
    case (FieldError(count, dataIsNull), FieldError(extra, _)) => FieldError(count + extra, dataIsNull)
    case (Success, Success) => Success
  }

  /** Both kinds of payload of a stream carry data, so errors are field errors. */
  function StatusOf(p: Payload): Status {
    if p.errors == [] then Success
    else FieldError(|p.errors|, p.InitialResponse? && p.data.Null?)
  }

  // ----- The queue, the error list and the loop -----

  class Env {
    var errors: seq<Error>
    var queue: seq<Workload>

    constructor ()
      ensures errors == [] && queue == []
    {
      errors, queue := [], [];
    }

    method Send(workload: Workload)
      modifies this`queue
      ensures queue == old(queue) + [workload]
    {
      queue := queue + [workload];
    }

    method Receive() returns (workload: Option<Workload>)
      modifies this`queue
      ensures if old(queue) == [] then workload.None? && queue == []
              else workload == Some(old(queue)[0]) && queue == old(queue)[1..]
    {
      if queue == [] {
        workload := None;
      } else {
        workload := Some(queue[0]);
        queue := queue[1..];
      }
    }

    method TakeErrors() returns (taken: seq<Error>)
      modifies this`errors
      ensures taken == old(errors) && errors == []
    {
      taken := errors;
      errors := [];
    }

    /** Resolves a selection set, recording errors and sending workloads as it goes. */
    method Resolve(run: Execution) returns (failure: Option<Error>)
      modifies this
      ensures errors == old(errors) + run.recorded && queue == old(queue) + run.deferred
      ensures failure == run.failure
    {
      for i := 0 to |run.recorded|
        invariant errors == old(errors) + run.recorded[..i] && queue == old(queue)
      {
        errors := errors + [run.recorded[i]];
      }
      for i := 0 to |run.deferred|
        invariant errors == old(errors) + run.recorded && queue == old(queue) + run.deferred[..i]
      {
        Send(run.deferred[i]);
      }
      failure := run.failure;
    }

    method ExecuteOnce(run: Execution) returns (data: Data, responseErrors: seq<Error>)
      requires errors == []
      modifies this
      ensures errors == [] && queue == old(queue) + run.deferred
      ensures data == (if run.failure.None? then run.data else Null)
      ensures responseErrors == InitialErrors(run)
    {
      var failure := Resolve(run);
      match failure {
        case None => data, responseErrors := run.data, [];
        case Some(error) => data, responseErrors := Null, [error];
      }
      var drained := TakeErrors();
      responseErrors := responseErrors + drained;
    }

    method ProcessDeferredWorkload(workload: Workload) returns (payload: Payload)
      requires errors == []
      modifies this
      ensures errors == [] && queue == old(queue) + workload.run.deferred
      ensures payload == PayloadFor(workload, false) && Delivers(workload, payload)
    {
      var failure := Resolve(workload.run);
      var drained := TakeErrors();
      var data := workload.run.data;
      if failure.Some? {
        drained := drained + [failure.value];
        data := Null;
      }
      payload := Incremental(workload.tag, workload.path, data, drained, false);
    }
  }

  function InitialErrors(run: Execution): seq<Error> {
    (if run.failure.Some? then [run.failure.value] else []) + run.recorded
  }

  function PayloadFor(w: Workload, hasNext: bool): Payload {
    Incremental(w.tag, w.path, if w.run.failure.None? then w.run.data else Null,
                w.run.recorded + (if w.run.failure.Some? then [w.run.failure.value] else []), hasNext)
  }

  /** The payload carries the label and path of its workload, and its data and errors: with a failure the data is
      null and the failure comes after the errors recorded before it. */
  predicate Delivers(w: Workload, p: Payload) {
    && p.Incremental? && p.tag == w.tag && p.path == w.path
    && match w.run.failure
       case None => p.data == w.run.data && p.errors == w.run.recorded
       case Some(error) => p.data == Null && p.errors == w.run.recorded + [error]
  }

  /** The same for the initial response, where a failure comes first. */
  predicate Opens(root: Execution, p: Payload) {
    && p.InitialResponse?
    && match root.failure
       case None => p.data == root.data && p.errors == root.recorded
       case Some(error) => p.data == Null && p.errors == [error] + root.recorded
  }

  /** The number of workloads in a forest. */
  function Count(forest: seq<Workload>): nat {
    if forest == [] then 0
    else
      assert forest[0].run < forest[0];
      1 + Count(forest[0].run.deferred) + Count(forest[1..])
  }

  lemma {:induction false} CountConcat(a: seq<Workload>, b: seq<Workload>)
    ensures Count(a + b) == Count(a) + Count(b)
  {
    if a == [] {
      assert a + b == b;
    } else {
      assert (a + b)[1..] == a[1..] + b;
      CountConcat(a[1..], b);
    }
  }

  /** The order in which a first-in first-out queue is worked off. */
  function QueueOrder(queue: seq<Workload>): seq<Workload>
    decreases Count(queue)
  {
    if queue == [] then []
    else
      CountConcat(queue[1..], queue[0].run.deferred);
      [queue[0]] + QueueOrder(queue[1..] + queue[0].run.deferred)
  }

  /** The payloads for a list of workloads: all but the last announce a successor. */
  function Payloads(order: seq<Workload>): seq<Payload> {
    if order == [] then [] else [PayloadFor(order[0], |order| > 1)] + Payloads(order[1..])
  }

  function UnionAll(status: Status, payloads: seq<Payload>): Status
    decreases payloads
  {
    if payloads == [] then status else UnionAll(Union(status, StatusOf(payloads[0])), payloads[1..])
  }

  /** The loop over the deferred workloads.  Each payload is completed only after the next
      workload has been looked for, which is what makes its flag exact. */
  method WorkOff(env: Env, first: Option<Workload>, status: Status) returns (payloads: seq<Payload>, total: Status)
    requires env.errors == [] && (first.None? ==> env.queue == [])
    modifies env
    ensures payloads == Payloads(Waiting(first, old(env.queue)))
    ensures total == UnionAll(status, payloads)
    ensures env.errors == [] && env.queue == []
  {
    ghost var expected := Payloads(Waiting(first, env.queue));
    var nextWorkload := first;
    payloads, total := [], status;
    while nextWorkload.Some?
      invariant env.errors == [] && (nextWorkload.None? ==> env.queue == [])
      invariant payloads + Payloads(Waiting(nextWorkload, env.queue)) == expected
      invariant UnionAll(total, Payloads(Waiting(nextWorkload, env.queue))) == UnionAll(status, expected)
      decreases Count(Pending(nextWorkload, env.queue))
    {
      ghost var now, queue, before := nextWorkload.value, env.queue, payloads;
      var next := env.ProcessDeferredWorkload(nextWorkload.value);
      ghost var sent := env.queue;
      nextWorkload := env.Receive();
      next := next.(hasNext := nextWorkload.Some?);
      total := Union(total, StatusOf(next));
      payloads := payloads + [next];
      ghost var rest := Payloads(Waiting(nextWorkload, env.queue));
      TurnOfTheLoop(now, queue, sent, nextWorkload, env.queue);
      ConcatAssoc(before, [next], rest);
      assert ([next] + rest)[1..] == rest;
    }
  }

  function InitialPayload(root: Execution): Payload {
    InitialResponse(if root.failure.None? then root.data else Null, InitialErrors(root), QueueOrder(root.deferred) != [])
  }

  /** All payloads of a request, in the order they are sent. */
  function Stream(root: Execution): seq<Payload> {
    [InitialPayload(root)] + Payloads(QueueOrder(root.deferred))
  }

  method ExecuteStream(root: Execution) returns (payloads: seq<Payload>, status: Status, env: Env)
    ensures payloads == Stream(root)
    ensures status == UnionAll(StatusOf(payloads[0]), payloads[1..])
    ensures fresh(env) && env.errors == [] && env.queue == []
  {
    env := new Env();
    var data, errors := env.ExecuteOnce(root);
    var nextWorkload := env.Receive();
    assert Pending(nextWorkload, env.queue) == root.deferred;
    var initial := InitialResponse(data, errors, nextWorkload.Some?);
    var rest;
    rest, status := WorkOff(env, nextWorkload, StatusOf(initial));
    payloads := [initial] + rest;
  }

  /** The queue together with the workload already received from it. */
  function Pending(next: Option<Workload>, queue: seq<Workload>): seq<Workload> {
    (if next.Some? then [next.value] else []) + queue
  }

  function Waiting(next: Option<Workload>, queue: seq<Workload>): seq<Workload> {
    QueueOrder(Pending(next, queue))
  }

  lemma {:induction false} TurnOfTheLoop(
    now: Workload, queue: seq<Workload>, sent: seq<Workload>, next: Option<Workload>, rest: seq<Workload>)
    requires sent == queue + now.run.deferred
    requires if sent == [] then next.None? && rest == [] else next == Some(sent[0]) && rest == sent[1..]
    ensures Pending(next, rest) == sent
    ensures Payloads(Waiting(Some(now), queue)) ==
            [PayloadFor(now, next.Some?)] + Payloads(Waiting(next, rest))
    ensures Count(Pending(next, rest)) < Count(Pending(Some(now), queue))
  {
    var pending := [now] + queue;
    assert pending[1..] == queue;
    CountConcat(queue, now.run.deferred);
    var tail := QueueOrder(sent);
    assert QueueOrder(pending) == [now] + tail;
    assert ([now] + tail)[1..] == tail;
    assert (tail == []) == (sent == []);
  }

  // ----- First in, first out is breadth first -----

  /** All workloads deferred by the workloads of a list, in order. */
  function DeferredBy(forest: seq<Workload>): seq<Workload> {
    if forest == [] then [] else forest[0].run.deferred + DeferredBy(forest[1..])
  }

  lemma {:induction false} CountDeferredBy(forest: seq<Workload>)
    ensures Count(DeferredBy(forest)) + |forest| == Count(forest)
  {
    if forest != [] {
      CountDeferredBy(forest[1..]);
      CountConcat(forest[0].run.deferred, DeferredBy(forest[1..]));
    }
  }

  /** Level by level: the workloads of the operation, then those they defer, and so on. */
  function BreadthFirst(forest: seq<Workload>): seq<Workload>
    decreases Count(forest)
  {
    if forest == [] then []
    else
      CountDeferredBy(forest);
      forest + BreadthFirst(DeferredBy(forest))
  }

  /** Working off a level appends the whole next level behind what was already waiting. */
  lemma {:induction false} QueueWorksOffLevel(level: seq<Workload>, behind: seq<Workload>)
    ensures QueueOrder(level + behind) == level + QueueOrder(behind + DeferredBy(level))
    decreases |level|
  {
    if level == [] {
      assert level + behind == behind && behind + DeferredBy(level) == behind;
    } else {
      var first, rest := level[0], level[1..];
      var queue, longer := level + behind, behind + first.run.deferred;
      assert queue[0] == first && queue[1..] == rest + behind;
      ConcatAssoc(rest, behind, first.run.deferred);
      QueueWorksOffLevel(rest, longer);
      ConcatAssoc(behind, first.run.deferred, DeferredBy(rest));
      assert level == [first] + rest;
      ConcatAssoc([first], rest, QueueOrder(behind + DeferredBy(level)));
    }
  }

  lemma {:induction false} FifoIsBreadthFirst(forest: seq<Workload>)
    ensures QueueOrder(forest) == BreadthFirst(forest)
    decreases Count(forest)
  {
    if forest != [] {
      QueueWorksOffLevel(forest, []);
      assert forest + [] == forest && [] + DeferredBy(forest) == DeferredBy(forest);
      CountDeferredBy(forest);
      FifoIsBreadthFirst(DeferredBy(forest));
    }
  }

  // ----- Exactly one payload for each workload -----

  lemma {:induction false} PayloadsAt(order: seq<Workload>, i: nat)
    requires i < |order|
    ensures |Payloads(order)| == |order|
    ensures Payloads(order)[i] == PayloadFor(order[i], i + 1 < |order|)
  {
    if |order| > 1 {
      PayloadsAt(order[1..], if i == 0 then 0 else i - 1);
    } else {
      assert Payloads(order[1..]) == [];
    }
  }

  lemma {:induction false} OrderCounts(queue: seq<Workload>)
    ensures |QueueOrder(queue)| == Count(queue)
    decreases Count(queue)
  {
    if queue != [] {
      CountConcat(queue[1..], queue[0].run.deferred);
      OrderCounts(queue[1..] + queue[0].run.deferred);
    }
  }

  /** One incremental payload for each workload of the forest, in breadth-first order, and
      only the last payload of the stream says that nothing follows. */
  lemma {:induction false} DeliveryIsExact(root: Execution, i: nat)
    requires i < |Stream(root)|
    ensures |Stream(root)| == 1 + Count(root.deferred)
    ensures Stream(root)[i].hasNext <==> i + 1 < |Stream(root)|
    ensures i > 0 ==> var order := BreadthFirst(root.deferred);
                      |order| == Count(root.deferred) && Delivers(order[i - 1], Stream(root)[i])
    ensures i == 0 ==> Opens(root, Stream(root)[0])
  {
    var order := QueueOrder(root.deferred);
    OrderCounts(root.deferred);
    FifoIsBreadthFirst(root.deferred);
    if order != [] {
      PayloadsAt(order, 0);
      PayloadsAt(order, if i == 0 then 0 else i - 1);
    }
  }

  // ----- Every error is delivered exactly once -----

  function AllErrors(payloads: seq<Payload>): multiset<Error> {
    if payloads == [] then multiset{} else multiset(payloads[0].errors) + AllErrors(payloads[1..])
  }

  /** All errors that executing a selection set and everything it defers brings about, counted
      over the tree of workloads. */
  function Raised(run: Execution): multiset<Error> {
    multiset(run.recorded) + (if run.failure.Some? then multiset{run.failure.value}
      else multiset{}) + RaisedAll(run.deferred)
  }

  function RaisedAll(forest: seq<Workload>): multiset<Error> {
    if forest == [] then multiset{}
    else
      assert forest[0].run < forest[0];
      Raised(forest[0].run) + RaisedAll(forest[1..])
  }

  lemma {:induction false} RaisedConcat(a: seq<Workload>, b: seq<Workload>)
    ensures RaisedAll(a + b) == RaisedAll(a) + RaisedAll(b)
  {
    if a == [] {
      assert a + b == b;
    } else {
      assert (a + b)[1..] == a[1..] + b;
      RaisedConcat(a[1..], b);
    }
  }

  function OwnErrors(run: Execution): multiset<Error> {
    multiset(run.recorded) + if run.failure.Some? then multiset{run.failure.value} else multiset{}
  }

  lemma {:induction false} PayloadErrors(w: Workload, hasNext: bool)
    ensures multiset(PayloadFor(w, hasNext).errors) == OwnErrors(w.run)
  {
  }

  /** The first workload's payload carries its own errors. */
  lemma HeadDelivers(w: Workload, tail: seq<Workload>)
    ensures AllErrors(Payloads([w] + tail)) == OwnErrors(w.run) + AllErrors(Payloads(tail))
  {
    var hasNext := |[w] + tail| > 1;
    var first, others := PayloadFor(w, hasNext), Payloads(tail);
    assert ([w] + tail)[1..] == tail;
    assert Payloads([w] + tail) == [first] + others;
    assert ([first] + others)[1..] == others;
    PayloadErrors(w, hasNext);
  }

  /** What a queue raises is what its head raises itself and what the rest raises once the head is replaced
      by its deferred workloads. */
  lemma HeadRaises(w: Workload, rest: seq<Workload>)
    ensures RaisedAll([w] + rest) == OwnErrors(w.run) + RaisedAll(rest + w.run.deferred)
  {
    assert ([w] + rest)[1..] == rest;
    RaisedConcat(rest, w.run.deferred);
    assert Raised(w.run) == OwnErrors(w.run) + RaisedAll(w.run.deferred);
  }

  lemma {:induction false} QueueDeliversRaised(queue: seq<Workload>)
    ensures AllErrors(Payloads(QueueOrder(queue))) == RaisedAll(queue)
    decreases Count(queue)
  {
    if queue != [] {
      var w, rest := queue[0], queue[1..];
      assert queue == [w] + rest;
      CountConcat(rest, w.run.deferred);
      QueueDeliversRaised(rest + w.run.deferred);
      HeadDelivers(w, QueueOrder(rest + w.run.deferred));
      HeadRaises(w, rest);
    }
  }

  /** The errors of all payloads together are the errors raised anywhere, each one once. */
  lemma {:induction false} EveryErrorOnce(root: Execution)
    ensures AllErrors(Stream(root)) == Raised(root)
  {
    QueueDeliversRaised(root.deferred);
    assert Stream(root)[1..] == Payloads(QueueOrder(root.deferred));
    assert multiset(InitialErrors(root)) == OwnErrors(root);
  }

  // ----- The status counts every error -----

  function ErrorCount(payloads: seq<Payload>): nat {
    if payloads == [] then 0 else |payloads[0].errors| + ErrorCount(payloads[1..])
  }

  lemma {:induction false} UnionAllCounts(status: Status, payloads: seq<Payload>)
    requires status.Success? || status.FieldError?
    requires forall i | 0 <= i < |payloads| :: payloads[i].Incremental?
    ensures UnionAll(status, payloads) ==
            if ErrorCount(payloads) == 0 then status
            else FieldError((if status.Success? then 0 else status.count) + ErrorCount(payloads),
                            status.FieldError? && status.dataIsNull)
    decreases payloads
  {
    if payloads != [] {
      UnionAllCounts(Union(status, StatusOf(payloads[0])), payloads[1..]);
    }
  }

  /** The recorded status is a success exactly when no error was delivered, and otherwise counts
      the errors of all payloads. */
  lemma {:induction false} StatusCountsAllErrors(root: Execution)
    ensures var payloads := Stream(root);
            UnionAll(StatusOf(payloads[0]), payloads[1..]) ==
              if ErrorCount(payloads) == 0 then Success
              else FieldError(ErrorCount(payloads), payloads[0].errors != [] && payloads[0].data.Null?)
  {
    var order := QueueOrder(root.deferred);
    var rest := Payloads(order);
    assert Stream(root)[1..] == rest;
    forall i | 0 <= i < |rest|
      ensures rest[i].Incremental?
    {
      if order != [] {
        PayloadsAt(order, 0);
        PayloadsAt(order, i);
      }
    }
    UnionAllCounts(StatusOf(InitialPayload(root)), rest);
  }
}
