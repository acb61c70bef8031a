/**
 The batching protocol as a transition system.

 A state holds the shared record, the loader-wide cache switch, the tasks handed to the
 spawner, and a history: what each call asked for and every reply sent.  A step is one
 critical section, one spawn, or one return of the loader.  Nothing is assumed about the
 order in which steps of different callers and tasks interleave.
 */
module DataLoaderProtocol {
  import opened DataLoader

  /** A task: still held by the caller that will spawn it, waiting out the delay, or waiting
      for the loader.  Both of the last two captured the cache switch when they were spawned. */
  datatype Task =
    | Spawning(action: Action)
    | Timer(disableCache: bool)
    | Loading(disableCache: bool, batch: Batch)

  datatype State = State(
    present: bool,              // the record for this key type has been created
    shared: View,
    loaderDisabled: bool,
    tasks: seq<Task>,
    asked: seq<set<Key>>,       // keys asked for, by call number
    sent: seq<(nat, Answer)>,   // replies in the order they were sent
    discarded: seq<nat>,        // senders dropped without a reply
    poisoned: bool)             // a caller panicked while it held the lock

  datatype Label =
    | LoadMany(input: seq<Key>)
    | Spawn(task: nat)
    | Fire(task: nat)
    | Return(task: nat, result: Answer)
    | Feed(values: seq<(Key, Value)>)
    | Clear
    | EnableCache(enable: bool)
    | EnableAllCache(enable: bool)
    | Evict

  function Init(): State {
    State(false, View({}, [], map[], false), false, [], [], [], [], false)
  }

  function Remove<T>(s: seq<T>, i: nat): seq<T>
    requires i < |s|
  {
    s[..i] + s[i + 1..]
  }

  function AfterLoadMany(max: nat, s: State, input: seq<Key>): State {
    var id := |s.asked|;
    var (v, outcome) := LoadSection(s.shared, id, input, s.loaderDisabled, max);
    var t := s.(present := true, shared := v, asked := s.asked + [set k | k in input]);
    match outcome
    case Hit(values) => t.(sent := s.sent + [(id, Ok(values))])
    case Queued(Delay) => t
    case Queued(action) => t.(tasks := s.tasks + [Spawning(action)])
  }

  function AfterSpawn(s: State, i: nat): State
    requires i < |s.tasks| && s.tasks[i].Spawning? && !s.tasks[i].action.Delay?
  {
    s.(tasks := s.tasks[i := match s.tasks[i].action
                             case ImmediateLoad(batch) => Loading(s.loaderDisabled, batch)
                             case StartFetch => Timer(s.loaderDisabled)])
  }

  /** The delay is over: the queue is taken, and loaded unless it holds no keys, in which case
      the senders that came with it are dropped. */
  function AfterFire(s: State, i: nat): State
    requires i < |s.tasks| && s.tasks[i].Timer?
  {
    var t := s.(shared := s.shared.(keys := {}, pending := []));
    if s.shared.keys != {} then
      t.(tasks := s.tasks[i := Loading(s.tasks[i].disableCache, Batch(s.shared.keys, s.shared.pending))])
    else
      t.(tasks := Remove(s.tasks, i),
         discarded := s.discarded + seq(|s.shared.pending|,
                                        j requires 0 <= j < |s.shared.pending| => s.shared.pending[j].id))
  }

  ghost predicate IsReturn(s: State, i: nat, result: Answer, t: State) {
    && i < |s.tasks| && s.tasks[i].Loading?
    && (if result.Ok? && !s.shared.disableCache && !s.tasks[i].disableCache
        then Forgets(s.shared.cache + result.values, t.shared.cache) else t.shared.cache == s.shared.cache)
    && t == s.(shared := s.shared.(cache := t.shared.cache),
               tasks := Remove(s.tasks, i),
               sent := s.sent + Replies(s.tasks[i].batch.senders, result))
  }

  /** A call that takes the lock, other than one of a task. */
  predicate Locks(l: Label) {
    l.LoadMany? || l.Feed? || l.Clear? || l.EnableCache?
  }

  /** One step.  Once the lock is poisoned, calls that take it panic and change nothing.  A reply whose
      receiver is gone is ignored by its sender, so that a caller gives up is not seen here. */
  ghost predicate Step(max: nat, s: State, l: Label, t: State) {
    if s.poisoned && Locks(l) then t == s else Proceeds(max, s, l, t)
  }

  ghost predicate Proceeds(max: nat, s: State, l: Label, t: State) {
    match l
    case LoadMany(input) => t == AfterLoadMany(max, s, input)
    case Spawn(i) =>
      i < |s.tasks| && s.tasks[i].Spawning? && !s.tasks[i].action.Delay? && t == AfterSpawn(s, i)
    case Fire(i) => i < |s.tasks| && s.tasks[i].Timer? && !s.poisoned && t == AfterFire(s, i)
    case Return(i, result) => !s.poisoned && IsReturn(s, i, result, t)
    case Feed(values) =>
      && Forgets(s.shared.cache + FromPairs(values), t.shared.cache)
      && t == s.(present := true, shared := s.shared.(cache := t.shared.cache))
    case Clear => t == s.(present := true, shared := s.shared.(cache := map[]))
    case EnableCache(enable) =>
      t == if s.present then s.(shared := s.shared.(disableCache := !enable)) else s.(poisoned := true)
    case EnableAllCache(enable) => t == s.(loaderDisabled := !enable)
    case Evict =>
      Forgets(s.shared.cache, t.shared.cache) && t == s.(shared := s.shared.(cache := t.shared.cache))
  }

  /** A finite run from the initial state. */
  ghost predicate Run(max: nat, states: seq<State>, labels: seq<Label>) {
    && |states| == |labels| + 1
    && states[0] == Init()
    && forall i | 0 <= i < |labels| :: Step(max, states[i], labels[i], states[i + 1])
  }

  // ----- Structural invariant -----

  /** The keys of a queue or batch are exactly the keys its requests still need, and every
      request needs at least one. */
  ghost predicate Covers(keys: set<Key>, requests: seq<Request>) {
    keys == KeyUnion(requests) && forall i | 0 <= i < |requests| :: requests[i].keys != {}
  }

  function KeyUnion(requests: seq<Request>): set<Key> {
    if requests == [] then {} else requests[0].keys + KeyUnion(requests[1..])
  }

  /** Whether a task empties the queue when it runs. */
  predicate WillFire(task: Task) {
    task.Timer? || (task.Spawning? && task.action.StartFetch?)
  }

  predicate HasBatch(task: Task) {
    task.Loading? || (task.Spawning? && task.action.ImmediateLoad?)
  }

  function BatchOf(task: Task): Batch
    requires HasBatch(task)
  {
    if task.Loading? then task.batch else task.action.batch
  }

  function Max1(max: nat): nat {
    if max == 0 then 1 else max
  }

  /** One request pushed the batch over the limit, and it is the last one. */
  predicate SizeBound(max: nat, b: Batch) {
    b.senders != [] && |b.keys| <= Max1(max) - 1 + |b.senders[|b.senders| - 1].keys|
  }

  ghost predicate GoodTask(max: nat, task: Task) {
    && (task.Spawning? ==> !task.action.Delay?)
    && (HasBatch(task) ==> Covers(BatchOf(task).keys, BatchOf(task).senders) && SizeBound(max, BatchOf(task)))
  }

  /** How often a call occurs in a queue, in the batches of the tasks, and among the replies. */
  function CountQueued(requests: seq<Request>, id: nat): nat {
    if requests == [] then 0 else (if requests[0].id == id then 1 else 0) + CountQueued(requests[1..], id)
  }

  function CountHeld(task: Task, id: nat): nat {
    if HasBatch(task) then CountQueued(BatchOf(task).senders, id) else 0
  }

  function CountInTasks(tasks: seq<Task>, id: nat): nat {
    if tasks == [] then 0 else CountHeld(tasks[0], id) + CountInTasks(tasks[1..], id)
  }

  function CountSent(sent: seq<(nat, Answer)>, id: nat): nat {
    if sent == [] then 0 else (if sent[0].0 == id then 1 else 0) + CountSent(sent[1..], id)
  }

  function Places(s: State, id: nat): nat {
    CountQueued(s.shared.pending, id) + CountInTasks(s.tasks, id) + CountSent(s.sent, id)
  }

  /** Every call is in exactly one place: queued, in a batch, or answered. */
  ghost predicate Conserved(s: State) {
    forall id: nat :: Places(s, id) == if id < |s.asked| then 1 else 0
  }

  /** A queued call has a task outstanding that will take the queue. */
  ghost predicate Awake(s: State) {
    s.shared.pending != [] ==> exists i :: 0 <= i < |s.tasks| && WillFire(s.tasks[i])
  }

  ghost predicate GoodTasks(max: nat, tasks: seq<Task>) {
    forall i | 0 <= i < |tasks| :: GoodTask(max, tasks[i])
  }

  ghost predicate Inv(max: nat, s: State) {
    && Covers(s.shared.keys, s.shared.pending)
    && |s.shared.keys| < Max1(max)
    && Awake(s)
    && GoodTasks(max, s.tasks)
    && Conserved(s)
    && s.discarded == []
    && (s.tasks != [] || s.shared.pending != [] ==> s.present)
    && (s.poisoned ==> !s.present)
  }

  // ----- Counting -----

  lemma {:induction false} CountQueuedConcat(a: seq<Request>, b: seq<Request>, id: nat)
    ensures CountQueued(a + b, id) == CountQueued(a, id) + CountQueued(b, id)
  {
    if a == [] {
      assert a + b == b;
    } else {
      assert (a + b)[1..] == a[1..] + b;
      CountQueuedConcat(a[1..], b, id);
    }
  }

  lemma {:induction false} CountInTasksConcat(a: seq<Task>, b: seq<Task>, id: nat)
    ensures CountInTasks(a + b, id) == CountInTasks(a, id) + CountInTasks(b, id)
  {
    if a == [] {
      assert a + b == b;
    } else {
      assert (a + b)[1..] == a[1..] + b;
      CountInTasksConcat(a[1..], b, id);
    }
  }

  lemma {:induction false} CountSentConcat(a: seq<(nat, Answer)>, b: seq<(nat, Answer)>, id: nat)
    ensures CountSent(a + b, id) == CountSent(a, id) + CountSent(b, id)
  {
    if a == [] {
      assert a + b == b;
    } else {
      assert (a + b)[1..] == a[1..] + b;
      CountSentConcat(a[1..], b, id);
    }
  }

  lemma {:induction false} CountReplies(senders: seq<Request>, result: Answer, id: nat)
    ensures CountSent(Replies(senders, result), id) == CountQueued(senders, id)
  {
    if senders != [] {
      CountReplies(senders[1..], result, id);
      assert Replies(senders, result)[1..] == Replies(senders[1..], result);
    }
  }

  /** Taking out task `i` takes out exactly the calls it holds. */
  lemma {:induction false} CountRemove(tasks: seq<Task>, i: nat, id: nat)
    requires i < |tasks|
    ensures CountInTasks(tasks, id) == CountInTasks(Remove(tasks, i), id) + CountHeld(tasks[i], id)
  {
    CountInTasksConcat(tasks[..i], tasks[i + 1..], id);
    CountInTasksConcat(tasks[..i], tasks[i..], id);
    assert tasks == tasks[..i] + tasks[i..];
    assert tasks[i..][1..] == tasks[i + 1..];
  }

  lemma {:induction false} CountUpdate(tasks: seq<Task>, i: nat, task: Task, id: nat)
    requires i < |tasks|
    ensures CountInTasks(tasks[i := task], id) ==
            CountInTasks(tasks, id) - CountHeld(tasks[i], id) + CountHeld(task, id)
  {
    CountRemove(tasks, i, id);
    CountRemove(tasks[i := task], i, id);
    assert Remove(tasks[i := task], i) == Remove(tasks, i);
  }

  lemma {:induction false} CountSnoc(tasks: seq<Task>, task: Task, id: nat)
    ensures CountInTasks(tasks + [task], id) == CountInTasks(tasks, id) + CountHeld(task, id)
  {
    CountInTasksConcat(tasks, [task], id);
    assert CountInTasks([task], id) == CountHeld(task, id) + CountInTasks([], id);
  }

  // ----- Every step keeps the invariant -----

  lemma {:induction false} KeyUnionSnoc(requests: seq<Request>, r: Request)
    ensures KeyUnion(requests + [r]) == KeyUnion(requests) + r.keys
  {
    if requests != [] {
      assert (requests + [r])[1..] == requests[1..] + [r];
      KeyUnionSnoc(requests[1..], r);
    }
  }

  /** The call made by `load_many` when it cannot answer from the cache. */
  function NewRequest(s: State, input: seq<Key>): Request {
    var off := s.shared.disableCache || s.loaderDisabled;
    Request(|s.asked|,
            if off then set k | k in input else MissingPart(s.shared.cache, input),
            if off then map[] else CachedPart(s.shared.cache, input))
  }

  lemma CountOne(r: Request, id: nat)
    ensures CountQueued([r], id) == if id == r.id then 1 else 0
  {
    assert CountQueued([r][1..], id) == 0;
  }

  lemma CountLast(requests: seq<Request>, r: Request, id: nat)
    ensures CountQueued(requests + [r], id) == CountQueued(requests, id) + if id == r.id then 1 else 0
  {
    CountQueuedConcat(requests, [r], id);
    CountOne(r, id);
  }

  lemma CountLastSent(sent: seq<(nat, Answer)>, reply: (nat, Answer), id: nat)
    ensures CountSent(sent + [reply], id) == CountSent(sent, id) + if id == reply.0 then 1 else 0
  {
    CountSentConcat(sent, [reply], id);
    assert CountSent([reply][1..], id) == 0;
  }

  /** A call adds one occurrence of itself, wherever it ends up. */
  lemma {:induction false} LoadManyPlaces(max: nat, s: State, input: seq<Key>, id: nat)
    ensures Places(AfterLoadMany(max, s, input), id) == Places(s, id) + if id == |s.asked| then 1 else 0
  {
    hide CountQueued, CountSent, CountInTasks;
    var r := NewRequest(s, input);
    if r.keys == {} {
      CountLastSent(s.sent, (r.id, Ok(r.cached)), id);
    } else {
      CountLast(s.shared.pending, r, id);
      CountNone(id);
      if |s.shared.keys + r.keys| >= max {
        CountSnoc(s.tasks, Spawning(ImmediateLoad(Batch(s.shared.keys + r.keys, s.shared.pending + [r]))), id);
      } else {
        CountSnoc(s.tasks, Spawning(StartFetch), id);
      }
    }
  }

  lemma CountNone(id: nat)
    ensures CountQueued([], id) == 0
  {
  }

  lemma {:induction false} LoadManyConserved(max: nat, s: State, input: seq<Key>)
    requires Conserved(s)
    ensures Conserved(AfterLoadMany(max, s, input))
  {
    forall id: nat
      ensures Places(AfterLoadMany(max, s, input), id) == if id < |s.asked| + 1 then 1 else 0
    {
      LoadManyPlaces(max, s, input, id);
      assert Places(s, id) == if id < |s.asked| then 1 else 0;
    }
  }

  lemma {:induction false} LoadManyTasks(max: nat, s: State, input: seq<Key>)
    requires GoodTasks(max, s.tasks) && Covers(s.shared.keys, s.shared.pending) && |s.shared.keys| < Max1(max)
    ensures GoodTasks(max, AfterLoadMany(max, s, input).tasks)
  {
    var t := AfterLoadMany(max, s, input);
    var r := NewRequest(s, input);
    if |t.tasks| > |s.tasks| {
      KeyUnionSnoc(s.shared.pending, r);
      var task := t.tasks[|s.tasks|];
      assert t.tasks == s.tasks + [task];
      if HasBatch(task) {
        var batch := BatchOf(task);
        assert batch == Batch(s.shared.keys + r.keys, s.shared.pending + [r]);
        assert Covers(batch.keys, batch.senders) && SizeBound(max, batch);
      }
      assert GoodTask(max, task);
    }
  }

  lemma {:induction false} LoadManyAwake(max: nat, s: State, input: seq<Key>)
    requires Awake(s) && Covers(s.shared.keys, s.shared.pending)
    ensures Awake(AfterLoadMany(max, s, input))
  {
    var t := AfterLoadMany(max, s, input);
    if t.shared.pending != [] {
      if s.shared.pending != [] {
        var j :| 0 <= j < |s.tasks| && WillFire(s.tasks[j]);
        assert t.tasks[j] == s.tasks[j];
      } else {
        assert s.shared.keys == {};
        assert WillFire(t.tasks[|s.tasks|]);
      }
    }
  }

  lemma {:induction false} LoadManyQueue(max: nat, s: State, input: seq<Key>)
    requires Covers(s.shared.keys, s.shared.pending) && |s.shared.keys| < Max1(max)
    ensures var v := AfterLoadMany(max, s, input).shared;
            Covers(v.keys, v.pending) && |v.keys| < Max1(max)
  {
    var r := NewRequest(s, input);
    var v := LoadSection(s.shared, r.id, input, s.loaderDisabled, max).0;
    assert AfterLoadMany(max, s, input).shared == v;
    if r.keys == {} {
      assert v == s.shared;
    } else if |s.shared.keys + r.keys| >= max {
      assert v.keys == {} && v.pending == [];
    } else {
      assert v.keys == s.shared.keys + r.keys && v.pending == s.shared.pending + [r];
      KeyUnionSnoc(s.shared.pending, r);
    }
  }

  lemma {:induction false} LoadManyInv(max: nat, s: State, input: seq<Key>)
    requires Inv(max, s) && !s.poisoned
    ensures Inv(max, AfterLoadMany(max, s, input))
  {
    LoadManyQueue(max, s, input);
    LoadManyAwake(max, s, input);
    LoadManyTasks(max, s, input);
    LoadManyConserved(max, s, input);
  }

  lemma {:induction false} SpawnInv(max: nat, s: State, i: nat)
    requires Inv(max, s) && i < |s.tasks| && s.tasks[i].Spawning? && !s.tasks[i].action.Delay?
    ensures Inv(max, AfterSpawn(s, i))
  {
    var t := AfterSpawn(s, i);
    forall id: nat
      ensures Places(t, id) == Places(s, id)
    {
      CountUpdate(s.tasks, i, t.tasks[i], id);
    }
    if s.shared.pending != [] {
      var j :| 0 <= j < |s.tasks| && WillFire(s.tasks[j]);
      assert WillFire(t.tasks[j]);
    }
    assert GoodTask(max, s.tasks[i]);
  }

  lemma {:induction false} FireInv(max: nat, s: State, i: nat)
    requires Inv(max, s) && i < |s.tasks| && s.tasks[i].Timer?
    ensures Inv(max, AfterFire(s, i))
  {
    var t := AfterFire(s, i);
    if s.shared.keys != {} {
      assert s.shared.pending != [];
      var task := Loading(s.tasks[i].disableCache, Batch(s.shared.keys, s.shared.pending));
      assert GoodTask(max, task);
      forall id: nat
        ensures Places(t, id) == Places(s, id)
      {
        CountUpdate(s.tasks, i, task, id);
      }
    } else {
      assert s.shared.pending == [];
      forall id: nat
        ensures Places(t, id) == Places(s, id)
      {
        CountRemove(s.tasks, i, id);
      }
    }
  }

  lemma {:induction false} ReturnInv(max: nat, s: State, i: nat, result: Answer, t: State)
    requires Inv(max, s) && IsReturn(s, i, result, t)
    ensures Inv(max, t)
  {
    var senders := s.tasks[i].batch.senders;
    forall id: nat
      ensures Places(t, id) == Places(s, id)
    {
      CountRemove(s.tasks, i, id);
      CountReplies(senders, result, id);
      CountSentConcat(s.sent, Replies(senders, result), id);
    }
    if s.shared.pending != [] {
      var j :| 0 <= j < |s.tasks| && WillFire(s.tasks[j]);
      assert t.tasks[if j < i then j else j - 1] == s.tasks[j];
    }
  }

  lemma {:induction false} StepInv(max: nat, s: State, l: Label, t: State)
    requires Inv(max, s) && Step(max, s, l, t)
    ensures Inv(max, t)
  {
    match l
    case LoadMany(input) =>
      if !s.poisoned {
        LoadManyInv(max, s, input);
      }
    case Spawn(i) => SpawnInv(max, s, i);
    case Fire(i) => FireInv(max, s, i);
    case Return(i, result) => ReturnInv(max, s, i, result, t);
    case _ => assert forall id: nat :: Places(t, id) == Places(s, id);
  }

  lemma {:induction false} RunInv(max: nat, states: seq<State>, labels: seq<Label>, n: nat)
    requires Run(max, states, labels) && n < |states|
    ensures Inv(max, states[n])
  {
    if n > 0 {
      RunInv(max, states, labels, n - 1);
      StepInv(max, states[n - 1], labels[n - 1], states[n]);
    }
  }
}
