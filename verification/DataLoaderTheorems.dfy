/**
 What the batching protocol guarantees in every run: no lost wake-up, exactly one reply per
 call, the size of batches, agreement with calling the loader directly, and quiescence.
 */
module DataLoaderTheorems {
  import opened Common
  import opened DataLoader
  import opened DataLoaderProtocol

  // ----- Safety in every reachable state -----

  /** A queued call always has a task on its way that will take the queue. */
  lemma {:induction false} NoLostWakeUp(max: nat, states: seq<State>, labels: seq<Label>, n: nat)
    requires Run(max, states, labels) && n < |states|
    ensures states[n].shared.pending != [] ==>
              exists i :: 0 <= i < |states[n].tasks| && WillFire(states[n].tasks[i])
  {
    RunInv(max, states, labels, n);
  }

  /** Each call made so far is in exactly one place, and no sender is ever dropped unanswered,
      so waiting for the reply cannot fail. */
  lemma {:induction false} ExactlyOnePlace(max: nat, states: seq<State>, labels: seq<Label>, n: nat, id: nat)
    requires Run(max, states, labels) && n < |states|
    ensures var s := states[n];
            && CountQueued(s.shared.pending, id) + CountInTasks(s.tasks, id) + CountSent(s.sent, id)
               == (if id < |s.asked| then 1 else 0)
            && s.discarded == []
  {
    RunInv(max, states, labels, n);
    assert Places(states[n], id) == if id < |states[n].asked| then 1 else 0;
  }

  lemma {:induction false} SentCounted(sent: seq<(nat, Answer)>, i: nat)
    requires i < |sent|
    ensures CountSent(sent, sent[i].0) >= 1
  {
    if i > 0 {
      SentCounted(sent[1..], i - 1);
    }
  }

  lemma {:induction false} SentTwice(sent: seq<(nat, Answer)>, i: nat, j: nat)
    requires i < j < |sent| && sent[i].0 == sent[j].0
    ensures CountSent(sent, sent[i].0) >= 2
  {
    if i > 0 {
      SentTwice(sent[1..], i - 1, j - 1);
    } else {
      SentCounted(sent[1..], j - 1);
    }
  }

  /** No call is answered twice. */
  lemma {:induction false} NeverAnsweredTwice(max: nat, states: seq<State>, labels: seq<Label>, n: nat, i: nat, j: nat)
    requires Run(max, states, labels) && n < |states| && i < j < |states[n].sent|
    ensures states[n].sent[i].0 != states[n].sent[j].0
  {
    var sent := states[n].sent;
    if sent[i].0 == sent[j].0 {
      SentTwice(sent, i, j);
      ExactlyOnePlace(max, states, labels, n, sent[i].0);
      assert false;
    }
  }

  /** A load is started with exactly the keys its callers wait for, and only the request that
      triggered it can take it over the limit. */
  lemma {:induction false} LoadedBatch(max: nat, states: seq<State>, labels: seq<Label>, n: nat, i: nat)
    requires Run(max, states, labels) && n < |states| && i < |states[n].tasks|
    requires states[n].tasks[i].Loading?
    ensures var b := states[n].tasks[i].batch;
            && b.keys == KeyUnion(b.senders) && b.keys != {}
            && |b.keys| <= Max1(max) - 1 + |b.senders[|b.senders| - 1].keys|
            && ((forall j | 0 <= j < |b.senders| :: |b.senders[j].keys| == 1) ==> |b.keys| <= Max1(max))
  {
    RunInv(max, states, labels, n);
    assert GoodTask(max, states[n].tasks[i]);
    var b := states[n].tasks[i].batch;
    assert b.senders[0].keys <= KeyUnion(b.senders);
  }

  /** The record exists whenever a task runs or a call is queued, so the lookups of the tasks
      cannot fail. */
  lemma {:induction false} RecordPresent(max: nat, states: seq<State>, labels: seq<Label>, n: nat)
    requires Run(max, states, labels) && n < |states|
    requires states[n].tasks != [] || states[n].shared.pending != []
    ensures states[n].present
  {
    RunInv(max, states, labels, n);
  }

  /** The cache of a key type is switched before any other call created its record. */
  ghost predicate SwitchesMissing(states: seq<State>, labels: seq<Label>, m: nat)
    requires |states| == |labels| + 1
  {
    m < |labels| && labels[m].EnableCache? && !states[m].present
  }

  /** The lock is poisoned exactly after such a switch.  Then no call is waiting and no task is running,
      and no later step starts anything. */
  lemma {:induction false} PoisonedExactly(max: nat, states: seq<State>, labels: seq<Label>, n: nat)
    requires Run(max, states, labels) && n < |states|
    ensures states[n].poisoned <==> exists m: nat :: m < n && SwitchesMissing(states, labels, m)
    ensures states[n].poisoned ==> states[n].tasks == [] && states[n].shared.pending == []
    ensures states[n].poisoned && n < |labels| ==>
              && states[n + 1].poisoned && states[n + 1].asked == states[n].asked && states[n + 1].sent == states[n].sent
  {
    RunInv(max, states, labels, n);
    if n < |labels| {
      assert Step(max, states[n], labels[n], states[n + 1]);
    }
    if n > 0 {
      PoisonedExactly(max, states, labels, n - 1);
      assert Step(max, states[n - 1], labels[n - 1], states[n]);
      if states[n].poisoned && !states[n - 1].poisoned {
        assert SwitchesMissing(states, labels, n - 1);
      }
    }
  }

  /** A call is answered on the spot, touching no queue and no task, exactly when it needs
      nothing from the loader; with caching on that means every key is cached. */
  lemma {:induction false} AnsweredOnTheSpot(max: nat, s: State, input: seq<Key>)
    ensures var t := AfterLoadMany(max, s, input);
            var off := s.shared.disableCache || s.loaderDisabled;
            var hit := input == [] || (!off && forall i | 0 <= i < |input| :: input[i] in s.shared.cache);
            && (hit <==> |t.sent| > |s.sent|)
            && (hit ==> t.shared == s.shared && t.tasks == s.tasks
                        && t.sent == s.sent + [(|s.asked|, Ok(map k | k in input && k in s.shared.cache ::
                          s.shared.cache[k]))])
  {
    var r := NewRequest(s, input);
    if input != [] {
      assert input[0] in input;
    }
    if r.keys == {} {
      forall i | 0 <= i < |input|
        ensures input[i] in s.shared.cache && !(s.shared.disableCache || s.loaderDisabled)
      {
        assert input[i] in input && input[i] !in r.keys;
      }
    }
  }

  /** Once the waiting keys reach the limit they are loaded at once, together with everything
      queued before; below the limit the call waits in the queue. */
  lemma {:induction false} ThresholdLoadsAtOnce(max: nat, s: State, input: seq<Key>)
    requires AfterLoadMany(max, s, input).sent == s.sent
    ensures var t := AfterLoadMany(max, s, input);
            var r := NewRequest(s, input);
            if |s.shared.keys + r.keys| >= max then
              && t.shared.keys == {} && t.shared.pending == []
              && t.tasks == s.tasks + [Spawning(ImmediateLoad(Batch(s.shared.keys + r.keys, s.shared.pending + [r])))]
            else
              && t.shared.keys == s.shared.keys + r.keys && t.shared.pending == s.shared.pending + [r]
              && t.tasks == (if s.shared.keys == {} then s.tasks + [Spawning(StartFetch)] else s.tasks)
  {
    var r := NewRequest(s, input);
    assert r.keys != {};
  }

  // ----- Agreement with direct loading -----

  type Source = Key -> Option<Value>

  ghost predicate Agrees(f: Source, m: map<Key, Value>) {
    forall k | k in m :: f(k) == Some(m[k])
  }

  /** Direct loading: the source restricted to the requested keys. */
  ghost function Direct(f: Source, keys: set<Key>): map<Key, Value> {
    map k | k in keys && f(k).Some? :: f(k).value
  }

  /** The loader finds every requested key the source has, and returns nothing else but
      values of the source. */
  ghost predicate LoaderAgrees(f: Source, keys: set<Key>, values: map<Key, Value>) {
    Agrees(f, values) && forall k | k in keys && f(k).Some? :: k in values
  }

  ghost predicate LabelAgrees(f: Source, s: State, l: Label) {
    match l
    case Return(i, Ok(values)) =>
      i < |s.tasks| && s.tasks[i].Loading? && LoaderAgrees(f, s.tasks[i].batch.keys, values)
    case Feed(values) => forall i | 0 <= i < |values| :: f(values[i].0) == Some(values[i].1)
    case _ => true
  }

  ghost predicate GoodRequest(f: Source, asked: seq<set<Key>>, r: Request) {
    r.id < |asked| && Agrees(f, r.cached) && r.cached.Keys + r.keys == asked[r.id]
  }

  ghost predicate GoodRequests(f: Source, asked: seq<set<Key>>, rs: seq<Request>) {
    forall i | 0 <= i < |rs| :: GoodRequest(f, asked, rs[i])
  }

  ghost predicate GoodReply(f: Source, asked: seq<set<Key>>, reply: (nat, Answer)) {
    reply.0 < |asked| && (reply.1.Ok? ==> reply.1.values == Direct(f, asked[reply.0]))
  }

  ghost predicate GoodReplies(f: Source, asked: seq<set<Key>>, sent: seq<(nat, Answer)>) {
    forall i | 0 <= i < |sent| :: GoodReply(f, asked, sent[i])
  }

  ghost predicate GoodHolders(f: Source, asked: seq<set<Key>>, tasks: seq<Task>) {
    forall i | 0 <= i < |tasks| && HasBatch(tasks[i]) :: GoodRequests(f, asked, BatchOf(tasks[i]).senders)
  }

  ghost predicate AgreementInv(f: Source, s: State) {
    && Agrees(f, s.shared.cache)
    && GoodRequests(f, s.asked, s.shared.pending)
    && GoodHolders(f, s.asked, s.tasks)
    && GoodReplies(f, s.asked, s.sent)
  }

  lemma {:induction false} FedAgrees(f: Source, pairs: seq<(Key, Value)>)
    requires forall i | 0 <= i < |pairs| :: f(pairs[i].0) == Some(pairs[i].1)
    ensures Agrees(f, FromPairs(pairs))
  {
    if pairs != [] {
      FedAgrees(f, pairs[..|pairs| - 1]);
    }
  }

  lemma {:induction false} UnionHolds(requests: seq<Request>, i: nat)
    requires i < |requests|
    ensures requests[i].keys <= KeyUnion(requests)
  {
    if i > 0 {
      UnionHolds(requests[1..], i - 1);
    }
  }

  /** Cached values and loaded values together are the direct answer. */
  lemma {:induction false} ReplyIsDirect(
    f: Source, asked: seq<set<Key>>, r: Request, keys: set<Key>, values: map<Key, Value>)
    requires GoodRequest(f, asked, r) && r.keys <= keys && LoaderAgrees(f, keys, values)
    ensures Reply(r, values) == Direct(f, asked[r.id])
  {
    var reply, direct := Reply(r, values), Direct(f, asked[r.id]);
    forall k | k in asked[r.id] && f(k).Some?
      ensures k in reply
    {
      assert k in r.cached || k in r.keys;
    }
    assert reply.Keys == direct.Keys;
  }

  lemma {:induction false} RepliesAt(senders: seq<Request>, result: Answer, i: nat)
    requires i < |senders|
    ensures |Replies(senders, result)| == |senders|
    ensures Replies(senders, result)[i] ==
            (senders[i].id, if result.Ok? then Ok(Reply(senders[i], result.values)) else result)
  {
    if |senders| > 1 {
      RepliesAt(senders[1..], result, if i == 0 then 0 else i - 1);
    } else {
      assert Replies(senders[1..], result) == [];
    }
  }

  lemma {:induction false} RepliesGood(f: Source, asked: seq<set<Key>>, b: Batch, result: Answer)
    requires GoodRequests(f, asked, b.senders) && b.keys == KeyUnion(b.senders)
    requires result.Ok? ==> LoaderAgrees(f, b.keys, result.values)
    ensures GoodReplies(f, asked, Replies(b.senders, result))
  {
    var replies := Replies(b.senders, result);
    forall i | 0 <= i < |replies|
      ensures GoodReply(f, asked, replies[i])
    {
      if b.senders != [] {
        RepliesAt(b.senders, result, 0);
        RepliesAt(b.senders, result, i);
        UnionHolds(b.senders, i);
        assert GoodRequest(f, asked, b.senders[i]);
        if result.Ok? {
          ReplyIsDirect(f, asked, b.senders[i], b.keys, result.values);
        }
      }
    }
  }

  lemma {:induction false} NewRequestGood(f: Source, s: State, input: seq<Key>)
    requires Agrees(f, s.shared.cache)
    ensures GoodRequest(f, s.asked + [set k | k in input], NewRequest(s, input))
    ensures NewRequest(s, input).keys == {} ==> NewRequest(s, input).cached == Direct(f, set k | k in input)
  {
    var r := NewRequest(s, input);
    var keys := set k | k in input;
    assert r.cached.Keys + r.keys == keys;
    if r.keys == {} {
      assert r.cached.Keys == keys == Direct(f, keys).Keys;
    }
  }

  lemma {:induction false} LoadManyAgreement(max: nat, f: Source, s: State, input: seq<Key>)
    requires AgreementInv(f, s)
    ensures AgreementInv(f, AfterLoadMany(max, s, input))
  {
    var t := AfterLoadMany(max, s, input);
    var r := NewRequest(s, input);
    NewRequestGood(f, s, input);
    assert t.asked == s.asked + [set k | k in input];
    LoadManyQueueAgreement(f, s, t.asked, r);
    if |t.tasks| > |s.tasks| {
      assert t.tasks == s.tasks + [t.tasks[|s.tasks|]];
    }
  }

  lemma {:induction false} LoadManyQueueAgreement(f: Source, s: State, asked: seq<set<Key>>, r: Request)
    requires AgreementInv(f, s) && s.asked <= asked && GoodRequest(f, asked, r)
    ensures GoodRequests(f, asked, s.shared.pending + [r])
    ensures GoodHolders(f, asked, s.tasks) && GoodReplies(f, asked, s.sent)
  {
    forall i | 0 <= i < |s.shared.pending|
      ensures GoodRequest(f, asked, s.shared.pending[i])
    {
      assert GoodRequest(f, s.asked, s.shared.pending[i]);
    }
    forall i, j | 0 <= i < |s.tasks| && HasBatch(s.tasks[i]) && 0 <= j < |BatchOf(s.tasks[i]).senders|
      ensures GoodRequest(f, asked, BatchOf(s.tasks[i]).senders[j])
    {
      assert GoodRequests(f, s.asked, BatchOf(s.tasks[i]).senders);
      assert GoodRequest(f, s.asked, BatchOf(s.tasks[i]).senders[j]);
    }
    forall i | 0 <= i < |s.sent|
      ensures GoodReply(f, asked, s.sent[i])
    {
      assert GoodReply(f, s.asked, s.sent[i]);
    }
  }

  lemma RemovedHolders(f: Source, asked: seq<set<Key>>, tasks: seq<Task>, i: nat)
    requires GoodHolders(f, asked, tasks) && i < |tasks|
    ensures GoodHolders(f, asked, Remove(tasks, i))
  {
    forall j | 0 <= j < |Remove(tasks, i)| && HasBatch(Remove(tasks, i)[j])
      ensures GoodRequests(f, asked, BatchOf(Remove(tasks, i)[j]).senders)
    {
      assert Remove(tasks, i)[j] == tasks[if j < i then j else j + 1];
    }
  }

  lemma AppendedReplies(f: Source, asked: seq<set<Key>>, sent: seq<(nat, Answer)>, more: seq<(nat, Answer)>)
    requires GoodReplies(f, asked, sent) && GoodReplies(f, asked, more)
    ensures GoodReplies(f, asked, sent + more)
  {
  }

  lemma StoredAgrees(f: Source, m: map<Key, Value>, values: map<Key, Value>, rest: map<Key, Value>)
    requires Agrees(f, m) && Agrees(f, values) && Forgets(m + values, rest)
    ensures Agrees(f, rest)
  {
  }

  /** The batch of a finishing load holds good requests, so its replies are good. */
  lemma {:induction false} ReturnReplies(max: nat, f: Source, s: State, i: nat, result: Answer)
    requires Inv(max, s) && AgreementInv(f, s) && i < |s.tasks| && s.tasks[i].Loading?
    requires LabelAgrees(f, s, Return(i, result))
    ensures GoodReplies(f, s.asked, Replies(s.tasks[i].batch.senders, result))
  {
    var b := s.tasks[i].batch;
    assert GoodTask(max, s.tasks[i]);
    assert GoodRequests(f, s.asked, b.senders);
    RepliesGood(f, s.asked, b, result);
  }

  lemma {:induction false} ReturnAgreement(f: Source, s: State, i: nat, result: Answer, t: State)
    requires AgreementInv(f, s) && IsReturn(s, i, result, t) && LabelAgrees(f, s, Return(i, result))
    requires GoodReplies(f, s.asked, Replies(s.tasks[i].batch.senders, result))
    ensures AgreementInv(f, t)
  {
    RemovedHolders(f, s.asked, s.tasks, i);
    AppendedReplies(f, s.asked, s.sent, Replies(s.tasks[i].batch.senders, result));
    if result.Ok? && !s.shared.disableCache && !s.tasks[i].disableCache {
      StoredAgrees(f, s.shared.cache, result.values, t.shared.cache);
    }
  }

  lemma {:induction false} FireAgreement(f: Source, s: State, i: nat)
    requires AgreementInv(f, s) && i < |s.tasks| && s.tasks[i].Timer?
    ensures AgreementInv(f, AfterFire(s, i))
  {
    RemovedHolders(f, s.asked, s.tasks, i);
  }

  lemma {:induction false} SpawnAgreement(f: Source, s: State, i: nat)
    requires AgreementInv(f, s) && i < |s.tasks| && s.tasks[i].Spawning? && !s.tasks[i].action.Delay?
    ensures AgreementInv(f, AfterSpawn(s, i))
  {
  }

  lemma {:induction false} StepAgreement(max: nat, f: Source, s: State, l: Label, t: State)
    requires Inv(max, s) && AgreementInv(f, s) && Step(max, s, l, t) && LabelAgrees(f, s, l)
    ensures AgreementInv(f, t)
  {
    if l.Return? {
      ReturnReplies(max, f, s, l.task, l.result);
    }
    AgreementKept(max, f, s, l, t);
  }

  /** Every step keeps agreement, given that the replies of a finishing load are good. */
  lemma {:induction false} AgreementKept(max: nat, f: Source, s: State, l: Label, t: State)
    requires AgreementInv(f, s) && Step(max, s, l, t) && LabelAgrees(f, s, l)
    requires l.Return? ==> GoodReplies(f, s.asked, Replies(s.tasks[l.task].batch.senders, l.result))
    ensures AgreementInv(f, t)
  {
    match l
    case LoadMany(input) =>
      if !s.poisoned {
        LoadManyAgreement(max, f, s, input);
      }
    case Return(i, result) => ReturnAgreement(f, s, i, result, t);
    case Feed(values) =>
      if !s.poisoned {
        FedAgrees(f, values);
        StoredAgrees(f, s.shared.cache, FromPairs(values), t.shared.cache);
      }
    case Fire(i) => FireAgreement(f, s, i);
    case Spawn(i) => SpawnAgreement(f, s, i);
    case Evict =>
      assert s.shared.cache + map[] == s.shared.cache;
      StoredAgrees(f, s.shared.cache, map[], t.shared.cache);
    case _ =>
  }

  ghost predicate RunAgrees(f: Source, states: seq<State>, labels: seq<Label>)
    requires |states| == |labels| + 1
  {
    forall i | 0 <= i < |labels| :: LabelAgrees(f, states[i], labels[i])
  }

  lemma {:induction false} RunAgreement(max: nat, f: Source, states: seq<State>, labels: seq<Label>, n: nat)
    requires Run(max, states, labels) && RunAgrees(f, states, labels) && n < |states|
    ensures AgreementInv(f, states[n])
  {
    if n > 0 {
      RunAgreement(max, f, states, labels, n - 1);
      RunInv(max, states, labels, n - 1);
      StepAgreement(max, f, states[n - 1], labels[n - 1], states[n]);
    }
  }

  /** Batching, caching and every interleaving are invisible: a successful reply is what the
      source holds for the keys the call asked for, no more and no less. */
  lemma {:induction false} RefinesDirectLoading(
    max: nat, f: Source, states: seq<State>, labels: seq<Label>, n: nat, i: nat)
    requires Run(max, states, labels) && RunAgrees(f, states, labels)
    requires n < |states| && i < |states[n].sent| && states[n].sent[i].1.Ok?
    ensures var (id, answer) := states[n].sent[i];
            id < |states[n].asked| && answer.values == Direct(f, states[n].asked[id])
  {
    RunAgreement(max, f, states, labels, n);
    assert GoodReply(f, states[n].asked, states[n].sent[i]);
  }

  /** `load_one` returns what the source holds for its key. */
  lemma {:induction false} LoadOne(
    max: nat, f: Source, states: seq<State>, labels: seq<Label>, n: nat, i: nat, key: Key)
    requires Run(max, states, labels) && RunAgrees(f, states, labels)
    requires n < |states| && i < |states[n].sent| && states[n].sent[i].1.Ok?
    requires states[n].sent[i].0 < |states[n].asked| && states[n].asked[states[n].sent[i].0] == {key}
    ensures var values := states[n].sent[i].1.values;
            f(key) == if key in values then Some(values[key]) else None
  {
    RefinesDirectLoading(max, f, states, labels, n, i);
  }

  /** A call fails only with an error the loader returned. */
  lemma {:induction false} ErrorsComeFromTheLoader(max: nat, states: seq<State>, labels: seq<Label>, n: nat, i: nat)
    requires Run(max, states, labels) && n < |states| && i < |states[n].sent| && states[n].sent[i].1.Err?
    ensures exists m, task :: 0 <= m < n && labels[m] == Return(task, states[n].sent[i].1)
  {
    var s, t := states[n - 1], states[n];
    assert Step(max, s, labels[n - 1], t);
    if i < |s.sent| {
      assert t.sent[i] == s.sent[i];
      ErrorsComeFromTheLoader(max, states, labels, n - 1, i);
    } else {
      match labels[n - 1]
      case Return(task, result) =>
        var senders := s.tasks[task].batch.senders;
        var replies := Replies(senders, result);
        assert t.sent[i] == replies[i - |s.sent|];
        if senders != [] {
          RepliesAt(senders, result, 0);
          RepliesAt(senders, result, i - |s.sent|);
        }
        assert labels[n - 1] == Return(task, t.sent[i].1);
      case _ =>
    }
  }

  // ----- Quiescence -----

  function Weight(task: Task): nat {
    match task
    case Spawning(_) => 3
    case Timer(_) => 2
    case Loading(_, _) => 1
  }

  /** How many steps the outstanding tasks can still take. */
  function Work(tasks: seq<Task>): nat {
    if tasks == [] then 0 else Weight(tasks[0]) + Work(tasks[1..])
  }

  predicate IsTaskStep(l: Label) {
    l.Spawn? || l.Fire? || l.Return?
  }

  lemma {:induction false} WorkConcat(a: seq<Task>, b: seq<Task>)
    ensures Work(a + b) == Work(a) + Work(b)
  {
    if a == [] {
      assert a + b == b;
    } else {
      assert (a + b)[1..] == a[1..] + b;
      WorkConcat(a[1..], b);
    }
  }

  lemma {:induction false} WorkRemove(tasks: seq<Task>, i: nat)
    requires i < |tasks|
    ensures Work(tasks) == Work(Remove(tasks, i)) + Weight(tasks[i])
  {
    WorkConcat(tasks[..i], tasks[i + 1..]);
    WorkConcat(tasks[..i], tasks[i..]);
    assert tasks == tasks[..i] + tasks[i..];
    assert tasks[i..][1..] == tasks[i + 1..];
  }

  lemma {:induction false} WorkUpdate(tasks: seq<Task>, i: nat, task: Task)
    requires i < |tasks|
    ensures Work(tasks[i := task]) == Work(tasks) - Weight(tasks[i]) + Weight(task)
  {
    WorkRemove(tasks, i);
    WorkRemove(tasks[i := task], i);
    assert Remove(tasks[i := task], i) == Remove(tasks, i);
  }

  /** Without new calls every task step uses up work and nothing else creates any. */
  lemma {:induction false} StepWork(max: nat, s: State, l: Label, t: State)
    requires Step(max, s, l, t) && !l.LoadMany?
    ensures if IsTaskStep(l) then Work(t.tasks) < Work(s.tasks) else t.tasks == s.tasks
  {
    match l
    case Spawn(i) => WorkUpdate(s.tasks, i, t.tasks[i]);
    case Fire(i) =>
      WorkRemove(s.tasks, i);
      if s.shared.keys != {} {
        WorkUpdate(s.tasks, i, t.tasks[i]);
      }
    case Return(i, _) => WorkRemove(s.tasks, i);
    case _ =>
  }

  function TaskSteps(labels: seq<Label>): nat {
    if labels == [] then 0 else (if IsTaskStep(labels[0]) then 1 else 0) + TaskSteps(labels[1..])
  }

  /** A finite continuation from any state. */
  ghost predicate Path(max: nat, states: seq<State>, labels: seq<Label>) {
    && |states| == |labels| + 1
    && forall i | 0 <= i < |labels| :: Step(max, states[i], labels[i], states[i + 1])
  }

  /** However the rest is scheduled, a state with work `w` sees at most `w` task steps until
      the next call. */
  lemma {:induction false} BoundedWork(max: nat, states: seq<State>, labels: seq<Label>)
    requires Path(max, states, labels) && forall i | 0 <= i < |labels| :: !labels[i].LoadMany?
    ensures TaskSteps(labels) + Work(states[|labels|].tasks) <= Work(states[0].tasks)
  {
    if labels != [] {
      assert Step(max, states[0], labels[0], states[1]);
      StepWork(max, states[0], labels[0], states[1]);
      var rest, ls := states[1..], labels[1..];
      assert forall i | 0 <= i < |ls| :: Step(max, rest[i], ls[i], rest[i + 1]) by {
        forall i | 0 <= i < |ls|
          ensures Step(max, rest[i], ls[i], rest[i + 1])
        {
          assert Step(max, states[i + 1], labels[i + 1], states[i + 2]);
        }
      }
      BoundedWork(max, rest, ls);
    }
  }

  /** With no work left every call has been answered, exactly once. */
  lemma {:induction false} QuietMeansAnswered(max: nat, s: State, id: nat)
    requires Inv(max, s) && Work(s.tasks) == 0 && id < |s.asked|
    ensures CountSent(s.sent, id) == 1 && s.shared.pending == []
  {
    assert s.tasks == [];
    assert Places(s, id) == 1;
  }

  /** No deadlock: every outstanding task has its next step enabled, whatever the loader says. */
  lemma {:induction false} EveryTaskCanStep(max: nat, s: State, i: nat, result: Answer) returns (l: Label, t: State)
    requires Inv(max, s) && i < |s.tasks|
    ensures Step(max, s, l, t) && IsTaskStep(l) && l.task == i && (l.Return? ==> l.result == result)
  {
    assert GoodTask(max, s.tasks[i]);
    match s.tasks[i]
    case Spawning(_) => l, t := Spawn(i), AfterSpawn(s, i);
    case Timer(_) => l, t := Fire(i), AfterFire(s, i);
    case Loading(disabled, batch) =>
      l := Return(i, result);
      var cache := if result.Ok? && !s.shared.disableCache && !disabled then s.shared.cache + result.values
        else s.shared.cache;
      t := s.(shared := s.shared.(cache := cache), tasks := Remove(s.tasks, i),
              sent := s.sent + Replies(batch.senders, result));
  }

  lemma {:induction false} NextStep(max: nat, f: Source, s: State) returns (l: Label, t: State)
    requires Inv(max, s) && AgreementInv(f, s) && s.tasks != []
    ensures Step(max, s, l, t) && IsTaskStep(l) && LabelAgrees(f, s, l)
    ensures Inv(max, t) && AgreementInv(f, t) && Work(t.tasks) < Work(s.tasks) && t.asked == s.asked
  {
    var keys := if s.tasks[0].Loading? then s.tasks[0].batch.keys else {};
    l, t := EveryTaskCanStep(max, s, 0, Ok(Direct(f, keys)));
    StepInv(max, s, l, t);
    StepAgreement(max, f, s, l, t);
    StepWork(max, s, l, t);
  }

  /** From every state of the protocol the outstanding tasks can run to completion with a
      loader that agrees with the source, and then every call has its direct answer. */
  lemma {:induction false} CanFinish(max: nat, f: Source, s: State) returns (states: seq<State>, labels: seq<Label>)
    requires Inv(max, s) && AgreementInv(f, s)
    ensures Path(max, states, labels) && states[0] == s
    ensures forall i | 0 <= i < |labels| :: IsTaskStep(labels[i]) && LabelAgrees(f, states[i], labels[i])
    ensures var last := states[|labels|];
            Inv(max, last) && AgreementInv(f, last) && Work(last.tasks) == 0 && last.asked == s.asked
    decreases Work(s.tasks)
  {
    if s.tasks == [] {
      states, labels := [s], [];
    } else {
      var l, t := NextStep(max, f, s);
      var restStates, restLabels := CanFinish(max, f, t);
      states, labels := [s] + restStates, [l] + restLabels;
      PathCons(max, f, s, l, restStates, restLabels);
    }
  }

  lemma {:induction false} PathCons(max: nat, f: Source, s: State, l: Label, states: seq<State>, labels: seq<Label>)
    requires Path(max, states, labels) && Step(max, s, l, states[0]) && IsTaskStep(l) && LabelAgrees(f, s, l)
    requires forall i | 0 <= i < |labels| :: IsTaskStep(labels[i]) && LabelAgrees(f, states[i], labels[i])
    ensures Path(max, [s] + states, [l] + labels)
    ensures forall i | 0 <= i < |[l] + labels| ::
              IsTaskStep(([l] + labels)[i]) && LabelAgrees(f, ([s] + states)[i], ([l] + labels)[i])
  {
    var ss, ls := [s] + states, [l] + labels;
    forall i | 0 <= i < |ls|
      ensures Step(max, ss[i], ls[i], ss[i + 1]) && IsTaskStep(ls[i]) && LabelAgrees(f, ss[i], ls[i])
    {
      if i > 0 {
        assert Step(max, states[i - 1], labels[i - 1], states[i]);
        assert IsTaskStep(labels[i - 1]);
      }
    }
  }
}
