/**
 What the cache switches do, told from the calls of a run alone: which of them are off, which
 calls the cache may answer, and where every value in it comes from.
 */
module DataLoaderSwitches {
  import opened DataLoader
  import opened DataLoaderProtocol
  import opened DataLoaderTheorems

  // ----- What one step does to the switches -----

  const UNTOUCHED := View({}, [], map[], false)

  lemma SwitchStep(max: nat, s: State, l: Label, t: State)
    requires Step(max, s, l, t)
    ensures t.loaderDisabled == if l.EnableAllCache? then !l.enable else s.loaderDisabled
    ensures t.present == (s.present || (Locks(l) && !l.EnableCache? && !s.poisoned))
    ensures t.poisoned == (s.poisoned || (l.EnableCache? && !s.present))
    ensures t.shared.disableCache ==
            if l.EnableCache? && s.present && !s.poisoned then !l.enable else s.shared.disableCache
  {
  }

  /** Before the record is created there is nothing to run. */
  lemma UntouchedStep(max: nat, s: State, l: Label, t: State)
    requires Step(max, s, l, t) && s.shared == UNTOUCHED && s.tasks == [] && !t.present
    ensures t.shared == UNTOUCHED
  {
  }

  lemma StepAt(max: nat, states: seq<State>, labels: seq<Label>, n: nat)
    requires Run(max, states, labels) && n < |labels|
    ensures Step(max, states[n], labels[n], states[n + 1])
  {
  }

  // ----- The record of the key type -----

  /** The first call that takes the lock is the one at `m`. */
  predicate FirstLocks(labels: seq<Label>, m: nat) {
    m < |labels| && Locks(labels[m]) && forall j | 0 <= j < m :: !Locks(labels[j])
  }

  /** The first call that takes the lock before `n` creates the record. */
  predicate Created(labels: seq<Label>, n: nat) {
    exists m: nat :: m < n && FirstLocks(labels, m) && !labels[m].EnableCache?
  }

  /** The first call that takes the lock before `n` finds no record and panics. */
  predicate Spoiled(labels: seq<Label>, n: nat) {
    exists m: nat :: m < n && FirstLocks(labels, m) && labels[m].EnableCache?
  }

  predicate Unlocked(labels: seq<Label>, n: nat)
    requires n <= |labels|
  {
    forall j | 0 <= j < n :: !Locks(labels[j])
  }

  lemma FirstLocksSnoc(labels: seq<Label>, n: nat)
    requires n < |labels|
    ensures Created(labels, n + 1) <==> Created(labels, n) || (FirstLocks(labels, n) && !labels[n].EnableCache?)
    ensures Spoiled(labels, n + 1) <==> Spoiled(labels, n) || (FirstLocks(labels, n) && labels[n].EnableCache?)
    ensures FirstLocks(labels, n) <==> Unlocked(labels, n) && Locks(labels[n])
  {
  }

  /** Which call took the lock first decides whether the record exists or the lock is poisoned. */
  lemma {:induction false} FirstCallDecides(max: nat, states: seq<State>, labels: seq<Label>, n: nat)
    requires Run(max, states, labels) && n < |states|
    ensures states[n].present <==> Created(labels, n)
    ensures states[n].poisoned <==> Spoiled(labels, n)
    ensures !states[n].present && !states[n].poisoned <==> Unlocked(labels, n)
    ensures !states[n].present ==> states[n].shared == UNTOUCHED
  {
    hide Step, Created, Spoiled;
    if n == 0 {
      NothingLocked(labels);
    } else {
      FirstCallDecides(max, states, labels, n - 1);
      StepAt(max, states, labels, n - 1);
      SwitchStep(max, states[n - 1], labels[n - 1], states[n]);
      RunInv(max, states, labels, n - 1);
      FirstLocksSnoc(labels, n - 1);
      if !states[n].present {
        UntouchedStep(max, states[n - 1], labels[n - 1], states[n]);
      }
    }
  }

  lemma NothingLocked(labels: seq<Label>)
    ensures !Created(labels, 0) && !Spoiled(labels, 0) && Unlocked(labels, 0)
  {
  }

  // ----- The switches -----

  /** The last switch of all caches before `n` turned them off. */
  predicate AllOff(labels: seq<Label>, n: nat) {
    exists m: nat :: m < n <= |labels| && labels[m] == EnableAllCache(false)
                     && forall j | m < j < n :: !labels[j].EnableAllCache?
  }

  /** The last switch of this cache before `n` that found a record turned it off. */
  predicate OwnOff(labels: seq<Label>, n: nat) {
    exists m: nat :: m < n <= |labels| && labels[m] == EnableCache(false) && Created(labels, m)
                     && forall j | m < j < n :: !labels[j].EnableCache?
  }

  lemma AllOffSnoc(labels: seq<Label>, n: nat)
    requires n < |labels|
    ensures AllOff(labels, n + 1) <==> if labels[n].EnableAllCache? then !labels[n].enable else AllOff(labels, n)
  {
    if AllOff(labels, n) && !labels[n].EnableAllCache? {
      var m: nat :| m < n && labels[m] == EnableAllCache(false) && forall j | m < j < n :: !labels[j].EnableAllCache?;
      assert forall j | m < j < n + 1 :: !labels[j].EnableAllCache?;
    }
    if labels[n] == EnableAllCache(false) {
      assert AllOff(labels, n + 1);
    }
  }

  lemma OwnOffSnoc(labels: seq<Label>, n: nat)
    requires n < |labels|
    ensures !labels[n].EnableCache? ==> (OwnOff(labels, n + 1) <==> OwnOff(labels, n))
    ensures labels[n].EnableCache? ==> (OwnOff(labels, n + 1) <==> !labels[n].enable && Created(labels, n))
  {
    hide Created;
    if OwnOff(labels, n) && !labels[n].EnableCache? {
      var m: nat :| m < n && labels[m] == EnableCache(false) && Created(labels, m)
                    && forall j | m < j < n :: !labels[j].EnableCache?;
      assert forall j | m < j < n + 1 :: !labels[j].EnableCache?;
    }
    if labels[n] == EnableCache(false) && Created(labels, n) {
      assert OwnOff(labels, n + 1);
    }
  }

  lemma {:induction false} LoaderSwitchIsLastCall(max: nat, states: seq<State>, labels: seq<Label>, n: nat)
    requires Run(max, states, labels) && n < |states|
    ensures states[n].loaderDisabled <==> AllOff(labels, n)
  {
    hide Step;
    if n > 0 {
      LoaderSwitchIsLastCall(max, states, labels, n - 1);
      StepAt(max, states, labels, n - 1);
      SwitchStep(max, states[n - 1], labels[n - 1], states[n]);
      AllOffSnoc(labels, n - 1);
    }
  }

  lemma {:induction false} OwnSwitchIsLastCall(max: nat, states: seq<State>, labels: seq<Label>, n: nat)
    requires Run(max, states, labels) && n < |states|
    ensures states[n].shared.disableCache <==> OwnOff(labels, n)
  {
    hide Step, Created, Spoiled;
    if n > 0 {
      OwnSwitchIsLastCall(max, states, labels, n - 1);
      FirstCallDecides(max, states, labels, n - 1);
      RunInv(max, states, labels, n - 1);
      StepAt(max, states, labels, n - 1);
      SwitchStep(max, states[n - 1], labels[n - 1], states[n]);
      OwnOffSnoc(labels, n - 1);
    }
  }

  // ----- What the switches are for -----

  /** The call made in the last step stands in the queue, or in the batch that its caller will load. */
  predicate Waits(t: State, r: Request) {
    if t.shared.pending != [] then t.shared.pending[|t.shared.pending| - 1] == r
    else
      && t.tasks != [] && HasBatch(t.tasks[|t.tasks| - 1])
      && var senders := BatchOf(t.tasks[|t.tasks| - 1]).senders;
         senders != [] && senders[|senders| - 1] == r
  }

  lemma QueuedWaits(max: nat, s: State, input: seq<Key>)
    ensures var t, r := AfterLoadMany(max, s, input), NewRequest(s, input);
            if r.keys == {} then t.sent == s.sent + [(r.id, Ok(r.cached))] && t.tasks == s.tasks
            else t.sent == s.sent && Waits(t, r)
  {
  }

  /** While a switch is off, a call for any key at all is not answered on the spot, and the loader is asked for
      all its keys. */
  lemma {:induction false} OffMeansLoaded(max: nat, states: seq<State>, labels: seq<Label>, n: nat)
    requires Run(max, states, labels) && n < |labels| && labels[n].LoadMany? && labels[n].input != []
    requires AllOff(labels, n) || OwnOff(labels, n)
    ensures states[n + 1].sent == states[n].sent
    ensures !Spoiled(labels, n) ==>
              Waits(states[n + 1], Request(|states[n].asked|, set k | k in labels[n].input, map[]))
  {
    var s, t, input := states[n], states[n + 1], labels[n].input;
    StepAt(max, states, labels, n);
    LoaderSwitchIsLastCall(max, states, labels, n);
    OwnSwitchIsLastCall(max, states, labels, n);
    FirstCallDecides(max, states, labels, n);
    if !s.poisoned {
      QueuedWaits(max, s, input);
      assert input[0] in NewRequest(s, input).keys;
    }
  }

  /** While no switch is off, the loader is asked for exactly the keys that are not cached, and the rest is taken
      from the cache; a call whose keys are all cached is answered on the spot. */
  lemma {:induction false} OnMeansCached(max: nat, states: seq<State>, labels: seq<Label>, n: nat)
    requires Run(max, states, labels) && n < |labels| && labels[n].LoadMany?
    requires !AllOff(labels, n) && !OwnOff(labels, n) && !Spoiled(labels, n)
    ensures var s, t, input := states[n], states[n + 1], labels[n].input;
            var missing := set k | k in input && k !in s.shared.cache;
            var cached := map k | k in input && k in s.shared.cache :: s.shared.cache[k];
            if missing == {} then t.sent == s.sent + [(|s.asked|, Ok(cached))] && t.tasks == s.tasks
            else t.sent == s.sent && Waits(t, Request(|s.asked|, missing, cached))
  {
    assert Step(max, states[n], labels[n], states[n + 1]);
    LoaderSwitchIsLastCall(max, states, labels, n);
    OwnSwitchIsLastCall(max, states, labels, n);
    FirstCallDecides(max, states, labels, n);
    QueuedWaits(max, states[n], labels[n].input);
  }

  // ----- When a task was spawned -----

  /** Where the task that is at `i` after a step was before it. */
  function Back(s: State, l: Label, i: nat): nat {
    match l
    case Return(j, _) => if i < j then i else i + 1
    case Fire(j) => if s.shared.keys != {} || i < j then i else i + 1
    case _ => i
  }

  /** The task at position `i` of the `n`-th state was spawned in step `p`. */
  predicate SpawnedIn(states: seq<State>, labels: seq<Label>, n: nat, i: nat, p: nat)
    requires n < |states| == |labels| + 1
    decreases n
  {
    && p < n
    && if labels[n - 1] == Spawn(i) then p == n - 1
       else SpawnedIn(states, labels, n - 1, Back(states[n - 1], labels[n - 1], i), p)
  }

  /** A task that runs was spawned in some step, and it writes to the cache later exactly if caching was not
      switched off then. */
  lemma {:induction false} SwitchIsCaptured(max: nat, states: seq<State>, labels: seq<Label>, n: nat, i: nat)
    returns (p: nat)
    requires Run(max, states, labels) && n < |states| && i < |states[n].tasks| && !states[n].tasks[i].Spawning?
    ensures SpawnedIn(states, labels, n, i, p) && labels[p].Spawn?
    ensures states[n].tasks[i].disableCache <==> AllOff(labels, p)
  {
    hide Step, AllOff;
    var s, l, t := states[n - 1], labels[n - 1], states[n];
    StepAt(max, states, labels, n - 1);
    TaskStep(max, s, l, t, i);
    if l == Spawn(i) {
      p := n - 1;
      LoaderSwitchIsLastCall(max, states, labels, n - 1);
    } else {
      p := SwitchIsCaptured(max, states, labels, n - 1, Back(s, l, i));
    }
  }

  /** A running task was spawned just now, or ran before with the same switch. */
  lemma {:induction false} TaskStep(max: nat, s: State, l: Label, t: State, i: nat)
    requires Step(max, s, l, t) && i < |t.tasks| && !t.tasks[i].Spawning?
    ensures if l == Spawn(i) then t.tasks[i].disableCache == s.loaderDisabled
            else
              var j := Back(s, l, i);
              j < |s.tasks| && !s.tasks[j].Spawning? && s.tasks[j].disableCache == t.tasks[i].disableCache
  {
  }

  // ----- Where cached values come from -----

  /** The last pair for the key has this value. */
  predicate LastPair(pairs: seq<(Key, Value)>, k: Key, v: Value) {
    exists i :: 0 <= i < |pairs| && pairs[i] == (k, v) && forall j | i < j < |pairs| :: pairs[j].0 != k
  }

  lemma {:induction false} FedPairs(pairs: seq<(Key, Value)>, k: Key)
    ensures k in FromPairs(pairs) ==> LastPair(pairs, k, FromPairs(pairs)[k])
    ensures forall v | LastPair(pairs, k, v) :: k in FromPairs(pairs) && FromPairs(pairs)[k] == v
  {
    if pairs != [] {
      var last := |pairs| - 1;
      var rest := pairs[..last];
      FedPairs(rest, k);
      if pairs[last].0 == k {
        assert LastPair(pairs, k, pairs[last].1);
      } else {
        if k in FromPairs(rest) {
          var v := FromPairs(rest)[k];
          var i :| 0 <= i < |rest| && rest[i] == (k, v) && forall j | i < j < |rest| :: rest[j].0 != k;
          assert pairs[i] == (k, v) && forall j | i < j < |pairs| :: pairs[j].0 != k;
        }
        forall v | LastPair(pairs, k, v)
          ensures LastPair(rest, k, v)
        {
          var i :| 0 <= i < |pairs| && pairs[i] == (k, v) && forall j | i < j < |pairs| :: pairs[j].0 != k;
          assert rest[i] == (k, v) && forall j | i < j < |rest| :: rest[j].0 != k;
        }
      }
    }
  }

  /** Step `m` stores a value: it was fed, or loaded by a task that was spawned while caching was on and returned
      while the cache of the key type was on. */
  ghost predicate Stores(states: seq<State>, labels: seq<Label>, m: nat, k: Key, v: Value)
    requires |states| == |labels| + 1
  {
    && m < |labels| && !Spoiled(labels, m)
    && match labels[m]
       case Feed(values) => LastPair(values, k, v)
       case Return(i, Ok(values)) =>
         && k in values && values[k] == v && !OwnOff(labels, m)
         && exists p: nat :: SpawnedIn(states, labels, m, i, p) && !AllOff(labels, p)
       case _ => false
  }

  ghost predicate Overwrites(states: seq<State>, labels: seq<Label>, m: nat, k: Key)
    requires |states| == |labels| + 1
  {
    m < |labels| && (labels[m].Clear? || exists v :: Stores(states, labels, m, k, v))
  }

  /** The last step before `n` that stored or cleared the key stored this value. */
  ghost predicate LastStored(states: seq<State>, labels: seq<Label>, n: nat, k: Key, v: Value)
    requires |states| == |labels| + 1
  {
    exists m: nat :: m < n && Stores(states, labels, m, k, v)
                     && forall j: nat | m < j < n :: !Overwrites(states, labels, j, k)
  }

  lemma {:induction false} SpawnedOnce(states: seq<State>, labels: seq<Label>, n: nat, i: nat, p: nat, q: nat)
    requires n < |states| == |labels| + 1
    requires SpawnedIn(states, labels, n, i, p) && SpawnedIn(states, labels, n, i, q)
    ensures p == q
    decreases n
  {
    if labels[n - 1] != Spawn(i) {
      SpawnedOnce(states, labels, n - 1, Back(states[n - 1], labels[n - 1], i), p, q);
    }
  }

  /** What a step writes to the cache before the storage forgets anything. */
  ghost function Written(s: State, l: Label): map<Key, Value> {
    match l
    case Feed(values) => if s.poisoned then map[] else FromPairs(values)
    case Return(i, Ok(values)) =>
      if i < |s.tasks| && s.tasks[i].Loading? && !s.shared.disableCache && !s.tasks[i].disableCache then values
      else map[]
    case _ => map[]
  }

  lemma {:induction false} WrittenIsStored(
    max: nat, states: seq<State>, labels: seq<Label>, n: nat, k: Key, v: Value)
    requires Run(max, states, labels) && n < |labels|
    ensures var w := Written(states[n], labels[n]);
            k in w && w[k] == v <==> Stores(states, labels, n, k, v)
  {
    var s, l := states[n], labels[n];
    assert Step(max, s, l, states[n + 1]);
    FirstCallDecides(max, states, labels, n);
    OwnSwitchIsLastCall(max, states, labels, n);
    match l
    case Feed(values) => FedPairs(values, k);
    case Return(i, result) =>
      var p := SwitchIsCaptured(max, states, labels, n, i);
      forall q: nat | SpawnedIn(states, labels, n, i, q)
        ensures q == p
      {
        SpawnedOnce(states, labels, n, i, p, q);
      }
    case _ =>
  }

  /** A step leaves the cache as it was, apart from what it writes, clears and forgets. */
  lemma {:induction false} CacheStep(max: nat, s: State, l: Label, t: State)
    requires Step(max, s, l, t)
    ensures Forgets(s.shared.cache + Written(s, l), t.shared.cache)
    ensures l.Clear? && !s.poisoned ==> t.shared.cache == map[]
  {
    assert s.shared.cache + map[] == s.shared.cache;
  }

  lemma {:induction false} OverwrittenExactly(max: nat, states: seq<State>, labels: seq<Label>, n: nat, k: Key)
    requires Run(max, states, labels) && n < |labels|
    ensures Overwrites(states, labels, n, k) <==> labels[n].Clear? || k in Written(states[n], labels[n])
  {
    var w := Written(states[n], labels[n]);
    if k in w {
      WrittenIsStored(max, states, labels, n, k, w[k]);
    }
    forall v | Stores(states, labels, n, k, v)
      ensures k in w
    {
      WrittenIsStored(max, states, labels, n, k, v);
    }
  }

  /** One more step that does not touch the key leaves its last store alone. */
  lemma LastStoredStep(states: seq<State>, labels: seq<Label>, n: nat, k: Key, v: Value)
    requires n < |labels| && |states| == |labels| + 1
    ensures !Overwrites(states, labels, n, k) ==>
              (LastStored(states, labels, n + 1, k, v) <==> LastStored(states, labels, n, k, v))
    ensures Stores(states, labels, n, k, v) ==> LastStored(states, labels, n + 1, k, v)
    ensures Overwrites(states, labels, n, k) && LastStored(states, labels, n + 1, k, v) ==>
              Stores(states, labels, n, k, v)
  {
    if LastStored(states, labels, n, k, v) && !Overwrites(states, labels, n, k) {
      var m: nat :| m < n && Stores(states, labels, m, k, v)
                    && forall j: nat | m < j < n :: !Overwrites(states, labels, j, k);
      assert forall j: nat | m < j < n + 1 :: !Overwrites(states, labels, j, k);
    }
    if LastStored(states, labels, n + 1, k, v) {
      var m: nat :| m < n + 1 && Stores(states, labels, m, k, v)
                    && forall j: nat | m < j < n + 1 :: !Overwrites(states, labels, j, k);
      assert m < n ==> !Overwrites(states, labels, n, k);
      assert m == n ==> Overwrites(states, labels, n, k);
    }
  }

  /** Every cached value is the last one stored for its key: nothing stale, nothing cleared, and nothing from a
      load that was started with caching off. */
  lemma {:induction false} CachedIsLastStored(max: nat, states: seq<State>, labels: seq<Label>, n: nat, k: Key)
    requires Run(max, states, labels) && n < |states| && k in states[n].shared.cache
    ensures LastStored(states, labels, n, k, states[n].shared.cache[k])
  {
    var s, l, t := states[n - 1], labels[n - 1], states[n];
    assert Step(max, s, l, t);
    CacheStep(max, s, l, t);
    FirstCallDecides(max, states, labels, n - 1);
    OverwrittenExactly(max, states, labels, n - 1, k);
    LastStoredStep(states, labels, n - 1, k, t.shared.cache[k]);
    if k in Written(s, l) {
      WrittenIsStored(max, states, labels, n - 1, k, t.shared.cache[k]);
    } else {
      CachedIsLastStored(max, states, labels, n - 1, k);
    }
  }

  /** The storage forgets nothing, as a plain hash map. */
  ghost predicate Retains(states: seq<State>, labels: seq<Label>)
    requires |states| == |labels| + 1
  {
    forall i | 0 <= i < |labels| && !labels[i].Clear? ::
      states[i + 1].shared.cache == states[i].shared.cache + Written(states[i], labels[i])
  }

  /** A storage that forgets nothing holds exactly what was stored last. */
  lemma {:induction false} RetainedExactly(
    max: nat, states: seq<State>, labels: seq<Label>, n: nat, k: Key, v: Value)
    requires Run(max, states, labels) && Retains(states, labels) && n < |states|
    ensures k in states[n].shared.cache && states[n].shared.cache[k] == v <==> LastStored(states, labels, n, k, v)
  {
    if n > 0 {
      var s, l, t := states[n - 1], labels[n - 1], states[n];
      RetainedExactly(max, states, labels, n - 1, k, v);
      assert Step(max, s, l, t);
      CacheStep(max, s, l, t);
      FirstCallDecides(max, states, labels, n - 1);
      OverwrittenExactly(max, states, labels, n - 1, k);
      WrittenIsStored(max, states, labels, n - 1, k, v);
      LastStoredStep(states, labels, n - 1, k, v);
    }
  }
}
