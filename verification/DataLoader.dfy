/**
 Batch loading with a cache: the mutex-protected record shared by all callers of one key
 type, and the critical sections of the data loader as methods on it.

 Every method is one critical section, so it is one atomic step of the protocol in module
 DataLoaderProtocol.  Its postcondition ties the new record to a function of the old one.
 */
module DataLoader {

  type Key(==, !new)
  type Value(==, !new)
  type Error(==, !new)

  /** What a caller of `load_many` receives. */
  datatype Answer = Ok(values: map<Key, Value>) | Err(error: Error)

  /** A queued call: the keys it still needs, and the sender that carries its cached values.
      The one-shot channel is named by the number of the call. */
  datatype Request = Request(id: nat, keys: set<Key>, cached: map<Key, Value>)

  /** What `take` hands to a load. */
  datatype Batch = Batch(keys: set<Key>, senders: seq<Request>)

  datatype Action = ImmediateLoad(batch: Batch) | StartFetch | Delay

  /** How the critical section of `load_many` ends: answered on the spot, or queued. */
  datatype Outcome = Hit(values: map<Key, Value>) | Queued(action: Action)

  /** The contents of the shared record. */
  datatype View = View(keys: set<Key>, pending: seq<Request>, cache: map<Key, Value>, disableCache: bool)

  /** A cache storage may forget entries but never invents or changes one. */
  ghost predicate Forgets(before: map<Key, Value>, after: map<Key, Value>) {
    after.Keys <= before.Keys && forall k | k in after :: after[k] == before[k]
  }

  function CachedPart(cache: map<Key, Value>, input: seq<Key>): map<Key, Value> {
    map k | k in input && k in cache :: cache[k]
  }

  function MissingPart(cache: map<Key, Value>, input: seq<Key>): set<Key> {
    set k | k in input && k !in cache
  }

  /** The reply to one sender once its batch is loaded. */
  function Reply(r: Request, values: map<Key, Value>): map<Key, Value> {
    r.cached + (map k | k in r.keys && k in values :: values[k])
  }

  /** The replies to all senders of a batch, in order. */
  function Replies(senders: seq<Request>, result: Answer): seq<(nat, Answer)> {
    if senders == [] then []
    else
      [(senders[0].id, if result.Ok? then Ok(Reply(senders[0], result.values)) else result)]
      + Replies(senders[1..], result)
  }

  lemma {:induction false} RepliesSnoc(senders: seq<Request>, r: Request, result: Answer)
    ensures Replies(senders + [r], result) ==
            Replies(senders, result) + [(r.id, if result.Ok? then Ok(Reply(r, result.values)) else result)]
  {
    if senders == [] {
      assert [r][1..] == [];
    } else {
      assert (senders + [r])[1..] == senders[1..] + [r];
      RepliesSnoc(senders[1..], r, result);
    }
  }

  /** The pairs of a feed as a map, later pairs replacing earlier ones. */
  function FromPairs(pairs: seq<(Key, Value)>): map<Key, Value> {
    if pairs == [] then map[]
    else FromPairs(pairs[..|pairs| - 1])[pairs[|pairs| - 1].0 := pairs[|pairs| - 1].1]
  }

  /** The critical section of `load_many` on values: cached keys are answered from the cache,
      the others are queued, and a full batch is taken at once. */
  function LoadSection(v: View, id: nat, input: seq<Key>, loaderDisabled: bool, maxBatchSize: nat): (View, Outcome) {
    var off := v.disableCache || loaderDisabled;
    var cached := if off then map[] else CachedPart(v.cache, input);
    var missing := if off then set k | k in input else MissingPart(v.cache, input);
    if missing == {} then
      (v, Hit(cached))
    else
      var queue := v.(keys := v.keys + missing, pending := v.pending + [Request(id, missing, cached)]);
      if |queue.keys| >= maxBatchSize then
        (queue.(keys := {}, pending := []), Queued(ImmediateLoad(Batch(queue.keys, queue.pending))))
      else
        (queue, Queued(if queue.keys != {} && |v.keys| == 0 then StartFetch else Delay))
  }

  class Requests {
    var keys: set<Key>
    var pending: seq<Request>
    var cache: map<Key, Value>
    var disableCache: bool

    function Contents(): View
      reads this
    {
      View(keys, pending, cache, disableCache)
    }

    constructor ()
      ensures Contents() == View({}, [], map[], false)
    {
      keys, pending, cache, disableCache := {}, [], map[], false;
    }

    /** Moves the queue out, leaving it empty. */
    method Take() returns (batch: Batch)
      modifies this
      ensures batch == Batch(old(keys), old(pending))
      ensures Contents() == old(Contents()).(keys := {}, pending := [])
    {
      batch := Batch(keys, pending);
      keys, pending := {}, [];
    }

    /** A storage insert: the entry is added and any entries may be forgotten. */
    method Insert(key: Key, value: Value)
      modifies this`cache
      ensures Forgets(old(cache)[key := value], cache)
    {
      var forgotten: set<Key> :| forgotten <= cache.Keys + {key};
      cache := cache[key := value] - forgotten;
    }

    method LoadMany(id: nat, input: seq<Key>, loaderDisabled: bool, maxBatchSize: nat) returns (outcome: Outcome)
      modifies this
      ensures (Contents(), outcome) == LoadSection(old(Contents()), id, input, loaderDisabled, maxBatchSize)
    {
      var prevCount := |keys|;
      var keysSet: set<Key> := {};
      var useCacheValues: map<Key, Value> := map[];
      if disableCache || loaderDisabled {
        keysSet := set k | k in input;
      } else {
        for i := 0 to |input|
          invariant useCacheValues == CachedPart(cache, input[..i])
          invariant keysSet == MissingPart(cache, input[..i])
        {
          assert input[..i + 1] == input[..i] + [input[i]];
          if input[i] in cache {
            useCacheValues := useCacheValues[input[i] := cache[input[i]]];
          } else {
            keysSet := keysSet + {input[i]};
          }
        }
        assert input[..|input|] == input;
      }
      if useCacheValues != map[] && keysSet == {} {
        return Hit(useCacheValues);
      } else if useCacheValues == map[] && keysSet == {} {
        return Hit(map[]);
      }
      keys := keys + keysSet;
      pending := pending + [Request(id, keysSet, useCacheValues)];
      if |keys| >= maxBatchSize {
        var batch := Take();
        outcome := Queued(ImmediateLoad(batch));
      } else {
        outcome := Queued(if keys != {} && prevCount == 0 then StartFetch else Delay);
      }
    }

    /** Puts every loaded value into the cache. */
    method Store(values: map<Key, Value>)
      modifies this`cache
      ensures Forgets(old(cache) + values, cache)
    {
      var todo := values.Keys;
      while todo != {}
        invariant todo <= values.Keys
        invariant forall k | k in cache :: k in old(cache) || k in values.Keys - todo
        invariant forall k | k in cache :: cache[k] == if k in values.Keys - todo then values[k] else old(cache)[k]
      {
        var k :| k in todo;
        todo := todo - {k};
        Insert(k, values[k]);
      }
    }

    static method BuildReply(sender: Request, values: map<Key, Value>) returns (res: map<Key, Value>)
      ensures res == Reply(sender, values)
    {
      res := sender.cached;
      var todo := sender.keys;
      while todo != {}
        invariant todo <= sender.keys
        invariant res == sender.cached + (map k | k in sender.keys - todo && k in values :: values[k])
      {
        var k :| k in todo;
        todo := todo - {k};
        if k in values {
          res := res[k := values[k]];
        }
      }
      assert sender.keys - todo == sender.keys;
    }

    /** The end of `do_load`: the loaded values go to the cache unless caching is off, and every
        sender of the batch gets its reply. */
    method Finish(result: Answer, taskDisabled: bool, senders: seq<Request>) returns (replies: seq<(nat, Answer)>)
      modifies this`cache
      ensures replies == Replies(senders, result)
      ensures if result.Ok? && !disableCache && !taskDisabled
              then Forgets(old(cache) + result.values, cache) else cache == old(cache)
    {
      replies := [];
      if result.Ok? && !(disableCache || taskDisabled) {
        Store(result.values);
      }
      ghost var stored := cache;
      for i := 0 to |senders|
        invariant cache == stored
        invariant replies == Replies(senders[..i], result)
      {
        if result.Ok? {
          var res := BuildReply(senders[i], result.values);
          replies := replies + [(senders[i].id, Ok(res))];
        } else {
          replies := replies + [(senders[i].id, result)];
        }
        assert senders[..i + 1] == senders[..i] + [senders[i]];
        RepliesSnoc(senders[..i], senders[i], result);
      }
      assert senders[..|senders|] == senders;
    }

    method FeedMany(values: seq<(Key, Value)>)
      modifies this`cache
      ensures Forgets(old(cache) + FromPairs(values), cache)
    {
      for i := 0 to |values|
        invariant Forgets(old(cache) + FromPairs(values[..i]), cache)
      {
        assert values[..i + 1][..i] == values[..i];
        Insert(values[i].0, values[i].1);
      }
      assert values[..|values|] == values;
    }

    method Clear()
      modifies this`cache
      ensures cache == map[]
    {
      cache := map[];
    }
  }

  /** Switches the cache of a record; if there is none, the lookup under the lock panics. */
  method EnableCache(requests: Requests?, enable: bool) returns (ok: bool)
    modifies requests
    ensures ok <==> requests != null
    ensures ok ==> requests.Contents() == old(requests.Contents()).(disableCache := !enable)
  {
    ok := requests != null;
    if ok {
      requests.disableCache := !enable;
    }
  }
}
