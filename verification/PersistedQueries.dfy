/**
 Persisted queries.  A client may send the hash of a query instead of its text; texts are kept
 in a cache that may forget entries and may fail.  The same cache also holds trusted documents.
 */
module PersistedQueries {
  import opened Common

  newtype byte = x: int | 0 <= x < 256

  // ----- Hexadecimal ids -----

  /** A lower-case hexadecimal digit. */
  function Digit(n: nat): char
    requires n < 16
  {
    (if n < 10 then '0' as int + n else 'a' as int + n - 10) as char
  }

  function Pair(b: byte): string {
    [Digit(b as int / 16), Digit(b as int % 16)]
  }

  /** Two lower-case digits for every byte, among the first `n`. */
  function Hex(bytes: seq<byte>, n: nat): string
    requires n <= |bytes|
  {
    if n == 0 then "" else Hex(bytes, n - 1) + Pair(bytes[n - 1])
  }

  method HexId(bytes: seq<byte>) returns (id: string)
    ensures id == Hex(bytes, |bytes|) && |id| == 2 * |bytes|
  {
    id := "";
    for i := 0 to |bytes|
      invariant id == Hex(bytes, i) && |id| == 2 * i
    {
      var b := bytes[i] as int;
      id := id + [Digit(b / 16), Digit(b % 16)];
    }
  }

  lemma DigitsDiffer(m: nat, n: nat)
    requires m < 16 && n < 16 && Digit(m) == Digit(n)
    ensures m == n
  {
  }

  lemma PairIsInjective(a: byte, b: byte)
    requires Pair(a) == Pair(b)
    ensures a == b
  {
    assert Pair(a)[0] == Pair(b)[0] && Pair(a)[1] == Pair(b)[1];
    DigitsDiffer(a as int / 16, b as int / 16);
    DigitsDiffer(a as int % 16, b as int % 16);
  }

  lemma SameEnd(a: string, p: string, b: string, q: string)
    requires |p| == |q| && a + p == b + q
    ensures a == b && p == q
  {
    assert |a| == |b|;
    assert a == (a + p)[..|a|] && b == (b + q)[..|b|];
    assert p == (a + p)[|a|..] && q == (b + q)[|b|..];
  }

  lemma HexSnoc(front: seq<byte>, last: byte)
    ensures Hex(front + [last], |front| + 1) == Hex(front, |front|) + Pair(last)
  {
    HexPrefix(front, front + [last], |front|);
  }

  /** Different hashes have different ids. */
  lemma {:induction false} HexIsInjective(a: seq<byte>, b: seq<byte>)
    requires Hex(a, |a|) == Hex(b, |b|)
    ensures a == b
    decreases |a|
  {
    HexLength(a, |a|);
    HexLength(b, |b|);
    if a != [] {
      var front, last, other, end := a[..|a| - 1], a[|a| - 1], b[..|b| - 1], b[|b| - 1];
      assert a == front + [last] && b == other + [end];
      HexSnoc(front, last);
      HexSnoc(other, end);
      SameEnd(Hex(front, |front|), Pair(last), Hex(other, |other|), Pair(end));
      PairIsInjective(last, end);
      HexIsInjective(front, other);
    }
  }

  lemma {:induction false} HexLength(bytes: seq<byte>, n: nat)
    requires n <= |bytes|
    ensures |Hex(bytes, n)| == 2 * n
  {
    if n > 0 {
      HexLength(bytes, n - 1);
    }
  }

  lemma {:induction false} HexPrefix(a: seq<byte>, b: seq<byte>, n: nat)
    requires n <= |a| && a <= b
    ensures Hex(a, n) == Hex(b, n)
  {
    if n > 0 {
      HexPrefix(a, b, n - 1);
    }
  }

  /** Byte `k` is written as its two lower-case digits at positions `2k` and `2k + 1`. */
  lemma {:induction false} HexDigits(bytes: seq<byte>, k: nat, n: nat)
    requires k < n <= |bytes|
    ensures |Hex(bytes, n)| == 2 * n
    ensures Hex(bytes, n)[2 * k] == "0123456789abcdef"[bytes[k] as int / 16]
    ensures Hex(bytes, n)[2 * k + 1] == "0123456789abcdef"[bytes[k] as int % 16]
  {
    HexLength(bytes, n);
    HexLength(bytes, n - 1);
    if k < n - 1 {
      HexDigits(bytes, k, n - 1);
    } else {
      DigitWritten(bytes[k] as int / 16);
      DigitWritten(bytes[k] as int % 16);
    }
  }

  lemma DigitWritten(n: nat)
    requires n < 16
    ensures Digit(n) == "0123456789abcdef"[n]
  {
  }

  // ----- Cache keys -----

  function BuildKey(subdomain: string, id: string): string {
    "https://" + subdomain + "/" + id
  }

  const APQ := "apq/sha256_"
  const TRUSTED := "trusted_documents/"

  function ApqKey(subdomain: string, hash: seq<byte>): string {
    BuildKey(subdomain, APQ + Hex(hash, |hash|))
  }

  function TrustedKey(subdomain: string, clientName: string, documentId: string): string {
    BuildKey(subdomain, TRUSTED + clientName + "/" + documentId)
  }

  lemma KeyIsWritten(subdomain: string, kind: string, rest: string)
    ensures BuildKey(subdomain, kind + rest) == "https://" + subdomain + ("/" + kind) + rest
  {
    var prefix := "https://" + subdomain;
    ConcatAssoc(prefix + "/", kind, rest);
    ConcatAssoc(prefix, "/", kind);
  }

  /** The key of a persisted query, as it is written. */
  lemma ApqKeyIsWritten(subdomain: string, hash: seq<byte>)
    ensures ApqKey(subdomain, hash) == "https://" + subdomain + "/apq/sha256_" + Hex(hash, |hash|)
  {
    hide Hex;
    KeyIsWritten(subdomain, APQ, Hex(hash, |hash|));
    assert "/" + APQ == "/apq/sha256_";
  }

  /** The key of a trusted document. */
  lemma TrustedKeyIsWritten(subdomain: string, clientName: string, documentId: string)
    ensures TrustedKey(subdomain, clientName, documentId) ==
            "https://" + subdomain + "/trusted_documents/" + (clientName + "/" + documentId)
  {
    ConcatAssoc(TRUSTED, clientName, "/");
    ConcatAssoc(TRUSTED, clientName + "/", documentId);
    KeyIsWritten(subdomain, TRUSTED, clientName + "/" + documentId);
    assert "/" + TRUSTED == "/trusted_documents/";
  }

  lemma SamePrefix(prefix: string, a: string, b: string)
    requires prefix + a == prefix + b
    ensures a == b
  {
    assert a == (prefix + a)[|prefix|..] && b == (prefix + b)[|prefix|..];
  }

  lemma KeysDiffer(subdomain: string, a: seq<byte>, b: seq<byte>)
    requires ApqKey(subdomain, a) == ApqKey(subdomain, b)
    ensures a == b
  {
    var prefix := "https://" + subdomain + "/";
    SamePrefix(prefix, APQ + Hex(a, |a|), APQ + Hex(b, |b|));
    SamePrefix(APQ, Hex(a, |a|), Hex(b, |b|));
    HexIsInjective(a, b);
  }

  /** Trusted documents never share a key with persisted queries. */
  lemma KindsDiffer(subdomain: string, hash: seq<byte>, clientName: string, documentId: string)
    ensures ApqKey(subdomain, hash) != TrustedKey(subdomain, clientName, documentId)
  {
    var prefix := "https://" + subdomain + "/";
    var a, t := APQ + Hex(hash, |hash|), TRUSTED + clientName + "/" + documentId;
    assert a[0] == 'a' && t[0] == 't';
    if prefix + a == prefix + t {
      SamePrefix(prefix, a, t);
    }
  }

  // ----- Requests -----

  datatype Extension = Extension(version: nat, hash: seq<byte>)

  datatype Request = Request(query: string, extension: Option<Extension>, documentId: Option<string>,
                             clientName: Option<string>)

  datatype Error =
    | NotFound
    | UnsupportedVersion
    | InternalServerError
    | BadRequest
    | MissingClientName
    | BadSha256
    | UnknownDocumentId(documentId: string)

  datatype Answer = Served(query: string) | Failed(error: Error)

  datatype Entry = PersistedQuery(query: string) | TrustedDocument(text: string)

  datatype Fetched = RetrievalError | DocumentNotFound | Document(text: string)

  /** What the surroundings do during one request: whether the cache can be read and written, what
      the document store answers, and whether the request carries the bypass header. */
  datatype Surroundings = Surroundings(readable: bool, writable: bool, fetched: Fetched, bypass: bool)

  datatype Config = Config(subdomain: string, trustedDocuments: bool, sha256: string -> seq<byte>)

  /** The answer to a request and the cache after it. */
  datatype Outcome = Outcome(answer: Answer, cache: map<string, Entry>)

  // ----- Handling -----

  function HandleApqSpec(
    c: Config, cache: map<string, Entry>, query: string, ext: Extension, s: Surroundings): Outcome
  {
    var key := ApqKey(c.subdomain, ext.hash);
    if ext.version != 1 then Outcome(Failed(UnsupportedVersion), cache)
    else if query != "" then
      if c.sha256(query) != ext.hash then Outcome(Failed(BadSha256), cache)
      else if !s.writable then Outcome(Failed(InternalServerError), cache)
      else Outcome(Served(query), cache[key := PersistedQuery(query)])
    else if !s.readable then Outcome(Failed(InternalServerError), cache)
    else if key in cache && cache[key].PersistedQuery? then Outcome(Served(cache[key].query), cache)
    else Outcome(Failed(NotFound), cache)
  }

  function HandleTrustedSpec(
    c: Config, cache: map<string, Entry>, clientName: Option<string>, documentId: string, s: Surroundings): Outcome
  {
    if clientName.None? then Outcome(Failed(MissingClientName), cache)
    else
      var key := TrustedKey(c.subdomain, clientName.value, documentId);
      if s.readable && key in cache && cache[key].TrustedDocument? then Outcome(Served(cache[key].text), cache)
      else match s.fetched
        case RetrievalError => Outcome(Failed(InternalServerError), cache)
        case DocumentNotFound => Outcome(Failed(UnknownDocumentId(documentId)), cache)
        case Document(text) =>
          if s.writable then Outcome(Served(text), cache[key := TrustedDocument(text)])
          else Outcome(Failed(InternalServerError), cache)
  }

  function HandleSpec(c: Config, cache: map<string, Entry>, r: Request, s: Surroundings): Outcome {
    if c.trustedDocuments then
      if r.extension.Some? then
        HandleTrustedSpec(c, cache, r.clientName, Hex(r.extension.value.hash, |r.extension.value.hash|), s)
      else if r.documentId.Some? then HandleTrustedSpec(c, cache, r.clientName, r.documentId.value, s)
      else Outcome(if s.bypass then Served(r.query) else Failed(BadRequest), cache)
    else if r.extension.Some? then HandleApqSpec(c, cache, r.query, r.extension.value, s)
    else Outcome(Served(r.query), cache)
  }

  /** When each answer to a persisted query is given; the cache changes only when a text is served that was sent. */
  lemma ApqAnswers(c: Config, cache: map<string, Entry>, query: string, ext: Extension, s: Surroundings)
    ensures var o, key := HandleApqSpec(c, cache, query, ext, s), ApqKey(c.subdomain, ext.hash);
            var sent, matches := query != "", c.sha256(query) == ext.hash;
            && (o.answer == Failed(UnsupportedVersion) <==> ext.version != 1)
            && (o.answer == Failed(BadSha256) <==> ext.version == 1 && sent && !matches)
            && (o.answer == Failed(InternalServerError) <==>
                ext.version == 1 && if sent then matches && !s.writable else !s.readable)
            && (o.answer == Failed(NotFound) <==>
                ext.version == 1 && !sent && s.readable && !(key in cache && cache[key].PersistedQuery?))
            && (forall q :: o.answer == Served(q) <==>
                  && ext.version == 1
                  && if sent then q == query && matches && s.writable
                     else s.readable && key in cache && cache[key] == PersistedQuery(q))
            && o.cache == if sent && o.answer.Served? then cache[key := PersistedQuery(query)] else cache
  {
  }

  /** When each answer to a trusted document is given; the cache changes only when a fetched text is served. */
  lemma TrustedAnswers(
    c: Config, cache: map<string, Entry>, clientName: Option<string>, documentId: string, s: Surroundings)
    ensures var o := HandleTrustedSpec(c, cache, clientName, documentId, s);
            && (o.answer == Failed(MissingClientName) <==> clientName.None?)
            && (clientName.Some? ==>
                  var key := TrustedKey(c.subdomain, clientName.value, documentId);
                  var kept := s.readable && key in cache && cache[key].TrustedDocument?;
                  && (o.answer == Failed(UnknownDocumentId(documentId)) <==> !kept && s.fetched.DocumentNotFound?)
                  && (o.answer == Failed(InternalServerError) <==>
                      !kept && (s.fetched.RetrievalError? || (s.fetched.Document? && !s.writable)))
                  && (forall text :: o.answer == Served(text) <==>
                        if kept then cache[key] == TrustedDocument(text) else s.fetched == Document(text) && s.writable)
                  && o.cache == if !kept && o.answer.Served? then cache[key := TrustedDocument(s.fetched.text)] else cache)
            && (clientName.None? ==> o.cache == cache)
  {
  }

  predicate SoundAt(c: Config, cache: map<string, Entry>, hash: seq<byte>) {
    var key := ApqKey(c.subdomain, hash);
    key in cache ==> cache[key].PersistedQuery? && c.sha256(cache[key].query) == hash
  }

  /** Whatever is kept under a hash has that hash. */
  ghost predicate Sound(c: Config, cache: map<string, Entry>) {
    forall hash :: SoundAt(c, cache, hash)
  }

  lemma ApqKeepsSound(c: Config, cache: map<string, Entry>, query: string, ext: Extension, s: Surroundings)
    requires Sound(c, cache)
    ensures Sound(c, HandleApqSpec(c, cache, query, ext, s).cache)
    ensures var answer := HandleApqSpec(c, cache, query, ext, s).answer; answer.Served? ==>
            c.sha256(answer.query) == ext.hash
  {
    assert SoundAt(c, cache, ext.hash);
    forall hash
      ensures SoundAt(c, HandleApqSpec(c, cache, query, ext, s).cache, hash)
    {
      assert SoundAt(c, cache, hash);
      if ApqKey(c.subdomain, hash) == ApqKey(c.subdomain, ext.hash) {
        KeysDiffer(c.subdomain, hash, ext.hash);
      }
    }
  }

  lemma TrustedKeepsSound(
    c: Config, cache: map<string, Entry>, clientName: Option<string>, documentId: string, s: Surroundings)
    requires Sound(c, cache)
    ensures Sound(c, HandleTrustedSpec(c, cache, clientName, documentId, s).cache)
  {
    forall hash
      ensures SoundAt(c, HandleTrustedSpec(c, cache, clientName, documentId, s).cache, hash)
    {
      assert SoundAt(c, cache, hash);
      if clientName.Some? {
        KindsDiffer(c.subdomain, hash, clientName.value, documentId);
      }
    }
  }

  class Gateway {
    const config: Config
    var cache: map<string, Entry>

    constructor (config: Config)
      ensures this.config == config && cache == map[]
    {
      this.config, cache := config, map[];
    }

    /** Persisted queries: a text is checked against its hash and kept; a hash alone is looked up. */
    method HandleApq(query: string, ext: Extension, s: Surroundings) returns (answer: Answer)
      modifies this`cache
      ensures Outcome(answer, cache) == HandleApqSpec(config, old(cache), query, ext, s)
      ensures Sound(config, old(cache)) ==> Sound(config, cache) && (answer.Served? ==>
              config.sha256(answer.query) == ext.hash)
    {
      if Sound(config, cache) {
        ApqKeepsSound(config, cache, query, ext, s);
      }
      if ext.version != 1 {
        return Failed(UnsupportedVersion);
      }
      var id := HexId(ext.hash);
      var key := BuildKey(config.subdomain, APQ + id);
      if query != "" {
        var digest := config.sha256(query);
        if digest != ext.hash {
          return Failed(BadSha256);
        }
        if !s.writable {
          return Failed(InternalServerError);
        }
        cache := cache[key := PersistedQuery(query)];
        return Served(query);
      }
      if !s.readable {
        return Failed(InternalServerError);
      }
      if key in cache && cache[key].PersistedQuery? {
        return Served(cache[key].query);
      }
      return Failed(NotFound);
    }

    method HandleTrusted(clientName: Option<string>, documentId: string, s: Surroundings) returns (answer: Answer)
      modifies this`cache
      ensures Outcome(answer, cache) == HandleTrustedSpec(config, old(cache), clientName, documentId, s)
      ensures Sound(config, old(cache)) ==> Sound(config, cache)
    {
      if Sound(config, cache) {
        TrustedKeepsSound(config, cache, clientName, documentId, s);
      }
      if clientName.None? {
        return Failed(MissingClientName);
      }
      var key := BuildKey(config.subdomain, TRUSTED + clientName.value + "/" + documentId);
      if s.readable && key in cache && cache[key].TrustedDocument? {
        return Served(cache[key].text);
      }
      match s.fetched
      case RetrievalError => return Failed(InternalServerError);
      case DocumentNotFound => return Failed(UnknownDocumentId(documentId));
      case Document(text) =>
        if !s.writable {
          return Failed(InternalServerError);
        }
        cache := cache[key := TrustedDocument(text)];
        return Served(text);
    }

    method HandlePersistedQuery(r: Request, s: Surroundings) returns (answer: Answer)
      modifies this`cache
      ensures Outcome(answer, cache) == HandleSpec(config, old(cache), r, s)
      ensures Sound(config, old(cache)) ==> Sound(config, cache)
      ensures Sound(config, old(cache)) && !config.trustedDocuments && r.extension.Some? && answer.Served? ==>
                config.sha256(answer.query) == r.extension.value.hash
    {
      match (config.trustedDocuments, r.extension, r.documentId) {
        case (true, None, None) => return if s.bypass then Served(r.query) else Failed(BadRequest);
        case (true, Some(ext), _) =>
          var id := HexId(ext.hash);
          answer := HandleTrusted(r.clientName, id, s);
        case (true, None, Some(documentId)) => answer := HandleTrusted(r.clientName, documentId, s);
        case (false, None, _) => return Served(r.query);
        case (false, Some(ext), _) => answer := HandleApq(r.query, ext, s);
      }
    }
  }

  // ----- Runs -----

  /** Requests are handled one after the other; between them the cache may forget anything. */
  datatype Event = Handled(request: Request, surroundings: Surroundings, trusted: bool) | Forgot(keys: set<string>)

  /** Gateways that share a cache may differ in whether trusted documents are enabled. */
  function For(c: Config, e: Event): Config
    requires e.Handled?
  {
    c.(trustedDocuments := e.trusted)
  }

  function AfterEvent(c: Config, cache: map<string, Entry>, e: Event): map<string, Entry> {
    match e
    case Handled(r, s, _) => HandleSpec(For(c, e), cache, r, s).cache
    case Forgot(keys) => cache - keys
  }

  /** The cache after the first `n` events. */
  function CacheAfter(c: Config, events: seq<Event>, n: nat): map<string, Entry>
    requires n <= |events|
  {
    if n == 0 then map[] else AfterEvent(c, CacheAfter(c, events, n - 1), events[n - 1])
  }

  function AnswerAt(c: Config, events: seq<Event>, i: nat): Answer
    requires i < |events| && events[i].Handled?
  {
    HandleSpec(For(c, events[i]), CacheAfter(c, events, i), events[i].request, events[i].surroundings).answer
  }

  /** The event is a request with a hash, handled as a persisted query. */
  predicate AsksFor(e: Event, hash: seq<byte>) {
    e.Handled? && !e.trusted && e.request.extension.Some? && e.request.extension.value.hash == hash
  }

  /** The event sends a text with its hash while the cache can be written. */
  predicate Registers(c: Config, events: seq<Event>, i: nat, hash: seq<byte>, query: string) {
    && i < |events| && AsksFor(events[i], hash) && events[i].request.extension.value.version == 1
    && events[i].request.query == query && query != "" && c.sha256(query) == hash && events[i].surroundings.writable
  }

  /** Such a text is served. */
  lemma RegisteredIsServed(c: Config, events: seq<Event>, i: nat, hash: seq<byte>, query: string)
    requires Registers(c, events, i, hash, query)
    ensures AnswerAt(c, events, i) == Served(query)
  {
  }

  /** Everything kept under a hash has that hash and was registered by an earlier request. */
  ghost predicate Kept(c: Config, events: seq<Event>, n: nat, hash: seq<byte>)
    requires n <= |events|
  {
    var cache, key := CacheAfter(c, events, n), ApqKey(c.subdomain, hash);
    key in cache ==>
      && cache[key].PersistedQuery? && c.sha256(cache[key].query) == hash
      && exists i :: 0 <= i < n && Registers(c, events, i, hash, cache[key].query)
  }

  /** What one event does to the entry of a hash. */
  lemma EntryAfter(c: Config, cache: map<string, Entry>, e: Event, hash: seq<byte>)
    ensures var key, after := ApqKey(c.subdomain, hash), AfterEvent(c, cache, e);
            key in after ==>
              || (key in cache && after[key] == cache[key])
              || (Registers(c, [e], 0, hash, e.request.query) && after[key] == PersistedQuery(e.request.query))
  {
    if e.Handled? {
      var r := e.request;
      if e.trusted && r.clientName.Some? {
        if r.extension.Some? {
          KindsDiffer(c.subdomain, hash, r.clientName.value, Hex(r.extension.value.hash, |r.extension.value.hash|));
        } else if r.documentId.Some? {
          KindsDiffer(c.subdomain, hash, r.clientName.value, r.documentId.value);
        }
      } else if !e.trusted && r.extension.Some? && ApqKey(c.subdomain, r.extension.value.hash) == ApqKey(c.subdomain,
        hash) {
        KeysDiffer(c.subdomain, r.extension.value.hash, hash);
      }
    }
  }

  lemma {:induction false} KeptAlways(c: Config, events: seq<Event>, n: nat, hash: seq<byte>)
    requires n <= |events|
    ensures Kept(c, events, n, hash)
  {
    if n > 0 {
      KeptAlways(c, events, n - 1, hash);
      EntryAfter(c, CacheAfter(c, events, n - 1), events[n - 1], hash);
      var cache, before, key := CacheAfter(c, events, n), CacheAfter(c, events, n - 1), ApqKey(c.subdomain, hash);
      if key in cache {
        if key in before && cache[key] == before[key] {
          var i :| 0 <= i < n - 1 && Registers(c, events, i, hash, before[key].query);
        } else {
          assert Registers(c, [events[n - 1]], 0, hash, cache[key].query);
          assert Registers(c, events, n - 1, hash, cache[key].query);
        }
      }
    }
  }

  /** In every run, a query served for a hash has that hash, and its text was sent with the request
      itself or by an earlier request that registered it. */
  lemma ServedQueriesMatch(c: Config, events: seq<Event>, n: nat, hash: seq<byte>)
    requires n < |events| && AsksFor(events[n], hash) && AnswerAt(c, events, n).Served?
    ensures var query := AnswerAt(c, events, n).query;
            && c.sha256(query) == hash
            && exists i :: 0 <= i <= n && Registers(c, events, i, hash, query)
  {
    KeptAlways(c, events, n, hash);
    var query := AnswerAt(c, events, n).query;
    if events[n].request.query != "" {
      assert Registers(c, events, n, hash, query);
    }
  }

  /** The cache does not drop the entry of a hash between two events. */
  predicate Remembered(c: Config, events: seq<Event>, i: nat, n: nat, hash: seq<byte>) {
    forall j | i < j < n && j < |events| && events[j].Forgot? :: ApqKey(c.subdomain, hash) !in events[j].keys
  }

  lemma {:induction false} StaysKept(c: Config, events: seq<Event>, i: nat, n: nat, hash: seq<byte>, query: string)
    requires i < n <= |events| && Registers(c, events, i, hash, query) && Remembered(c, events, i, n, hash)
    ensures ApqKey(c.subdomain, hash) in CacheAfter(c, events, n)
  {
    if i < n - 1 {
      StaysKept(c, events, i, n - 1, hash, query);
    }
  }

  /** Once a query was registered, its hash alone is enough as long as the cache remembers it. */
  lemma RegisteredQueriesAreFound(c: Config, events: seq<Event>, i: nat, n: nat, hash: seq<byte>, query: string)
    requires i < n < |events| && Registers(c, events, i, hash, query) && Remembered(c, events, i, n, hash)
    requires AsksFor(events[n], hash) && events[n].request.query == "" && events[n].request.extension.value.version == 1
    requires events[n].surroundings.readable
    ensures AnswerAt(c, events, n).Served? && c.sha256(AnswerAt(c, events, n).query) == hash
  {
    StaysKept(c, events, i, n, hash, query);
    KeptAlways(c, events, n, hash);
  }

  // ----- Trusted documents in runs -----

  /** The id of the trusted document that a request asks for: the hash in hexadecimal, or else the given id. */
  function DocumentOf(r: Request): Option<string> {
    if r.extension.Some? then Some(Hex(r.extension.value.hash, |r.extension.value.hash|)) else r.documentId
  }

  /** The event asks for a trusted document, under this client and id. */
  predicate AsksForDocument(e: Event, clientName: string, documentId: string) {
    && e.Handled? && e.trusted && e.request.clientName == Some(clientName)
    && DocumentOf(e.request) == Some(documentId)
  }

  /** The store answered a request for this client and id with a text, and it was kept. */
  predicate Fetches(events: seq<Event>, i: nat, clientName: string, documentId: string, text: string) {
    && i < |events| && AsksForDocument(events[i], clientName, documentId)
    && events[i].surroundings.fetched == Document(text) && events[i].surroundings.writable
  }

  /** Two clients and ids that are written alike; a client name without a slash is told from its id. */
  predicate WrittenAlike(clientName: string, documentId: string, other: string, otherId: string) {
    clientName + "/" + documentId == other + "/" + otherId
  }

  lemma AlikeIsSame(clientName: string, documentId: string, other: string, otherId: string)
    requires WrittenAlike(clientName, documentId, other, otherId) && '/' !in clientName && '/' !in other
    ensures clientName == other && documentId == otherId
  {
    var text := clientName + "/" + documentId;
    assert text[|clientName|] == '/' && text[|other|] == '/';
    assert forall k | 0 <= k < |other| :: text[k] == other[k];
    assert clientName == text[..|clientName|] && other == text[..|other|];
    assert documentId == text[|clientName| + 1..] && otherId == text[|other| + 1..];
  }

  lemma SameDocumentKey(subdomain: string, clientName: string, documentId: string, other: string, otherId: string)
    ensures TrustedKey(subdomain, clientName, documentId) == TrustedKey(subdomain, other, otherId) <==>
            WrittenAlike(clientName, documentId, other, otherId)
  {
    var prefix := "https://" + subdomain + "/";
    var a, b := clientName + "/" + documentId, other + "/" + otherId;
    assert TRUSTED + clientName + "/" + documentId == TRUSTED + a && TRUSTED + other + "/" + otherId == TRUSTED + b;
    if prefix + (TRUSTED + a) == prefix + (TRUSTED + b) {
      SamePrefix(prefix, TRUSTED + a, TRUSTED + b);
      SamePrefix(TRUSTED, a, b);
    }
  }

  /** A kept document was fetched by an earlier request for a client and id that are written alike. */
  ghost predicate Traced(c: Config, events: seq<Event>, n: nat, clientName: string, documentId: string)
    requires n <= |events|
  {
    var cache, key := CacheAfter(c, events, n), TrustedKey(c.subdomain, clientName, documentId);
    key in cache && cache[key].TrustedDocument? ==>
      exists i, other, otherId ::
        0 <= i < n && Fetches(events, i, other, otherId, cache[key].text)
        && WrittenAlike(other, otherId, clientName, documentId)
  }

  /** What one event does to the entry of a document. */
  lemma DocumentAfter(c: Config, cache: map<string, Entry>, e: Event, clientName: string, documentId: string)
    ensures var key, after := TrustedKey(c.subdomain, clientName, documentId), AfterEvent(c, cache, e);
            key in after && after[key].TrustedDocument? ==>
              || (key in cache && after[key] == cache[key])
              || (&& e.Handled? && e.request.clientName.Some? && DocumentOf(e.request).Some?
                  && Fetches([e], 0, e.request.clientName.value, DocumentOf(e.request).value, after[key].text)
                  && WrittenAlike(e.request.clientName.value, DocumentOf(e.request).value, clientName, documentId))
  {
    if e.Handled? && e.request.clientName.Some? && DocumentOf(e.request).Some? {
      SameDocumentKey(c.subdomain, e.request.clientName.value, DocumentOf(e.request).value, clientName, documentId);
    }
  }

  lemma {:induction false} TracedAlways(c: Config, events: seq<Event>, n: nat, clientName: string, documentId: string)
    requires n <= |events|
    ensures Traced(c, events, n, clientName, documentId)
  {
    if n > 0 {
      TracedAlways(c, events, n - 1, clientName, documentId);
      var e, before, after, key := events[n - 1], CacheAfter(c, events, n - 1), CacheAfter(c, events, n),
        TrustedKey(c.subdomain, clientName, documentId);
      DocumentAfter(c, before, e, clientName, documentId);
      if key in after && after[key].TrustedDocument? {
        if key in before && after[key] == before[key] {
          var i, other, otherId :| 0 <= i < n - 1 && Fetches(events, i, other, otherId, before[key].text)
                                   && WrittenAlike(other, otherId, clientName, documentId);
        } else {
          assert Fetches(events, n - 1, e.request.clientName.value, DocumentOf(e.request).value, after[key].text);
        }
      }
    }
  }

  /** In every run, the text served for a trusted document is one that the store gave for it, now or earlier, where
      a client and id stand for all that are written alike. */
  lemma ServedDocumentsWereFetched(c: Config, events: seq<Event>, n: nat, clientName: string, documentId: string)
    requires n < |events| && AsksForDocument(events[n], clientName, documentId) && AnswerAt(c, events, n).Served?
    ensures exists i, other, otherId ::
              0 <= i <= n && Fetches(events, i, other, otherId, AnswerAt(c, events, n).query)
              && WrittenAlike(other, otherId, clientName, documentId)
  {
    TracedAlways(c, events, n, clientName, documentId);
    var text, cache, key := AnswerAt(c, events, n).query, CacheAfter(c, events, n),
      TrustedKey(c.subdomain, clientName, documentId);
    if key in cache && cache[key] == TrustedDocument(text) {
      var i, other, otherId :| 0 <= i < n && Fetches(events, i, other, otherId, text)
                               && WrittenAlike(other, otherId, clientName, documentId);
    } else {
      assert Fetches(events, n, clientName, documentId, text);
    }
  }
}
