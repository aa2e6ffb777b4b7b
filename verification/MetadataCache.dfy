/** The metadata cache in front of a client that may change; calls run one after the other. */
module MetadataCaching {
  import opened Commons

  datatype Key = Key(operation: string, language: string)

  datatype Meta = Meta(operation: string, detail: string)

  datatype Entry = Entry(meta: Meta, cachedAt: nat)

  datatype Error = NotFound(operation: string) | Unavailable

  datatype Result<T> = Ok(value: T) | Err(error: Error)

  datatype Bulk = Bulk(operations: seq<Meta>, missing: seq<string>)

  /** What the inner client would answer at one moment. */
  datatype Inner = Inner(up: bool, metadata: Key -> Option<Meta>)

  // ----- the inner client -----

  function AskOne(w: Inner, key: Key): Result<Meta> {
    if !w.up then Err(Unavailable)
    else match w.metadata(key)
      case Some(m) => Ok(m)
      case None => Err(NotFound(key.operation))
  }

  function AskAll(w: Inner, ops: seq<string>, language: string): Bulk {
    if ops == [] then Bulk([], [])
    else
      var front, op := AskAll(w, ops[..|ops| - 1], language), ops[|ops| - 1];
      match w.metadata(Key(op, language))
      case Some(m) => front.(operations := front.operations + [m])
      case None => front.(missing := front.missing + [op])
  }

  /** One answer: unavailable while the client is down, else the record, or that this very operation is unknown. */
  lemma AskOneIs(w: Inner, key: Key)
    ensures !w.up ==> AskOne(w, key) == Err(Unavailable)
    ensures w.up && w.metadata(key).Some? ==> AskOne(w, key) == Ok(w.metadata(key).value)
    ensures w.up && w.metadata(key).None? ==> AskOne(w, key) == Err(NotFound(key.operation))
  {
  }

  /** The positions of a bulk request whose answer is `m`. */
  function AnsweredBy(w: Inner, ops: seq<string>, language: string, m: Option<Meta>): set<nat> {
    set i | 0 <= i < |ops| && w.metadata(Key(ops[i], language)) == m
  }

  function UnknownAt(w: Inner, ops: seq<string>, language: string, op: string): set<nat> {
    set i | 0 <= i < |ops| && ops[i] == op && w.metadata(Key(op, language)) == None
  }

  lemma OneMoreAnswer(w: Inner, ops: seq<string>, language: string, m: Option<Meta>)
    requires ops != []
    ensures |AnsweredBy(w, ops, language, m)| == |AnsweredBy(w, ops[..|ops| - 1], language, m)|
      + if w.metadata(Key(ops[|ops| - 1], language)) == m then 1 else 0
  {
    var n := |ops| - 1;
    assert AnsweredBy(w, ops, language, m)
        == AnsweredBy(w, ops[..n], language, m) + if w.metadata(Key(ops[n], language)) == m then {n} else {};
  }

  lemma OneMoreUnknown(w: Inner, ops: seq<string>, language: string, op: string)
    requires ops != []
    ensures |UnknownAt(w, ops, language, op)| == |UnknownAt(w, ops[..|ops| - 1], language, op)|
      + if ops[|ops| - 1] == op && w.metadata(Key(op, language)) == None then 1 else 0
  {
    var n := |ops| - 1;
    assert UnknownAt(w, ops, language, op) == UnknownAt(w, ops[..n], language, op)
         + if ops[n] == op && w.metadata(Key(op, language)) == None then {n} else {};
  }

  /** A bulk answer holds each record as often as names ask for it, and each unknown name as often as it is asked. */
  lemma {:induction false} AskAllCounts(w: Inner, ops: seq<string>, language: string, m: Meta, op: string)
    ensures multiset(AskAll(w, ops, language).operations)[m] == |AnsweredBy(w, ops, language, Some(m))|
    ensures multiset(AskAll(w, ops, language).missing)[op] == |UnknownAt(w, ops, language, op)|
  {
    if ops != [] {
      hide AnsweredBy, UnknownAt;
      AskAllCounts(w, ops[..|ops| - 1], language, m, op);
      OneMoreAnswer(w, ops, language, Some(m));
      OneMoreUnknown(w, ops, language, op);
    }
  }

  /** A metadata record is also found under the name it carries. */
  ghost predicate Faithful(w: Inner) {
    forall key :: w.metadata(key).Some? ==>
      w.metadata(Key(w.metadata(key).value.operation, key.language)) == w.metadata(key)
  }

  // ----- what the cache knows, from the fetches and invalidations alone -----

  datatype Event =
    | Fetched(key: Key, meta: Meta, at: nat)
    | Invalidated

  /** The latest fetch of a key since the last invalidation. */
  function LatestFetch(log: seq<Event>, key: Key): Option<Entry> {
    if log == [] then None
    else
      match log[|log| - 1]
      case Invalidated => None
      case Fetched(k, m, at) => if k == key then Some(Entry(m, at)) else LatestFetch(log[..|log| - 1], key)
  }

  /** What a lookup serves from the cache, if anything. */
  function Served(log: seq<Event>, ttl: nat, key: Key, now: nat): Option<Meta> {
    match LatestFetch(log, key)
    case Some(e) => if ttl != 0 && Elapsed(e.cachedAt, now) <= ttl then Some(e.meta) else None
    case None => None
  }

  /** Fetch number `i` is the one a lookup of `key` must rest on. */
  ghost predicate IsLatest(log: seq<Event>, key: Key, i: nat) {
    && i < |log| && log[i].Fetched? && log[i].key == key
    && forall j :: i < j < |log| ==> log[j].Fetched? && log[j].key != key
  }

  lemma {:induction false} LatestFetchIsLatest(log: seq<Event>, key: Key) returns (i: nat)
    ensures LatestFetch(log, key).Some? ==>
      IsLatest(log, key, i) && LatestFetch(log, key) == Some(Entry(log[i].meta, log[i].at))
    ensures LatestFetch(log, key).None? ==> forall j: nat :: !IsLatest(log, key, j)
  {
    i := 0;
    if log != [] {
      var last := log[|log| - 1];
      if last.Fetched? && last.key == key {
        i := |log| - 1;
      } else {
        var front := log[..|log| - 1];
        i := LatestFetchIsLatest(front, key);
        forall j: nat | IsLatest(log, key, j)
          ensures IsLatest(front, key, j)
        {
          assert j < |front|;
          assert forall m :: j < m < |front| ==> front[m] == log[m];
        }
      }
    }
  }

  /**
   * Something is served exactly when the key's latest fetch is no older than the TTL and nothing
   * was invalidated after it; what is served is what that fetch brought.
   */
  lemma ServedIff(log: seq<Event>, ttl: nat, key: Key, now: nat, m: Meta)
    ensures Served(log, ttl, key, now) == Some(m) <==>
      ttl != 0 && exists i: nat :: IsLatest(log, key, i) && log[i].meta == m && now <= log[i].at + ttl
  {
    var i := LatestFetchIsLatest(log, key);
    forall a: nat, b: nat | IsLatest(log, key, a) && IsLatest(log, key, b)
      ensures a == b
    {
      var first, second := log[a], log[b];
    }
  }

  /** Every fetch so far brought what `w` answers: the inner client has been `w` all along. */
  ghost predicate Agrees(log: seq<Event>, w: Inner) {
    forall i :: 0 <= i < |log| && log[i].Fetched? ==> w.up && w.metadata(log[i].key) == Some(log[i].meta)
  }

  lemma ServedAgrees(log: seq<Event>, ttl: nat, key: Key, now: nat, w: Inner)
    requires Agrees(log, w)
    ensures Served(log, ttl, key, now).Some? ==>
      w.up && w.metadata(key) == Served(log, ttl, key, now)
  {
    var i := LatestFetchIsLatest(log, key);
  }

  /** The bulk lookup's division of its names: those served, and those left to fetch. */
  function Hits(log: seq<Event>, ttl: nat, ops: seq<string>, language: string, now: nat): seq<Meta> {
    if ops == [] then []
    else
      var front := Hits(log, ttl, ops[..|ops| - 1], language, now);
      match Served(log, ttl, Key(ops[|ops| - 1], language), now)
      case Some(m) => front + [m]
      case None => front
  }

  function Misses(log: seq<Event>, ttl: nat, ops: seq<string>, language: string, now: nat): (r: seq<string>) {
    if ops == [] then []
    else
      var front := Misses(log, ttl, ops[..|ops| - 1], language, now);
      if Served(log, ttl, Key(ops[|ops| - 1], language), now).Some? then front else front + [ops[|ops| - 1]]
  }

  /**
   * Against an unchanged inner client, the cached and the fetched parts together are the inner
   * client's own bulk answer: the same records as often, and the same missing names in order.
   */
  lemma {:induction false} BulkIsComplete(log: seq<Event>, ttl: nat, ops: seq<string>, language: string,
                                          now: nat, w: Inner)
    requires Agrees(log, w)
    ensures var hits := Hits(log, ttl, ops, language, now);
      var rest := AskAll(w, Misses(log, ttl, ops, language, now), language);
      && multiset(hits + rest.operations) == multiset(AskAll(w, ops, language).operations)
      && rest.missing == AskAll(w, ops, language).missing
    ensures |Hits(log, ttl, ops, language, now)| + |Misses(log, ttl, ops, language, now)| == |ops|
  {
    hide Served, Agrees;
    if ops != [] {
      var front, op := ops[..|ops| - 1], ops[|ops| - 1];
      BulkIsComplete(log, ttl, front, language, now, w);
      ServedAgrees(log, ttl, Key(op, language), now, w);
      var missed := Misses(log, ttl, front, language, now);
      assert (missed + [op])[..|missed|] == missed;
    }
  }

  lemma {:induction false} AskAllAgrees(w: Inner, ops: seq<string>, language: string, i: nat)
    requires Faithful(w) && i < |AskAll(w, ops, language).operations|
    ensures var m := AskAll(w, ops, language).operations[i];
      w.metadata(Key(m.operation, language)) == Some(m)
  {
    var front, op := ops[..|ops| - 1], ops[|ops| - 1];
    if i < |AskAll(w, front, language).operations| {
      AskAllAgrees(w, front, language, i);
    } else {
      assert w.metadata(Key(op, language)).Some?;
    }
  }

  /** The fetches recorded when a bulk answer is stored, each under the name the record carries. */
  function FetchesOf(metas: seq<Meta>, language: string, at: nat): (r: seq<Event>)
    ensures |r| == |metas|
    ensures forall i :: 0 <= i < |r| ==> r[i] == Fetched(Key(metas[i].operation, language), metas[i], at)
  {
    if metas == [] then []
    else
      var m := metas[|metas| - 1];
      FetchesOf(metas[..|metas| - 1], language, at) + [Fetched(Key(m.operation, language), m, at)]
  }

  lemma BulkKeepsAgreement(log: seq<Event>, w: Inner, ops: seq<string>, language: string, at: nat)
    requires Agrees(log, w) && Faithful(w) && w.up
    ensures Agrees(log + FetchesOf(AskAll(w, ops, language).operations, language, at), w)
  {
    var metas := AskAll(w, ops, language).operations;
    forall i | 0 <= i < |metas|
      ensures w.metadata(Key(metas[i].operation, language)) == Some(metas[i])
    {
      AskAllAgrees(w, ops, language, i);
    }
  }

  // ----- the cache -----

  class MetadataCache {
    const ttl: nat
    var entries: map<Key, Entry>
    var hits: nat
    var misses: nat
    var evictions: nat
    ghost var log: seq<Event>
    ghost var asked: nat

    /** The map holds the latest fetch of every key, or nothing at all when caching is off. */
    ghost predicate Valid() reads this {
      && (forall key :: key in entries <==> ttl != 0 && LatestFetch(log, key).Some?)
      && (forall key :: key in entries ==> LatestFetch(log, key) == Some(entries[key]))
      && hits + misses == asked
    }

    constructor (ttl: nat)
      ensures Valid() && this.ttl == ttl && log == [] && asked == 0 && evictions == 0
    {
      this.ttl := ttl;
      entries, hits, misses, evictions, log, asked := map[], 0, 0, 0, [], 0;
    }

    method InvalidateAll()
      requires Valid()
      modifies this
      ensures Valid() && log == old(log) + [Invalidated] && entries == map[]
      ensures evictions == old(evictions) + |old(entries)|
      ensures asked == old(asked) && hits == old(hits) && misses == old(misses)
    {
      evictions := evictions + |entries|;
      entries := map[];
      log := log + [Invalidated];
    }

    method GetFresh(key: Key, now: nat) returns (r: Option<Meta>)
      requires Valid()
      ensures r == Served(log, ttl, key, now)
    {
      r := None;
      if key in entries {
        var e := entries[key];
        if ttl == 0 || Elapsed(e.cachedAt, now) <= ttl {
          r := Some(e.meta);
        }
      }
    }

    method Store(key: Key, meta: Meta, now: nat)
      requires Valid()
      modifies this
      ensures Valid() && log == old(log) + [Fetched(key, meta, now)]
      ensures asked == old(asked) && hits == old(hits) && misses == old(misses) && evictions == old(evictions)
    {
      if ttl != 0 {
        entries := entries[key := Entry(meta, now)];
      }
      log := log + [Fetched(key, meta, now)];
      assert log[..|log| - 1] == old(log);
    }

    /** One lookup: from the cache when it may be served, and otherwise from the inner client. */
    method ServiceMetadata(operation: string, language: string, now: nat, later: nat, w: Inner)
      returns (r: Result<Meta>)
      requires Valid()
      modifies this
      ensures Valid() && asked == old(asked) + 1 && evictions == old(evictions)
      ensures var served := Served(old(log), ttl, Key(operation, language), now);
        if served.Some? then r == Ok(served.value) && log == old(log) && hits == old(hits) + 1
        else
          && r == AskOne(w, Key(operation, language)) && misses == old(misses) + 1
          && log == old(log) + if r.Ok? then [Fetched(Key(operation, language), r.value, later)] else []
      ensures Agrees(old(log), w) ==> r == AskOne(w, Key(operation, language)) && Agrees(log, w)
    {
      hide Served, AskAll;
      var key := Key(operation, language);
      if Agrees(log, w) {
        ServedAgrees(log, ttl, key, now, w);
      }
      var cached := GetFresh(key, now);
      asked := asked + 1;
      if cached.Some? {
        hits := hits + 1;
        return Ok(cached.value);
      }
      misses := misses + 1;
      r := AskOne(w, key);
      if r.Ok? {
        Store(key, r.value, later);
      }
    }

    /**
     * A bulk lookup: one call to the inner client for the names that are not served, and none when
     * every name is. An empty request is answered without the inner client even when it is down.
     */
    method BulkServiceMetadata(ops: seq<string>, language: string, now: nat, later: nat, w: Inner)
      returns (r: Result<Bulk>)
      requires Valid()
      modifies this
      ensures Valid() && asked == old(asked) + |ops| && evictions == old(evictions)
      ensures var fetch := Misses(old(log), ttl, ops, language, now);
        && hits == old(hits) + |Hits(old(log), ttl, ops, language, now)|
        && misses == old(misses) + |fetch|
        && (r.Err? <==> fetch != [] && !w.up)
        && (r.Ok? ==>
          && r.value.operations == Hits(old(log), ttl, ops, language, now) + AskAll(w, fetch, language).operations
          && r.value.missing == AskAll(w, fetch, language).missing
          && log == old(log) + FetchesOf(AskAll(w, fetch, language).operations, language, later))
        && (r.Err? ==> r.error == Unavailable && log == old(log))
      ensures Agrees(old(log), w) && Faithful(w) ==> Agrees(log, w)
      ensures Agrees(old(log), w) && w.up ==>
        && r.Ok?
        && multiset(r.value.operations) == multiset(AskAll(w, ops, language).operations)
        && r.value.missing == AskAll(w, ops, language).missing
      ensures Agrees(old(log), w) && !w.up ==> (r.Err? <==> ops != [])
    {
      hide Served, Hits, Misses, AskAll, Agrees, Faithful, LatestFetch, FetchesOf;
      var cached, toFetch := Divide(ops, language, now);
      BulkFacts(log, ttl, ops, language, now, later, w);
      var missing := [];
      if toFetch != [] {
        if !w.up {
          return Err(Unavailable);
        }
        var fetched := AskAll(w, toFetch, language);
        StoreAll(fetched.operations, language, later);
        cached := cached + fetched.operations;
        missing := fetched.missing;
      }
      r := Ok(Bulk(cached, missing));
    }

    method Divide(ops: seq<string>, language: string, now: nat) returns (cached: seq<Meta>, toFetch: seq<string>)
      requires Valid()
      modifies this
      ensures Valid() && asked == old(asked) + |ops| && evictions == old(evictions)
      ensures log == old(log)
      ensures cached == Hits(log, ttl, ops, language, now) && hits == old(hits) + |cached|
      ensures toFetch == Misses(log, ttl, ops, language, now) && misses == old(misses) + |toFetch|
    {
      hide Served, LatestFetch;
      cached, toFetch := [], [];
      for i := 0 to |ops|
        invariant Valid() && asked == old(asked) + i && evictions == old(evictions)
        invariant log == old(log)
        invariant cached == Hits(log, ttl, ops[..i], language, now) && hits == old(hits) + |cached|
        invariant toFetch == Misses(log, ttl, ops[..i], language, now) && misses == old(misses) + |toFetch|
      {
        assert ops[..i + 1][..i] == ops[..i];
        var meta := GetFresh(Key(ops[i], language), now);
        asked := asked + 1;
        if meta.Some? {
          hits := hits + 1;
          cached := cached + [meta.value];
        } else {
          misses := misses + 1;
          toFetch := toFetch + [ops[i]];
        }
      }
      assert ops[..|ops|] == ops;
    }

    method StoreAll(metas: seq<Meta>, language: string, now: nat)
      requires Valid()
      modifies this
      ensures Valid() && log == old(log) + FetchesOf(metas, language, now)
      ensures asked == old(asked) && hits == old(hits) && misses == old(misses) && evictions == old(evictions)
    {
      hide LatestFetch;
      for i := 0 to |metas|
        invariant Valid() && log == old(log) + FetchesOf(metas[..i], language, now)
        invariant asked == old(asked) && hits == old(hits) && misses == old(misses) && evictions == old(evictions)
      {
        assert metas[..i + 1][..i] == metas[..i];
        Store(Key(metas[i].operation, language), metas[i], now);
      }
      assert metas[..|metas|] == metas;
    }
  }

  lemma BulkFacts(log: seq<Event>, ttl: nat, ops: seq<string>, language: string, now: nat, at: nat, w: Inner)
    ensures var hits := Hits(log, ttl, ops, language, now);
      var fetch := Misses(log, ttl, ops, language, now);
      && (fetch == [] ==> AskAll(w, fetch, language) == Bulk([], []) && log + FetchesOf([], language, at) == log)
      && (Agrees(log, w) && Faithful(w) && w.up ==>
        Agrees(log + FetchesOf(AskAll(w, fetch, language).operations, language, at), w))
      && (Agrees(log, w) ==>
        && multiset(hits + AskAll(w, fetch, language).operations) == multiset(AskAll(w, ops, language).operations)
        && AskAll(w, fetch, language).missing == AskAll(w, ops, language).missing)
      && (Agrees(log, w) && !w.up ==> (fetch == [] <==> ops == []))
  {
    hide Served;
    var fetch := Misses(log, ttl, ops, language, now);
    if Agrees(log, w) {
      BulkIsComplete(log, ttl, ops, language, now, w);
      if Faithful(w) && w.up {
        BulkKeepsAgreement(log, w, fetch, language, at);
      }
      if !w.up {
        NothingServedWhenDown(log, ttl, ops, language, now, w);
      }
    }
  }

  lemma {:induction false} NothingServedWhenDown(log: seq<Event>, ttl: nat, ops: seq<string>, language: string,
                                                 now: nat, w: Inner)
    requires Agrees(log, w) && !w.up
    ensures Misses(log, ttl, ops, language, now) == ops
  {
    hide Served, Agrees;
    if ops != [] {
      NothingServedWhenDown(log, ttl, ops[..|ops| - 1], language, now, w);
      ServedAgrees(log, ttl, Key(ops[|ops| - 1], language), now, w);
    }
  }

  // ----- whole runs -----

  datatype Request =
    | One(operation: string, language: string, now: nat, later: nat)
    | Many(operations: seq<string>, language: string, now: nat, later: nat)
    | Invalidate

  datatype Answer = OneAnswer(one: Result<Meta>) | ManyAnswer(many: Result<Bulk>) | Done

  /** What the cache answers after the fetches and invalidations in `log`. */
  function AnswerTo(log: seq<Event>, ttl: nat, w: Inner, q: Request): Answer {
    match q
    case One(operation, language, now, _) =>
      var served := Served(log, ttl, Key(operation, language), now);
      OneAnswer(if served.Some? then Ok(served.value) else AskOne(w, Key(operation, language)))
    case Many(operations, language, now, _) =>
      var fetch := Misses(log, ttl, operations, language, now);
      if fetch != [] && !w.up then ManyAnswer(Err(Unavailable))
      else
        var fetched := AskAll(w, fetch, language);
        ManyAnswer(Ok(Bulk(Hits(log, ttl, operations, language, now) + fetched.operations, fetched.missing)))
    case Invalidate => Done
  }

  function LogAfter(log: seq<Event>, ttl: nat, w: Inner, q: Request): seq<Event> {
    match q
    case One(operation, language, now, later) =>
      var key := Key(operation, language);
      if Served(log, ttl, key, now).None? && AskOne(w, key).Ok?
      then log + [Fetched(key, AskOne(w, key).value, later)] else log
    case Many(operations, language, now, later) =>
      var fetch := Misses(log, ttl, operations, language, now);
      if fetch != [] && !w.up then log
      else log + FetchesOf(AskAll(w, fetch, language).operations, language, later)
    case Invalidate => log + [Invalidated]
  }

  function LogOf(ttl: nat, w: Inner, requests: seq<Request>): seq<Event> {
    if requests == [] then []
    else LogAfter(LogOf(ttl, w, requests[..|requests| - 1]), ttl, w, requests[|requests| - 1])
  }

  /** The answers of a fresh cache to a sequence of requests. */
  function Answers(ttl: nat, w: Inner, requests: seq<Request>): (r: seq<Answer>)
    ensures |r| == |requests|
  {
    if requests == [] then []
    else
      var front := requests[..|requests| - 1];
      Answers(ttl, w, front) + [AnswerTo(LogOf(ttl, w, front), ttl, w, requests[|requests| - 1])]
  }

  /** A fresh cache in front of a client that never changes. */
  method Replay(ttl: nat, requests: seq<Request>, w: Inner) returns (answers: seq<Answer>)
    ensures answers == Answers(ttl, w, requests)
  {
    hide Served, Hits, Misses, AskAll, Agrees, Faithful, FetchesOf, LatestFetch;
    var cache := new MetadataCache(ttl);
    answers := [];
    for i := 0 to |requests|
      invariant fresh(cache) && cache.Valid() && cache.ttl == ttl
      invariant cache.log == LogOf(ttl, w, requests[..i]) && answers == Answers(ttl, w, requests[..i])
    {
      assert requests[..i + 1][..i] == requests[..i];
      match requests[i] {
        case One(operation, language, now, later) =>
          var r := cache.ServiceMetadata(operation, language, now, later, w);
          answers := answers + [OneAnswer(r)];
        case Many(operations, language, now, later) =>
          var r := cache.BulkServiceMetadata(operations, language, now, later, w);
          answers := answers + [ManyAnswer(r)];
        case Invalidate =>
          cache.InvalidateAll();
          answers := answers + [Done];
      }
    }
    assert requests[..|requests|] == requests;
  }

  /** The answer is what the client itself gives, bulk records in any order. */
  ghost predicate IsInnerAnswer(w: Inner, q: Request, a: Answer) {
    match q
    case One(operation, language, _, _) => a == OneAnswer(AskOne(w, Key(operation, language)))
    case Many(operations, language, _, _) =>
      a.ManyAnswer? &&
      if !w.up then a.many == Err(Unavailable)
      else
        && a.many.Ok?
        && multiset(a.many.value.operations) == multiset(AskAll(w, operations, language).operations)
        && a.many.value.missing == AskAll(w, operations, language).missing
    case Invalidate => a == Done
  }

  /** A bulk request for no names; the cache answers it without asking. */
  predicate AsksNothing(q: Request) {
    q.Many? && q.operations == []
  }

  /** Every request that asks for something is answered as without the cache. */
  ghost predicate IsTransparent(ttl: nat, w: Inner) {
    forall requests: seq<Request>, i: nat :: i < |requests| && !AsksNothing(requests[i]) ==>
      IsInnerAnswer(w, requests[i], Answers(ttl, w, requests)[i])
  }

  /** What a run keeps so that nothing stale or misnamed can be served. */
  ghost predicate Sound(log: seq<Event>, ttl: nat, w: Inner) {
    ttl == 0 || (Agrees(log, w) && (w.up ==> Faithful(w)))
  }

  lemma {:induction false} NothingServedAtZero(log: seq<Event>, ops: seq<string>, language: string, now: nat)
    ensures Misses(log, 0, ops, language, now) == ops && Hits(log, 0, ops, language, now) == []
  {
    if ops != [] {
      NothingServedAtZero(log, ops[..|ops| - 1], language, now);
    }
  }

  lemma AnswerIsInner(log: seq<Event>, ttl: nat, w: Inner, q: Request)
    requires Sound(log, ttl, w) && !AsksNothing(q)
    ensures IsInnerAnswer(w, q, AnswerTo(log, ttl, w, q))
  {
    hide Served, Hits, Misses, AskAll, Faithful, Agrees;
    match q
    case One(operation, language, now, _) =>
      if ttl == 0 {
        NoneServedAtZero(log, Key(operation, language), now);
      } else {
        ServedAgrees(log, ttl, Key(operation, language), now, w);
      }
    case Many(operations, language, now, later) =>
      if ttl == 0 {
        NothingServedAtZero(log, operations, language, now);
      } else {
        BulkFacts(log, ttl, operations, language, now, later, w);
      }
    case Invalidate =>
  }

  lemma NoneServedAtZero(log: seq<Event>, key: Key, now: nat)
    ensures Served(log, 0, key, now).None?
  {}

  lemma AgreesGrows(log: seq<Event>, e: Event, w: Inner)
    requires Agrees(log, w)
    requires e.Fetched? ==> w.up && w.metadata(e.key) == Some(e.meta)
    ensures Agrees(log + [e], w)
  {}

  lemma LogStaysSound(log: seq<Event>, ttl: nat, w: Inner, q: Request)
    requires Sound(log, ttl, w)
    ensures Sound(LogAfter(log, ttl, w, q), ttl, w)
  {
    hide Served, Hits, Misses, AskAll, Faithful, Agrees, FetchesOf;
    if ttl != 0 {
      match q
      case One(operation, language, now, later) =>
        var key := Key(operation, language);
        if AskOne(w, key).Ok? {
          AgreesGrows(log, Fetched(key, AskOne(w, key).value, later), w);
        }
      case Many(operations, language, now, later) =>
        BulkFacts(log, ttl, operations, language, now, later, w);
      case Invalidate =>
        AgreesGrows(log, Invalidated, w);
    }
  }

  lemma {:induction false} LogIsSound(ttl: nat, w: Inner, requests: seq<Request>)
    requires Sound([], ttl, w)
    ensures Sound(LogOf(ttl, w, requests), ttl, w)
  {
    if requests != [] {
      var front := requests[..|requests| - 1];
      LogIsSound(ttl, w, front);
      LogStaysSound(LogOf(ttl, w, front), ttl, w, requests[|requests| - 1]);
    }
  }

  lemma {:induction false} AnswersAreInner(ttl: nat, w: Inner, requests: seq<Request>, i: nat)
    requires Sound([], ttl, w) && i < |requests| && !AsksNothing(requests[i])
    ensures IsInnerAnswer(w, requests[i], Answers(ttl, w, requests)[i])
  {
    hide Sound, IsInnerAnswer, AnswerTo, AsksNothing;
    var front := requests[..|requests| - 1];
    if i < |front| {
      AnswersAreInner(ttl, w, front, i);
    } else {
      LogIsSound(ttl, w, front);
      AnswerIsInner(LogOf(ttl, w, front), ttl, w, requests[i]);
    }
  }

  /** A record stored under a name the client answers differently is served for that name. */
  lemma UnfaithfulMisleads(ttl: nat, w: Inner, key: Key) returns (requests: seq<Request>)
    requires ttl != 0 && w.up && w.metadata(key).Some?
    requires w.metadata(Key(w.metadata(key).value.operation, key.language)) != w.metadata(key)
    ensures |requests| == 2 && !AsksNothing(requests[1])
    ensures !IsInnerAnswer(w, requests[1], Answers(ttl, w, requests)[1])
  {
    hide Served, Answers, LogAfter, AskOne, AskAll, Misses, Hits, FetchesOf, LogOf;
    var m, language := w.metadata(key).value, key.language;
    var first, second := Many([key.operation], language, 0, 0), One(m.operation, language, 0, 0);
    requests := [first, second];
    TwoAnswers(ttl, w, first, second);
    MissIsStored(ttl, w, key);
    StoredIsServed(ttl, Key(m.operation, language), m);
    assert AnswerTo([Fetched(Key(m.operation, language), m, 0)], ttl, w, second) == OneAnswer(Ok(m));
    NamedOtherwise(w, Key(m.operation, language), m);
  }

  lemma TwoAnswers(ttl: nat, w: Inner, first: Request, second: Request)
    ensures |Answers(ttl, w, [first, second])| == 2
    ensures Answers(ttl, w, [first, second])[1] == AnswerTo(LogAfter([], ttl, w, first), ttl, w, second)
  {
    hide AnswerTo, LogAfter;
    assert [first, second][..1] == [first] && [first][..0] == [];
    assert LogOf(ttl, w, []) == [];
    assert LogOf(ttl, w, [first]) == LogAfter([], ttl, w, first);
  }

  lemma MissIsStored(ttl: nat, w: Inner, key: Key)
    requires w.up && w.metadata(key).Some?
    ensures var m := w.metadata(key).value;
      LogAfter([], ttl, w, Many([key.operation], key.language, 0, 0)) == [Fetched(Key(m.operation, key.language), m, 0)]
  {
    var op, language := key.operation, key.language;
    assert [op][..0] == [];
    assert Served([], ttl, key, 0).None?;
    assert Misses([], ttl, [], language, 0) == [];
    assert Misses([], ttl, [op], language, 0) == [op];
    assert AskAll(w, [], language) == Bulk([], []);
    assert AskAll(w, [op], language) == Bulk([w.metadata(key).value], []);
  }

  lemma StoredIsServed(ttl: nat, key: Key, m: Meta)
    requires ttl != 0
    ensures Served([Fetched(key, m, 0)], ttl, key, 0) == Some(m)
  {}

  lemma NamedOtherwise(w: Inner, key: Key, m: Meta)
    requires w.metadata(key) != Some(m)
    ensures AskOne(w, key) != Ok(m)
  {}

  /**
   * Over a client that never changes, every request that asks for something is answered as without
   * the cache, in every sequence of requests, if and only if caching is off, the client is down, or
   * the client finds each of its records also under the name the record carries.
   */
  lemma TransparentIff(ttl: nat, w: Inner)
    ensures IsTransparent(ttl, w) <==> ttl == 0 || !w.up || Faithful(w)
  {
    hide IsInnerAnswer, Answers, AsksNothing;
    if ttl == 0 || !w.up || Faithful(w) {
      forall requests: seq<Request>, i: nat | i < |requests| && !AsksNothing(requests[i])
        ensures IsInnerAnswer(w, requests[i], Answers(ttl, w, requests)[i])
      {
        AnswersAreInner(ttl, w, requests, i);
      }
    } else {
      var key :| w.metadata(key).Some? &&
        w.metadata(Key(w.metadata(key).value.operation, key.language)) != w.metadata(key);
      var requests := UnfaithfulMisleads(ttl, w, key);
      assert !IsInnerAnswer(w, requests[1], Answers(ttl, w, requests)[1]);
    }
  }

  /** A bulk request for no names is answered with nothing, even when the client is down. */
  lemma EmptyBulkAnswered(log: seq<Event>, ttl: nat, w: Inner, q: Request)
    requires AsksNothing(q)
    ensures AnswerTo(log, ttl, w, q) == ManyAnswer(Ok(Bulk([], [])))
  {
    assert Misses(log, ttl, [], q.language, q.now) == [] && Hits(log, ttl, [], q.language, q.now) == [];
    assert AskAll(w, [], q.language) == Bulk([], []);
    var none: seq<Meta> := [];
    assert none + none == none;
    assert q.operations == [] && Misses(log, ttl, q.operations, q.language, q.now) == [];
  }
}
