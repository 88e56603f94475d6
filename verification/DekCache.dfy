/**
  The cache of unwrapped keys in front of the key service. The service and the clock are
  parameters; the cache sits behind a lock, so each of its two operations is one step.
 */
module DekCache {
  import opened Basics

  datatype CachedDek = CachedDek(plaintext: Bytes, cachedAt: int)

  type Cache = map<Bytes, CachedDek>

  datatype UnwrapError = WrappedLocally | NotUtf8 | Service

  /** `gcp-kms:` */
  const PREFIX: Bytes := [103, 99, 112, 45, 107, 109, 115, 58]

  predicate IsGcpKmsCiphertext(b: Bytes) {
    PREFIX <= b
  }

  function Entry(plaintext: Bytes, now: int): CachedDek {
    CachedDek(plaintext, now)
  }

  predicate Live(c: Cache, key: Bytes, ttl: int, now: int) {
    key in c && now - c[key].cachedAt < ttl
  }

  function Lookup(c: Cache, key: Bytes, ttl: int, now: int): Option<Bytes> {
    if Live(c, key, ttl, now) then Some(c[key].plaintext) else None
  }

  /** A hit changes nothing; a miss drops the entry if it has expired. */
  function AfterLookup(c: Cache, key: Bytes, ttl: int, now: int): Cache {
    if Live(c, key, ttl, now) then c else c - {key}
  }

  /** `kept` is `c` without its `n` oldest entries, ties broken anyhow. */
  ghost predicate DropsOldest(c: Cache, kept: Cache, n: nat) {
    && kept.Keys <= c.Keys
    && (forall k :: k in kept ==> kept[k] == c[k])
    && |kept| == |c| - n
    && (forall k, d :: k in kept && d in c && d !in kept ==> c[d].cachedAt <= c[k].cachedAt)
  }

  /** What a put may leave of the entries it finds: all of them below the limit, else the newer ones. */
  ghost predicate Survivors(c: Cache, kept: Cache, maxEntries: nat) {
    if |c| >= maxEntries then DropsOldest(c, kept, maxEntries / 2) else kept == c
  }

  /** Below the limit nothing goes; at it, half as many entries as the limit, none newer than one that stays. */
  lemma SurvivorsByNumbers(c: Cache, kept: Cache, maxEntries: nat)
    ensures Survivors(c, kept, maxEntries) <==>
            if |c| < maxEntries then kept == c
            else
              && |kept| == |c| - maxEntries / 2
              && (forall k :: k in kept ==> k in c && kept[k] == c[k])
              && (forall k, d :: k in kept && d in c && d !in kept ==> c[d].cachedAt <= c[k].cachedAt)
  {
  }

  ghost predicate IsOldest(c: Cache, k: Bytes) {
    k in c && forall j :: j in c ==> c[k].cachedAt <= c[j].cachedAt
  }

  lemma {:induction false} OldestExists(c: Cache)
    requires c != map[]
    ensures exists k :: IsOldest(c, k)
    decreases |c|
  {
    var k :| k in c;
    var rest := c - {k};
    if rest == map[] {
      assert forall j :: j in c && j != k ==> j in rest;
      assert IsOldest(c, k);
    } else {
      assert rest.Keys == c.Keys - {k};
      OldestExists(rest);
      var o :| IsOldest(rest, o);
      assert forall j :: j in c && j != k ==> j in rest;
      assert IsOldest(c, if c[k].cachedAt <= c[o].cachedAt then k else o);
    }
  }

  type Drained = seq<(Bytes, CachedDek)>

  /** `entries` are distinct entries of `c`, oldest first. */
  ghost predicate AgedEntries(entries: Drained, c: Cache) {
    && (forall i :: 0 <= i < |entries| ==> entries[i].0 in c && entries[i].1 == c[entries[i].0])
    && (forall i, j :: 0 <= i < j < |entries| ==>
          entries[i].0 != entries[j].0 && entries[i].1.cachedAt <= entries[j].1.cachedAt)
  }

  ghost predicate Lists(entries: Drained, k: Bytes) {
    exists i :: 0 <= i < |entries| && entries[i].0 == k
  }

  /** What is left of `c` when `entries` have been taken out, all of it at least as new as they are. */
  ghost predicate Remains(entries: Drained, c: Cache, rest: Cache) {
    && |entries| + |rest| == |c|
    && (forall k :: k in rest ==> k in c && rest[k] == c[k] && !Lists(entries, k))
    && (forall k :: k in c ==> k in rest || Lists(entries, k))
    && (forall i, k :: 0 <= i < |entries| && k in rest ==> entries[i].1.cachedAt <= rest[k].cachedAt)
  }

  lemma ListsAppend(entries: Drained, k: Bytes, v: CachedDek, j: Bytes)
    ensures Lists(entries + [(k, v)], j) <==> j == k || Lists(entries, j)
  {
    var next := entries + [(k, v)];
    assert next[|entries|].0 == k;
    if i :| 0 <= i < |entries| && entries[i].0 == j {
      assert next[i].0 == j;
    }
  }

  lemma DrainOne(entries: Drained, c: Cache, rest: Cache, k: Bytes)
    requires AgedEntries(entries, c) && Remains(entries, c, rest) && IsOldest(rest, k)
    ensures AgedEntries(entries + [(k, rest[k])], c) && Remains(entries + [(k, rest[k])], c, rest - {k})
  {
    hide Lists;
    assert (rest - {k}).Keys == rest.Keys - {k};
    forall j {
      ListsAppend(entries, k, rest[k], j);
    }
    forall i | 0 <= i < |entries|
      ensures entries[i].0 != k
    {
      assert Lists(entries, entries[i].0) by { ListsItself(entries, i); }
    }
  }

  lemma ListsItself(entries: Drained, i: nat)
    requires i < |entries|
    ensures Lists(entries, entries[i].0)
  {
  }

  /** The map obtained by inserting a list of entries one by one. */
  ghost function Rebuilt(entries: Drained): Cache {
    if entries == [] then map[]
    else Rebuilt(entries[..|entries| - 1])[entries[|entries| - 1].0 := entries[|entries| - 1].1]
  }

  lemma {:induction false} RebuiltKeys(entries: Drained, c: Cache)
    requires AgedEntries(entries, c)
    ensures |Rebuilt(entries)| == |entries|
    ensures forall k :: k in Rebuilt(entries) <==> Lists(entries, k)
  {
    if entries != [] {
      var n := |entries| - 1;
      var init := entries[..n];
      var (k, v) := entries[n];
      RebuiltKeys(init, c);
      assert !Lists(init, k);
      hide Lists, AgedEntries;
      assert entries == init + [(k, v)];
      forall j {
        ListsAppend(init, k, v, j);
      }
      assert Rebuilt(entries).Keys == Rebuilt(init).Keys + {k};
    }
  }

  lemma {:induction false} RebuiltValues(entries: Drained, c: Cache)
    requires AgedEntries(entries, c)
    ensures forall k :: k in Rebuilt(entries) ==> k in c && Rebuilt(entries)[k] == c[k]
  {
    if entries != [] {
      RebuiltValues(entries[..|entries| - 1], c);
    }
  }

  /** Re-inserting a drained cache from position `n` on drops its `n` oldest entries. */
  lemma RebuiltDropsOldest(entries: Drained, c: Cache, n: nat)
    requires AgedEntries(entries, c) && Remains(entries, c, map[]) && n <= |entries|
    ensures DropsOldest(c, Rebuilt(entries[n..]), n)
  {
    hide Lists, Rebuilt;
    var tail := entries[n..];
    var kept := Rebuilt(tail);
    RebuiltKeys(tail, c);
    RebuiltValues(tail, c);
    EmptyRest(entries, c);
    forall k, d | k in kept && d in c && d !in kept
      ensures c[d].cachedAt <= c[k].cachedAt
    {
      OlderThanTail(entries, c, n, k, d);
    }
  }

  lemma EmptyRest(entries: Drained, c: Cache)
    requires Remains(entries, c, map[])
    ensures |entries| == |c| && forall k :: k in c ==> Lists(entries, k)
  {
  }

  lemma OlderThanTail(entries: Drained, c: Cache, n: nat, k: Bytes, d: Bytes)
    requires AgedEntries(entries, c) && n <= |entries|
    requires Lists(entries[n..], k) && Lists(entries, d) && !Lists(entries[n..], d)
    ensures c[d].cachedAt <= c[k].cachedAt
  {
  }

  class GcpKmsKek {
    const ttl: int
    const maxEntries: nat
    var cache: Cache

    constructor (ttl: int, maxEntries: nat)
      ensures this.ttl == ttl && this.maxEntries == maxEntries && cache == map[]
    {
      this.ttl := ttl;
      this.maxEntries := maxEntries;
      cache := map[];
    }

    method CacheGet(key: Bytes, now: int) returns (hit: Option<Bytes>)
      modifies this`cache
      ensures hit == Lookup(old(cache), key, ttl, now)
      ensures cache == AfterLookup(old(cache), key, ttl, now)
      ensures hit.Some? ==> cache == old(cache)
      ensures hit.Some? <==> key in old(cache) && now - old(cache)[key].cachedAt < ttl
      ensures hit.Some? ==> hit.value == old(cache)[key].plaintext
      ensures hit.None? ==> cache == old(cache) - {key}
    {
      if key in cache {
        var entry := cache[key];
        if now - entry.cachedAt < ttl {
          return Some(entry.plaintext);
        }
        cache := cache - {key};
      }
      return None;
    }

    /** Empties the cache into a list sorted by age. */
    method Drain() returns (entries: Drained)
      modifies this`cache
      ensures cache == map[] && AgedEntries(entries, old(cache)) && Remains(entries, old(cache), map[])
    {
      entries := [];
      while cache != map[]
        invariant AgedEntries(entries, old(cache)) && Remains(entries, old(cache), cache)
        decreases |cache|
      {
        OldestExists(cache);
        var k :| k in cache && forall j :: j in cache ==> cache[k].cachedAt <= cache[j].cachedAt;
        assert IsOldest(cache, k);
        DrainOne(entries, old(cache), cache, k);
        assert (cache - {k}).Keys == cache.Keys - {k};
        entries := entries + [(k, cache[k])];
        cache := cache - {k};
      }
    }

    method Reinsert(entries: Drained, skip: nat)
      requires cache == map[] && skip <= |entries|
      modifies this`cache
      ensures cache == Rebuilt(entries[skip..])
    {
      for i := skip to |entries|
        invariant cache == Rebuilt(entries[skip..i])
      {
        var (k, v) := entries[i];
        assert entries[skip..i + 1][..i - skip] == entries[skip..i];
        cache := cache[k := v];
      }
      assert entries[skip..|entries|] == entries[skip..];
    }

    /** At the limit, the older half goes first: no dropped entry is newer than a kept one. */
    method CachePut(key: Bytes, plaintext: Bytes, now: int) returns (ghost kept: Cache)
      modifies this`cache
      ensures Survivors(old(cache), kept, maxEntries)
      ensures cache == kept[key := CachedDek(plaintext, now)]
    {
      hide AgedEntries, Remains, DropsOldest;
      kept := cache;
      if |cache| >= maxEntries {
        var entries := Drain();
        EmptyRest(entries, old(cache));
        Reinsert(entries, maxEntries / 2);
        RebuiltDropsOldest(entries, old(cache), maxEntries / 2);
        kept := cache;
      }
      cache := cache[key := CachedDek(plaintext, now)];
    }

    /**
      `reply` is what the service answers if it is asked, `isUtf8` whether the ciphertext after
      the prefix is text, and `done` the time at which the answer is stored.
     */
    method UnwrapDek(encrypted: Bytes, isUtf8: bool, reply: Option<Bytes>, now: int, done: int)
      returns (result: Result<Bytes, UnwrapError>, ghost kept: Cache)
      modifies this`cache
      ensures !IsGcpKmsCiphertext(encrypted) ==> result == Err(WrappedLocally) && cache == old(cache)
      ensures IsGcpKmsCiphertext(encrypted) && Lookup(old(cache), encrypted, ttl, now).Some? ==>
                result == Ok(Lookup(old(cache), encrypted, ttl, now).value) && cache == old(cache)
      ensures IsGcpKmsCiphertext(encrypted) && Lookup(old(cache), encrypted, ttl, now).None? ==>
                && result == (if !isUtf8 then Err(NotUtf8) else if reply.None? then Err(Service) else Ok(reply.value))
                && (result.Err? ==> cache == AfterLookup(old(cache), encrypted, ttl, now))
                && (result.Ok? ==>
                      && Survivors(AfterLookup(old(cache), encrypted, ttl, now), kept, maxEntries)
                      && cache == kept[encrypted := Entry(result.value, done)])
    {
      kept := cache;
      if !IsGcpKmsCiphertext(encrypted) {
        return Err(WrappedLocally), kept;
      }
      var hit := CacheGet(encrypted, now);
      if hit.Some? {
        return Ok(hit.value), kept;
      }
      if !isUtf8 {
        return Err(NotUtf8), kept;
      }
      if reply.None? {
        return Err(Service), kept;
      }
      kept := CachePut(encrypted, reply.value, done);
      return Ok(reply.value), kept;
    }
  }

  // ---- Runs: any interleaving of calls of `unwrap_dek` ----

  datatype Config = Config(ttl: int, maxEntries: nat)

  type CallId = nat

  /** A plaintext the service returned for a ciphertext, and when. */
  datatype Reply = Reply(ciphertext: Bytes, plaintext: Bytes, at: int)

  /** Where a call stands that has missed the cache: the service has yet to answer, or the answer is yet to be stored. */
  datatype Call = Asking(key: Bytes) | Holding(reply: Reply)

  /** `replies` is the history of the service; the code keeps no such record. */
  datatype State = State(cache: Cache, now: int, calls: map<CallId, Call>, replies: set<Reply>)

  /** `Failed` is an error of the service, a ciphertext that is not text, or a call that is dropped. */
  datatype Event =
    | Get(id: CallId, key: Bytes)
    | Decrypted(id: CallId, plaintext: Bytes)
    | Failed(id: CallId)
    | Put(id: CallId, kept: Cache)
    | Tick(millis: nat)

  function Init(now: int): State {
    State(map[], now, map[], {})
  }

  ghost predicate Enabled(s: State, e: Event, c: Config) {
    match e
    case Get(id, _) => id !in s.calls
    case Decrypted(id, _) => id in s.calls && s.calls[id].Asking?
    case Failed(id) => id in s.calls
    case Put(id, kept) => id in s.calls && s.calls[id].Holding? && Survivors(s.cache, kept, c.maxEntries)
    case Tick(_) => true
  }

  ghost function Apply(s: State, e: Event, c: Config): State
    requires Enabled(s, e, c)
  {
    match e
    case Get(id, key) =>
      var t := s.(cache := AfterLookup(s.cache, key, c.ttl, s.now));
      if Live(s.cache, key, c.ttl, s.now) then t else t.(calls := s.calls[id := Asking(key)])
    case Decrypted(id, plaintext) =>
      var reply := Reply(s.calls[id].key, plaintext, s.now);
      s.(calls := s.calls[id := Holding(reply)], replies := s.replies + {reply})
    case Failed(id) => s.(calls := s.calls - {id})
    case Put(id, kept) =>
      var reply := s.calls[id].reply;
      s.(cache := kept[reply.ciphertext := Entry(reply.plaintext, s.now)], calls := s.calls - {id})
    case Tick(d) => s.(now := s.now + d)
  }

  /** What the step makes `unwrap_dek` return, and for which ciphertext. */
  ghost function Returned(s: State, e: Event, c: Config): Option<(Bytes, Bytes)>
    requires Enabled(s, e, c)
  {
    match e
    case Get(_, key) => if Live(s.cache, key, c.ttl, s.now) then Some((key, s.cache[key].plaintext)) else None
    case Put(id, _) => Some((s.calls[id].reply.ciphertext, s.calls[id].reply.plaintext))
    case _ => None
  }

  ghost predicate Legal(s: State, es: seq<Event>, c: Config)
    decreases |es|
  {
    es == [] || (Enabled(s, es[0], c) && Legal(Apply(s, es[0], c), es[1..], c))
  }

  ghost function Exec(s: State, es: seq<Event>, c: Config): State
    requires Legal(s, es, c)
    decreases |es|
  {
    if es == [] then s else Exec(Apply(s, es[0], c), es[1..], c)
  }

  // ---- Every plaintext comes from the service, and recently ----

  /** No call holds its reply for more than `delay` before it stores it. */
  ghost predicate PutsWithin(s: State, e: Event, c: Config, delay: nat)
    requires Enabled(s, e, c)
  {
    e.Put? ==> s.now - s.calls[e.id].reply.at <= delay
  }

  ghost predicate Prompt(s: State, es: seq<Event>, c: Config, delay: nat)
    requires Legal(s, es, c)
    decreases |es|
  {
    es == [] || (PutsWithin(s, es[0], c, delay) && Prompt(Apply(s, es[0], c), es[1..], c, delay))
  }

  /** The service returned `plaintext` for exactly this ciphertext, at a time in [from, to]. */
  ghost predicate Vouched(s: State, ciphertext: Bytes, plaintext: Bytes, from: int, to: int) {
    exists t :: from <= t <= to && Reply(ciphertext, plaintext, t) in s.replies
  }

  ghost predicate EntryOk(s: State, k: Bytes, delay: nat)
    requires k in s.cache
  {
    var at := s.cache[k].cachedAt;
    at <= s.now && Vouched(s, k, s.cache[k].plaintext, at - delay, at)
  }

  ghost predicate Inv(s: State, delay: nat) {
    && (forall id :: id in s.calls && s.calls[id].Holding? ==> s.calls[id].reply in s.replies && s.calls[id].reply.at <= s.now)
    && (forall k :: k in s.cache ==> EntryOk(s, k, delay))
  }

  lemma SurvivorsAreEntries(c: Cache, kept: Cache, maxEntries: nat)
    requires Survivors(c, kept, maxEntries)
    ensures forall k :: k in kept ==> k in c && kept[k] == c[k]
  {
  }

  lemma OldEntryStaysOk(s: State, e: Event, c: Config, delay: nat, k: Bytes)
    requires Enabled(s, e, c) && k in s.cache && EntryOk(s, k, delay)
    requires k in Apply(s, e, c).cache && Apply(s, e, c).cache[k] == s.cache[k]
    ensures EntryOk(Apply(s, e, c), k, delay)
  {
    hide Survivors;
    var t :| s.cache[k].cachedAt - delay <= t <= s.cache[k].cachedAt && Reply(k, s.cache[k].plaintext, t) in s.replies;
    assert Reply(k, s.cache[k].plaintext, t) in Apply(s, e, c).replies;
  }

  lemma NewEntryIsOk(s: State, e: Event, c: Config, delay: nat)
    requires Inv(s, delay) && Enabled(s, e, c) && PutsWithin(s, e, c, delay) && e.Put?
    ensures EntryOk(Apply(s, e, c), s.calls[e.id].reply.ciphertext, delay)
  {
    hide Survivors;
    var reply := s.calls[e.id].reply;
    var t := Apply(s, e, c);
    assert Reply(reply.ciphertext, t.cache[reply.ciphertext].plaintext, reply.at) in t.replies;
  }

  lemma CallStaysOk(s: State, e: Event, c: Config, delay: nat, id: CallId)
    requires Inv(s, delay) && Enabled(s, e, c) && id in Apply(s, e, c).calls && Apply(s, e, c).calls[id].Holding?
    ensures var t := Apply(s, e, c); t.calls[id].reply in t.replies && t.calls[id].reply.at <= t.now
  {
  }

  lemma EntryStaysOk(s: State, e: Event, c: Config, delay: nat, k: Bytes)
    requires Inv(s, delay) && Enabled(s, e, c) && PutsWithin(s, e, c, delay) && k in Apply(s, e, c).cache
    ensures EntryOk(Apply(s, e, c), k, delay)
  {
    if e.Put? {
      SurvivorsAreEntries(s.cache, e.kept, c.maxEntries);
      if k == s.calls[e.id].reply.ciphertext {
        NewEntryIsOk(s, e, c, delay);
      } else {
        OldEntryStaysOk(s, e, c, delay, k);
      }
    } else {
      OldEntryStaysOk(s, e, c, delay, k);
    }
  }

  lemma StepKeepsInv(s: State, e: Event, c: Config, delay: nat)
    requires Inv(s, delay) && Enabled(s, e, c) && PutsWithin(s, e, c, delay)
    ensures Inv(Apply(s, e, c), delay)
  {
    hide Apply, Enabled, PutsWithin, EntryOk;
    forall id | id in Apply(s, e, c).calls && Apply(s, e, c).calls[id].Holding? {
      CallStaysOk(s, e, c, delay, id);
    }
    forall k | k in Apply(s, e, c).cache {
      EntryStaysOk(s, e, c, delay, k);
    }
  }

  lemma {:induction false} RunKeepsInv(s: State, es: seq<Event>, c: Config, delay: nat)
    requires Inv(s, delay) && Legal(s, es, c) && Prompt(s, es, c, delay)
    ensures Inv(Exec(s, es, c), delay)
    decreases |es|
  {
    if es != [] {
      StepKeepsInv(s, es[0], c, delay);
      RunKeepsInv(Apply(s, es[0], c), es[1..], c, delay);
    }
  }

  /**
    In every run, whatever the bound on the time from a reply to its put: a plaintext that
    `unwrap_dek` returns was returned by the service for exactly that ciphertext, less than
    ttl + delay ago if it comes from the cache, and at most the delay ago if it does not. When
    reply and put are one instant, that is less than the time to live.
   */
  lemma ReturnedIsRecentReply(now: int, es: seq<Event>, c: Config, delay: nat, e: Event)
    requires Legal(Init(now), es, c) && Prompt(Init(now), es, c, delay)
    requires var s := Exec(Init(now), es, c); Enabled(s, e, c) && PutsWithin(s, e, c, delay)
    ensures var s := Exec(Init(now), es, c);
            var returned := Returned(s, e, c);
            returned.Some? ==>
              var (key, plaintext) := returned.value;
              Vouched(s, key, plaintext, if e.Get? then s.now - c.ttl - delay + 1 else s.now - delay, s.now)
  {
    RunKeepsInv(Init(now), es, c, delay);
    var s := Exec(Init(now), es, c);
    if e.Get? && e.key in s.cache {
      assert EntryOk(s, e.key, delay);
    } else if e.Put? {
      assert s.calls[e.id].reply == Reply(s.calls[e.id].reply.ciphertext, s.calls[e.id].reply.plaintext, s.calls[e.id].reply.at);
    }
  }

  /** Every run is prompt for some bound, so what follows needs none. */
  lemma {:induction false} PromptForSome(s: State, es: seq<Event>, c: Config) returns (delay: nat)
    requires Legal(s, es, c)
    ensures Prompt(s, es, c, delay)
    decreases |es|
  {
    delay := 0;
    if es != [] {
      var rest := PromptForSome(Apply(s, es[0], c), es[1..], c);
      var own := if es[0].Put? then s.now - s.calls[es[0].id].reply.at else 0;
      delay := if own > rest then own else rest;
      PromptRelax(Apply(s, es[0], c), es[1..], c, rest, delay);
    }
  }

  lemma {:induction false} PromptRelax(s: State, es: seq<Event>, c: Config, tight: nat, loose: nat)
    requires Legal(s, es, c) && Prompt(s, es, c, tight) && tight <= loose
    ensures Prompt(s, es, c, loose)
    decreases |es|
  {
    if es != [] {
      PromptRelax(Apply(s, es[0], c), es[1..], c, tight, loose);
    }
  }

  /** In front of a service that is a function of the ciphertext, the cache cannot be told apart from it. */
  lemma HitAgreesWithService(now: int, es: seq<Event>, c: Config, key: Bytes, decrypt: Bytes -> Bytes)
    requires Legal(Init(now), es, c)
    requires forall r :: r in Exec(Init(now), es, c).replies ==> r.plaintext == decrypt(r.ciphertext)
    ensures var s := Exec(Init(now), es, c);
            Lookup(s.cache, key, c.ttl, s.now) == None || Lookup(s.cache, key, c.ttl, s.now) == Some(decrypt(key))
  {
    var delay := PromptForSome(Init(now), es, c);
    RunKeepsInv(Init(now), es, c, delay);
    var s := Exec(Init(now), es, c);
    if Lookup(s.cache, key, c.ttl, s.now).Some? {
      assert EntryOk(s, key, delay);
      var t :| Reply(key, s.cache[key].plaintext, t) in s.replies;
    }
  }

  // ---- What is stored is served ----

  lemma {:induction false} TimePasses(s: State, es: seq<Event>, c: Config)
    requires Legal(s, es, c)
    ensures s.now <= Exec(s, es, c).now
    decreases |es|
  {
    if es != [] {
      TimePasses(Apply(s, es[0], c), es[1..], c);
    }
  }

  predicate NoPuts(es: seq<Event>) {
    forall i :: 0 <= i < |es| ==> !es[i].Put?
  }

  lemma EntryStays(s: State, e: Event, c: Config, key: Bytes)
    requires Enabled(s, e, c) && !e.Put? && key in s.cache && s.now - s.cache[key].cachedAt < c.ttl
    ensures key in Apply(s, e, c).cache && Apply(s, e, c).cache[key] == s.cache[key]
  {
  }

  lemma {:induction false} LiveEntryStays(s: State, es: seq<Event>, c: Config, key: Bytes)
    requires Legal(s, es, c) && NoPuts(es) && key in s.cache
    requires Exec(s, es, c).now - s.cache[key].cachedAt < c.ttl
    ensures key in Exec(s, es, c).cache && Exec(s, es, c).cache[key] == s.cache[key]
    decreases |es|
  {
    if es != [] {
      TimePasses(s, es, c);
      EntryStays(s, es[0], c, key);
      LiveEntryStays(Apply(s, es[0], c), es[1..], c, key);
    }
  }

  /**
    A stored plaintext is served: any lookup of its ciphertext less than the time to live after
    the put, with no other put between, returns it.
   */
  lemma StoredIsServed(s: State, put: Event, es: seq<Event>, c: Config, id: CallId)
    requires Enabled(s, put, c) && put.Put? && Legal(Apply(s, put, c), es, c) && NoPuts(es)
    requires var f := Exec(Apply(s, put, c), es, c); f.now < s.now + c.ttl && id !in f.calls
    ensures var f := Exec(Apply(s, put, c), es, c);
            var reply := s.calls[put.id].reply;
            Returned(f, Get(id, reply.ciphertext), c) == Some((reply.ciphertext, reply.plaintext))
  {
    hide Survivors;
    LiveEntryStays(Apply(s, put, c), es, c, s.calls[put.id].reply.ciphertext);
  }

  // ---- A reply is stored at most once ----

  function Puts(es: seq<Event>): nat {
    if es == [] then 0 else (if es[0].Put? then 1 else 0) + Puts(es[1..])
  }

  function Replies(es: seq<Event>): nat {
    if es == [] then 0 else (if es[0].Decrypted? then 1 else 0) + Replies(es[1..])
  }

  ghost function Held(s: State): set<CallId> {
    set id | id in s.calls && s.calls[id].Holding?
  }

  lemma HeldAfter(s: State, e: Event, c: Config)
    requires Enabled(s, e, c)
    ensures Held(Apply(s, e, c)) ==
            if e.Decrypted? then Held(s) + {e.id} else if e.Put? || e.Failed? then Held(s) - {e.id} else Held(s)
    ensures e.Put? ==> e.id in Held(s)
  {
  }

  lemma StepHeld(s: State, e: Event, c: Config)
    requires Enabled(s, e, c)
    ensures |Held(Apply(s, e, c))| <= |Held(s)| + (if e.Decrypted? then 1 else 0) - (if e.Put? then 1 else 0)
  {
    hide Held, Apply, Enabled;
    HeldAfter(s, e, c);
  }

  /** Over any run there are no more puts than replies of the service: none is stored twice. */
  lemma {:induction false} PutsAtMostReplies(s: State, es: seq<Event>, c: Config)
    requires Legal(s, es, c)
    ensures Puts(es) + |Held(Exec(s, es, c))| <= Replies(es) + |Held(s)|
    decreases |es|
  {
    if es != [] {
      StepHeld(s, es[0], c);
      PutsAtMostReplies(Apply(s, es[0], c), es[1..], c);
    }
  }

  // ---- The size of the cache ----

  lemma StepKeepsSize(s: State, e: Event, c: Config)
    requires |s.cache| <= c.maxEntries && c.maxEntries >= 2 && Enabled(s, e, c)
    ensures |Apply(s, e, c).cache| <= c.maxEntries
  {
  }

  lemma {:induction false} RunKeepsSize(s: State, es: seq<Event>, c: Config)
    requires |s.cache| <= c.maxEntries && c.maxEntries >= 2 && Legal(s, es, c)
    ensures |Exec(s, es, c).cache| <= c.maxEntries
    decreases |es|
  {
    if es != [] {
      StepKeepsSize(s, es[0], c);
      RunKeepsSize(Apply(s, es[0], c), es[1..], c);
    }
  }

  lemma RunCons(s: State, e: Event, es: seq<Event>, c: Config)
    requires Enabled(s, e, c) && Legal(Apply(s, e, c), es, c)
    ensures Legal(s, [e] + es, c) && Exec(s, [e] + es, c) == Exec(Apply(s, e, c), es, c)
  {
  }

  function Stored(s: State, key: Bytes, kept: Cache): State {
    s.(cache := kept[key := Entry([], s.now)], replies := s.replies + {Reply(key, [], s.now)})
  }

  function Asked(s: State, id: CallId, key: Bytes): State {
    s.(calls := s.calls[id := Asking(key)])
  }

  function Told(s: State, id: CallId, key: Bytes): State {
    var reply := Reply(key, [], s.now);
    s.(calls := s.calls[id := Holding(reply)], replies := s.replies + {reply})
  }

  lemma MissAsks(s: State, id: CallId, key: Bytes, c: Config)
    requires id !in s.calls && key !in s.cache
    ensures Apply(s, Get(id, key), c) == Asked(s, id, key)
  {
    assert s.cache - {key} == s.cache;
  }

  lemma AskedIsTold(s: State, id: CallId, key: Bytes, c: Config)
    ensures Apply(Asked(s, id, key), Decrypted(id, []), c) == Told(s, id, key)
  {
    var reply := Reply(key, [], s.now);
    assert s.calls[id := Asking(key)][id := Holding(reply)] == s.calls[id := Holding(reply)];
  }

  lemma ToldIsStored(s: State, id: CallId, key: Bytes, kept: Cache, c: Config)
    requires id !in s.calls && Survivors(s.cache, kept, c.maxEntries)
    ensures Enabled(Told(s, id, key), Put(id, kept), c)
    ensures Apply(Told(s, id, key), Put(id, kept), c) == Stored(s, key, kept)
  {
    hide Survivors;
    assert Told(s, id, key).calls - {id} == s.calls;
  }

  /** A call that misses, is answered and stores the answer, ahead of the run `rest`. */
  lemma MissRun(s: State, id: CallId, key: Bytes, kept: Cache, c: Config, rest: seq<Event>) returns (es: seq<Event>)
    requires id !in s.calls && key !in s.cache && Survivors(s.cache, kept, c.maxEntries)
    requires Legal(Stored(s, key, kept), rest, c)
    ensures Legal(s, es, c) && Exec(s, es, c) == Exec(Stored(s, key, kept), rest, c)
  {
    hide Survivors, Legal, Exec, Apply, Stored;
    var e0, e1, e2 := Get(id, key), Decrypted(id, []), Put(id, kept);
    MissAsks(s, id, key, c);
    AskedIsTold(s, id, key, c);
    ToldIsStored(s, id, key, kept, c);
    RunCons(Told(s, id, key), e2, rest, c);
    RunCons(Asked(s, id, key), e1, [e2] + rest, c);
    RunCons(s, e0, [e1] + ([e2] + rest), c);
    es := [e0] + ([e1] + ([e2] + rest));
  }

  /** With room for fewer than two entries, half of the limit is none, and puts drop nothing. */
  lemma TinyCacheOverflows(c: Config) returns (es: seq<Event>)
    requires c.maxEntries < 2
    ensures Legal(Init(0), es, c) && |Exec(Init(0), es, c).cache| > c.maxEntries
  {
    var one := Stored(Init(0), [0], map[]);
    var two := Stored(one, [1], one.cache);
    assert two.cache.Keys == {[0], [1]};
    assert Survivors(one.cache, one.cache, c.maxEntries) && Survivors(map[], map[], c.maxEntries);
    assert Exec(two, [], c) == two;
    es := MissRun(one, 1, [1], one.cache, c, []);
    es := MissRun(Init(0), 0, [0], map[], c, es);
  }

  /** The limit is kept in every run exactly if it is at least two. */
  lemma SizeBoundedIff(c: Config)
    ensures (forall es :: Legal(Init(0), es, c) ==> |Exec(Init(0), es, c).cache| <= c.maxEntries) <==> c.maxEntries >= 2
  {
    if c.maxEntries >= 2 {
      forall es | Legal(Init(0), es, c)
        ensures |Exec(Init(0), es, c).cache| <= c.maxEntries
      {
        RunKeepsSize(Init(0), es, c);
      }
    } else {
      var es := TinyCacheOverflows(c);
    }
  }
}
