/**
  Stale-while-revalidate reads of one cache key by many processes. A step is one cache command,
  one answer of the loader, or time passing; commands may fail and processes may die at any
  point. Times are in milliseconds on one clock, and a stored envelope's timestamp is taken at
  the instant it is stored.
 */
module Swr {
  import opened Basics

  type Pid = nat
  type Value = string

  datatype Config = Config(freshTtl: nat, hardTtl: nat, lockTtl: nat)

  /** What the key holds: an envelope, or text that does not deserialize. */
  datatype Content = Envelope(ts: int, payload: Value) | Unreadable

  datatype Entry = Entry(content: Content, expiresAt: int)

  /** The lock key. The code stores no owner; the model records it to say whose lock it is. */
  datatype Lock = Lock(owner: Pid, expiresAt: int)

  /**
    Where a call of `get_or_load` (or a background refresh) stands. A polling call has `left`
    polls to go, has waited since `from`, and has slept since `last`.
   */
  datatype Proc =
    | Reading
    | Bypassing
    | LoadingDirectly
    | Contending(background: bool)
    | Loading(background: bool, since: int)
    | Storing(background: bool, since: int, value: Value)
    | Releasing(background: bool, since: int, result: Option<Value>)
    | Polling(left: nat, from: int, last: int)
    | LoadingLast
    | StoringLate(value: Value)

  /** `loaded` and `stored` are history: what loaders yielded, and what was stored when. */
  datatype State = State(
    now: int,
    cache: Option<Entry>,
    lock: Option<Lock>,
    procs: map<Pid, Proc>,
    loaded: set<Value>,
    stored: set<(Value, int)>)

  datatype Event =
    | Call(p: Pid, bypass: bool)
    | Get(p: Pid, ok: bool, refresher: Pid)
    | TryLock(p: Pid, ok: bool)
    | Loaded(p: Pid, result: Option<Value>)
    | Store(p: Pid, ok: bool)
    | Del(p: Pid, ok: bool)
    | Poll(p: Pid, ok: bool)
    | Crash(p: Pid)
    | Evict
    | Clobber(ttl: nat)
    | Tick(millis: nat)

  datatype Answer = Pending | Failed | Served(value: Value, cached: bool)

  const POLL_INTERVAL: nat := 25

  function MaxPolls(cfg: Config): (n: nat)
    ensures n >= 1 && 25 * n <= Max(cfg.lockTtl, 25) < 25 * (n + 1)
  {
    Max(cfg.lockTtl / POLL_INTERVAL, 1)
  }

  function Init(now: int): State {
    State(now, None, None, map[], {}, {})
  }

  // ---- The key and the lock ----

  function Visible(s: State): Option<Content> {
    if s.cache.Some? && s.now < s.cache.value.expiresAt then Some(s.cache.value.content) else None
  }

  predicate LockLive(s: State) {
    s.lock.Some? && s.now < s.lock.value.expiresAt
  }

  function Age(ts: int, now: int): nat {
    if now > ts then now - ts else 0
  }

  predicate IsEnvelope(c: Option<Content>) {
    c.Some? && c.value.Envelope?
  }

  predicate IsFresh(c: Option<Content>, cfg: Config, now: int) {
    IsEnvelope(c) && Age(c.value.ts, now) < cfg.freshTtl
  }

  function Written(s: State, v: Value, cfg: Config): State {
    s.(cache := Some(Entry(Envelope(s.now, v), s.now + cfg.hardTtl)), stored := s.stored + {(v, s.now)})
  }

  function At(s: State, p: Pid, proc: Proc): State {
    s.(procs := s.procs[p := proc])
  }

  function Gone(s: State, p: Pid): State {
    s.(procs := s.procs - {p})
  }

  // ---- Steps ----

  predicate Enabled(s: State, e: Event, cfg: Config) {
    match e
    case Call(p, _) => p !in s.procs
    case Get(p, _, refresher) => p in s.procs && s.procs[p].Reading? && refresher !in s.procs
    case TryLock(p, _) => p in s.procs && s.procs[p].Contending?
    case Loaded(p, _) =>
      p in s.procs && (s.procs[p].Bypassing? || s.procs[p].LoadingDirectly? || s.procs[p].Loading? || s.procs[p].LoadingLast?)
    case Store(p, ok) => p in s.procs && (s.procs[p].Storing? || s.procs[p].StoringLate?) && (ok ==> cfg.hardTtl > 0)
    case Del(p, _) => p in s.procs && s.procs[p].Releasing?
    case Poll(p, _) => p in s.procs && s.procs[p].Polling? && s.now >= s.procs[p].last + POLL_INTERVAL
    case Crash(p) => p in s.procs
    case Evict => true
    case Clobber(_) => true
    case Tick(_) => true
  }

  /** `SET NX` succeeds if the command does and no live lock is there; a zero expiry is refused. */
  predicate Wins(s: State, e: Event, cfg: Config) {
    e.TryLock? && e.ok && cfg.lockTtl > 0 && !LockLive(s)
  }

  function AfterGet(s: State, p: Pid, ok: bool, refresher: Pid, cfg: Config): State {
    if !ok then At(s, p, LoadingDirectly)
    else if IsFresh(Visible(s), cfg, s.now) then Gone(s, p)
    else if IsEnvelope(Visible(s)) then At(Gone(s, p), refresher, Contending(true))
    else At(s, p, Contending(false))
  }

  function AfterTryLock(s: State, p: Pid, wins: bool, cfg: Config): State
    requires p in s.procs && s.procs[p].Contending?
  {
    var background := s.procs[p].background;
    if wins then At(s, p, Loading(background, s.now)).(lock := Some(Lock(p, s.now + cfg.lockTtl)))
    else if background then Gone(s, p)
    else At(s, p, Polling(MaxPolls(cfg), s.now, s.now))
  }

  function AfterLoaded(s: State, p: Pid, result: Option<Value>): State
    requires p in s.procs
  {
    var t := if result.Some? then s.(loaded := s.loaded + {result.value}) else s;
    match s.procs[p]
    case Loading(background, since) =>
      if result.Some? then At(t, p, Storing(background, since, result.value)) else At(t, p, Releasing(background, since, None))
    case Bypassing => if result.Some? then At(t, p, StoringLate(result.value)) else Gone(t, p)
    case LoadingLast => if result.Some? then At(t, p, StoringLate(result.value)) else Gone(t, p)
    case _ => Gone(t, p)
  }

  function AfterStore(s: State, p: Pid, ok: bool, cfg: Config): State
    requires p in s.procs && (s.procs[p].Storing? || s.procs[p].StoringLate?)
  {
    var v := s.procs[p].value;
    var t := if ok then Written(s, v, cfg) else s;
    if s.procs[p].Storing? then At(t, p, Releasing(s.procs[p].background, s.procs[p].since, Some(v))) else Gone(t, p)
  }

  function AfterPoll(s: State, p: Pid, ok: bool, cfg: Config): State
    requires p in s.procs && s.procs[p].Polling?
  {
    var left := s.procs[p].left;
    if ok && IsFresh(Visible(s), cfg, s.now) then Gone(s, p)
    else if left > 1 then At(s, p, Polling(left - 1, s.procs[p].from, s.now))
    else At(s, p, LoadingLast)
  }

  function Apply(s: State, e: Event, cfg: Config): State
    requires Enabled(s, e, cfg)
  {
    match e
    case Call(p, bypass) => At(s, p, if bypass then Bypassing else Reading)
    case Get(p, ok, refresher) => AfterGet(s, p, ok, refresher, cfg)
    case TryLock(p, _) => AfterTryLock(s, p, Wins(s, e, cfg), cfg)
    case Loaded(p, result) => AfterLoaded(s, p, result)
    case Store(p, ok) => AfterStore(s, p, ok, cfg)
    case Del(p, ok) => if ok then Gone(s, p).(lock := None) else Gone(s, p)
    case Poll(p, ok) => AfterPoll(s, p, ok, cfg)
    case Crash(p) => Gone(s, p)
    case Evict => s.(cache := None)
    case Clobber(ttl) => s.(cache := Some(Entry(Unreadable, s.now + ttl)))
    case Tick(d) => s.(now := s.now + d)
  }

  /** What the step hands to the caller of `get_or_load`. */
  function Answered(s: State, e: Event, cfg: Config): Answer
    requires Enabled(s, e, cfg)
  {
    match e
    case Get(p, ok, _) => if ok && IsEnvelope(Visible(s)) then Served(Visible(s).value.payload, true) else Pending
    case Poll(p, ok) => if ok && IsFresh(Visible(s), cfg, s.now) then Served(Visible(s).value.payload, true) else Pending
    case Loaded(p, result) =>
      if s.procs[p].LoadingDirectly? then (if result.Some? then Served(result.value, false) else Failed)
      else if s.procs[p].Loading? || result.Some? then Pending
      else Failed
    case Store(p, _) => if s.procs[p].StoringLate? then Served(s.procs[p].value, false) else Pending
    case Del(p, _) =>
      if s.procs[p].background then Pending
      else if s.procs[p].result.Some? then Served(s.procs[p].result.value, false)
      else Failed
    case _ => Pending
  }

  ghost predicate Legal(s: State, es: seq<Event>, cfg: Config)
    decreases |es|
  {
    es == [] || (Enabled(s, es[0], cfg) && Legal(Apply(s, es[0], cfg), es[1..], cfg))
  }

  ghost function Exec(s: State, es: seq<Event>, cfg: Config): State
    requires Legal(s, es, cfg)
    decreases |es|
  {
    if es == [] then s else Exec(Apply(s, es[0], cfg), es[1..], cfg)
  }

  // ---- Single flight ----

  /** Between winning the lock and deleting it. */
  predicate InSection(s: State, p: Pid) {
    p in s.procs && (s.procs[p].Loading? || s.procs[p].Storing? || s.procs[p].Releasing?)
  }

  ghost predicate LockInv(s: State, cfg: Config) {
    forall p :: InSection(s, p) ==> s.lock == Some(Lock(p, s.procs[p].since + cfg.lockTtl))
  }

  /** Nobody has held the lock for longer than it lives. */
  ghost predicate Timely(s: State, cfg: Config) {
    forall p :: InSection(s, p) ==> s.now < s.procs[p].since + cfg.lockTtl
  }

  ghost predicate Exclusive(s: State) {
    forall p, q :: InSection(s, p) && InSection(s, q) ==> p == q
  }

  lemma LockInvExcludes(s: State, cfg: Config)
    requires LockInv(s, cfg)
    ensures Exclusive(s)
  {
  }

  lemma StepKeepsLockInv(s: State, e: Event, cfg: Config)
    requires LockInv(s, cfg) && Enabled(s, e, cfg) && (Wins(s, e, cfg) ==> Timely(s, cfg))
    ensures LockInv(Apply(s, e, cfg), cfg)
  {
    var t := Apply(s, e, cfg);
    assert e.Del? ==> InSection(s, e.p);
    forall q | InSection(t, q)
      ensures t.lock == Some(Lock(q, t.procs[q].since + cfg.lockTtl))
    {
      assert !(e.TryLock? && e.p == q) ==> InSection(s, q) && s.procs[q].since == t.procs[q].since;
    }
  }

  /** Whenever somebody wins the lock, nobody is in the section past the life of a lock. */
  ghost predicate TimelyWins(s: State, es: seq<Event>, cfg: Config)
    requires Legal(s, es, cfg)
    decreases |es|
  {
    es != [] ==> (Wins(s, es[0], cfg) ==> Timely(s, cfg)) && TimelyWins(Apply(s, es[0], cfg), es[1..], cfg)
  }

  /** In every state of the run at most one process is in the section. */
  ghost predicate AlwaysExclusive(s: State, es: seq<Event>, cfg: Config)
    requires Legal(s, es, cfg)
    decreases |es|
  {
    Exclusive(s) && (es != [] ==> AlwaysExclusive(Apply(s, es[0], cfg), es[1..], cfg))
  }

  lemma {:induction false} RunKeepsLockInv(s: State, es: seq<Event>, cfg: Config)
    requires LockInv(s, cfg) && Legal(s, es, cfg) && TimelyWins(s, es, cfg)
    ensures LockInv(Exec(s, es, cfg), cfg)
    decreases |es|
  {
    if es != [] {
      StepKeepsLockInv(s, es[0], cfg);
      RunKeepsLockInv(Apply(s, es[0], cfg), es[1..], cfg);
    }
  }

  /**
    If holders are timely, then in every interleaving of miss winners and refreshers at most one
    process is between winning the lock and deleting it, the lock is its own, and live as long as
    it should be, and the next delete by a process removes no one else's.
   */
  lemma SingleFlight(now: int, es: seq<Event>, cfg: Config)
    requires Legal(Init(now), es, cfg) && TimelyWins(Init(now), es, cfg)
    ensures var s := Exec(Init(now), es, cfg);
            && Exclusive(s)
            && (forall p :: InSection(s, p) ==>
                  && s.lock.Some? && s.lock.value.owner == p
                  && (LockLive(s) <==> s.now < s.procs[p].since + cfg.lockTtl))
            && (forall e :: Enabled(s, e, cfg) && e.Del? ==> s.lock.Some? && s.lock.value.owner == e.p)
  {
    RunKeepsLockInv(Init(now), es, cfg);
    var s := Exec(Init(now), es, cfg);
    LockInvExcludes(s, cfg);
    forall e | Enabled(s, e, cfg) && e.Del?
      ensures s.lock.Some? && s.lock.value.owner == e.p
    {
      assert InSection(s, e.p);
    }
  }

  lemma LateWinBreaksExclusion(s: State, e: Event, cfg: Config)
    requires Enabled(s, e, cfg) && Wins(s, e, cfg) && !Timely(s, cfg)
    ensures !Exclusive(Apply(s, e, cfg))
  {
    var p :| InSection(s, p) && s.now >= s.procs[p].since + cfg.lockTtl;
    assert InSection(Apply(s, e, cfg), p) && InSection(Apply(s, e, cfg), e.p) && p != e.p;
  }

  /**
    Timeliness is exactly what is needed. A run never has two processes in the section if and
    only if, whenever the lock is won in it, nobody in the section has overrun the lock.
   */
  lemma {:induction false} ExclusiveIffTimelyWins(s: State, es: seq<Event>, cfg: Config)
    requires LockInv(s, cfg) && Legal(s, es, cfg)
    ensures AlwaysExclusive(s, es, cfg) <==> TimelyWins(s, es, cfg)
    decreases |es|
  {
    LockInvExcludes(s, cfg);
    if es != [] {
      var t := Apply(s, es[0], cfg);
      if Wins(s, es[0], cfg) && !Timely(s, cfg) {
        LateWinBreaksExclusion(s, es[0], cfg);
        assert !AlwaysExclusive(t, es[1..], cfg);
      } else {
        StepKeepsLockInv(s, es[0], cfg);
        ExclusiveIffTimelyWins(t, es[1..], cfg);
      }
    }
  }

  lemma SingleFlightIff(now: int, es: seq<Event>, cfg: Config)
    requires Legal(Init(now), es, cfg)
    ensures AlwaysExclusive(Init(now), es, cfg) <==> TimelyWins(Init(now), es, cfg)
  {
    ExclusiveIffTimelyWins(Init(now), es, cfg);
  }

  /** The section is left by a delete, after success and after a failed load alike, or by dying in it. */
  lemma LeavingReleases(s: State, e: Event, cfg: Config, p: Pid)
    requires Enabled(s, e, cfg) && InSection(s, p) && !InSection(Apply(s, e, cfg), p)
    ensures e == Crash(p) || (e.Del? && e.p == p && (e.ok ==> Apply(s, e, cfg).lock == None))
  {
  }

  /** No lock lives longer than `lock_ttl` from now on, whoever set it. */
  ghost predicate LockBounded(s: State, cfg: Config) {
    s.lock.Some? ==> s.lock.value.expiresAt <= s.now + cfg.lockTtl
  }

  lemma {:induction false} RunKeepsLockBounded(s: State, es: seq<Event>, cfg: Config)
    requires LockBounded(s, cfg) && Legal(s, es, cfg)
    ensures LockBounded(Exec(s, es, cfg), cfg)
    decreases |es|
  {
    if es != [] {
      RunKeepsLockBounded(Apply(s, es[0], cfg), es[1..], cfg);
    }
  }

  /** So a lock left behind, by death or a failed delete, in any run, holds nobody up for longer. */
  lemma AbandonedLockExpires(now: int, es: seq<Event>, cfg: Config, waited: nat)
    requires Legal(Init(now), es, cfg) && waited >= cfg.lockTtl
    ensures !LockLive(Apply(Exec(Init(now), es, cfg), Tick(waited), cfg))
  {
    RunKeepsLockBounded(Init(now), es, cfg);
  }

  lemma RunCons(s: State, e: Event, es: seq<Event>, cfg: Config)
    requires Enabled(s, e, cfg) && Legal(Apply(s, e, cfg), es, cfg)
    ensures Legal(s, [e] + es, cfg) && Exec(s, [e] + es, cfg) == Exec(Apply(s, e, cfg), es, cfg)
  {
    assert ([e] + es)[1..] == es;
  }

  /** Nobody wins the lock of a process that still holds it; past its life anybody does. */
  lemma SecondEntryIffOverrun(s: State, cfg: Config, p: Pid, q: Pid)
    requires LockInv(s, cfg) && InSection(s, p) && cfg.lockTtl > 0
    requires q in s.procs && s.procs[q].Contending?
    ensures var t := Apply(s, TryLock(q, true), cfg);
            && (Exclusive(t) <==> s.now < s.procs[p].since + cfg.lockTtl)
            && (!Exclusive(t) && s.procs[p].Releasing? ==>
                  InSection(Apply(t, Del(p, true), cfg), q) && Apply(t, Del(p, true), cfg).lock == None)
  {
    var t := Apply(s, TryLock(q, true), cfg);
    assert InSection(t, p) && t.procs[p] == s.procs[p];
    if s.now < s.procs[p].since + cfg.lockTtl {
      assert LockLive(s);
      StepKeepsLockInv(s, TryLock(q, true), cfg);
      LockInvExcludes(t, cfg);
    } else {
      assert InSection(t, q);
    }
  }

  /** Two callers, both past a miss. */
  function TwoContenders(): State {
    Init(0).(procs := map[0 := Contending(false), 1 := Contending(false)])
  }

  lemma ReachTwoContenders(cfg: Config, rest: seq<Event>) returns (es: seq<Event>)
    requires Legal(TwoContenders(), rest, cfg)
    ensures Legal(Init(0), es, cfg) && Exec(Init(0), es, cfg) == Exec(TwoContenders(), rest, cfg)
  {
    var s0 := Init(0);
    var s1 := s0.(procs := map[0 := Reading]);
    var s2 := s0.(procs := map[0 := Contending(false)]);
    var s3 := s0.(procs := map[0 := Contending(false), 1 := Reading]);
    var e0, e1, e2, e3 := Call(0, false), Get(0, true, 2), Call(1, false), Get(1, true, 2);
    assert Apply(s0, e0, cfg) == s1 && Apply(s1, e1, cfg) == s2;
    assert Apply(s2, e2, cfg) == s3 && Apply(s3, e3, cfg) == TwoContenders();
    RunCons(s3, e3, rest, cfg);
    RunCons(s2, e2, [e3] + rest, cfg);
    RunCons(s1, e1, [e2] + ([e3] + rest), cfg);
    RunCons(s0, e0, [e1] + ([e2] + ([e3] + rest)), cfg);
    es := [e0] + ([e1] + ([e2] + ([e3] + rest)));
  }

  /**
    Whatever the lock's life, a run from the start has two processes in the section: one wins,
    its loader takes that long, and the other wins. Then the first one deletes the other's lock.
   */
  lemma SlowLoaderAdmitsTwo(cfg: Config) returns (es: seq<Event>)
    requires cfg.lockTtl > 0
    ensures Legal(Init(0), es, cfg)
    ensures var s := Exec(Init(0), es, cfg); InSection(s, 0) && InSection(s, 1) && !Exclusive(s)
    ensures var s := Exec(Init(0), es, cfg);
            s.lock.Some? && s.lock.value.owner == 1 && Enabled(s, Del(0, true), cfg) && Apply(s, Del(0, true), cfg).lock == None
  {
    var s0, e0, e1, e2, e3 := TwoContenders(), TryLock(0, true), Tick(cfg.lockTtl), TryLock(1, true), Loaded(0, None);
    var s1 := Apply(s0, e0, cfg);
    var s2 := Apply(s1, e1, cfg);
    var s3 := Apply(s2, e2, cfg);
    var s4 := Apply(s3, e3, cfg);
    assert InSection(s4, 0) && InSection(s4, 1);
    RunCons(s3, e3, [], cfg);
    RunCons(s2, e2, [e3] + [], cfg);
    RunCons(s1, e1, [e2] + ([e3] + []), cfg);
    RunCons(s0, e0, [e1] + ([e2] + ([e3] + [])), cfg);
    es := ReachTwoContenders(cfg, [e0] + ([e1] + ([e2] + ([e3] + []))));
  }

  // ---- Others leave a process alone ----

  predicate Involves(e: Event, p: Pid) {
    !(e.Evict? || e.Clobber? || e.Tick?) && (e.p == p || (e.Get? && e.refresher == p))
  }

  lemma OthersUntouched(s: State, e: Event, cfg: Config, q: Pid)
    requires Enabled(s, e, cfg) && !Involves(e, q)
    ensures q in Apply(s, e, cfg).procs <==> q in s.procs
    ensures q in s.procs ==> Apply(s, e, cfg).procs[q] == s.procs[q]
  {
  }

  ghost predicate NoneInvolves(es: seq<Event>, p: Pid) {
    forall i :: 0 <= i < |es| ==> !Involves(es[i], p)
  }

  lemma {:induction false} RunLeavesAlone(s: State, es: seq<Event>, cfg: Config, p: Pid)
    requires Legal(s, es, cfg) && NoneInvolves(es, p) && p in s.procs
    ensures p in Exec(s, es, cfg).procs && Exec(s, es, cfg).procs[p] == s.procs[p]
    decreases |es|
  {
    if es != [] {
      OthersUntouched(s, es[0], cfg, p);
      RunLeavesAlone(Apply(s, es[0], cfg), es[1..], cfg, p);
    }
  }

  // ---- Transparency ----

  predicate Holds(proc: Proc, v: Value) {
    || ((proc.Storing? || proc.StoringLate?) && proc.value == v)
    || (proc.Releasing? && proc.result == Some(v))
  }

  ghost predicate DataInv(s: State, cfg: Config) {
    && (forall p, v :: p in s.procs && Holds(s.procs[p], v) ==> v in s.loaded)
    && (forall v, t :: (v, t) in s.stored ==> v in s.loaded && t <= s.now)
    && (s.cache.Some? && s.cache.value.content.Envelope? ==>
          var c := s.cache.value.content;
          (c.payload, c.ts) in s.stored && s.cache.value.expiresAt == c.ts + cfg.hardTtl)
    && (forall p :: p in s.procs && s.procs[p].Polling? ==> 1 <= s.procs[p].left <= MaxPolls(cfg))
  }

  lemma StepKeepsPending(s: State, e: Event, cfg: Config, p: Pid)
    requires DataInv(s, cfg) && Enabled(s, e, cfg) && p in Apply(s, e, cfg).procs
    ensures forall v :: Holds(Apply(s, e, cfg).procs[p], v) ==> v in Apply(s, e, cfg).loaded
    ensures var proc := Apply(s, e, cfg).procs[p];
            proc.Polling? ==> 1 <= proc.left <= MaxPolls(cfg)
  {
  }

  lemma StepKeepsDataInv(s: State, e: Event, cfg: Config)
    requires DataInv(s, cfg) && Enabled(s, e, cfg)
    ensures DataInv(Apply(s, e, cfg), cfg)
  {
    var t := Apply(s, e, cfg);
    forall p | p in t.procs
      ensures forall v :: Holds(t.procs[p], v) ==> v in t.loaded
      ensures t.procs[p].Polling? ==> 1 <= t.procs[p].left <= MaxPolls(cfg)
    {
      StepKeepsPending(s, e, cfg, p);
    }
    if e.Store? {
      assert Holds(s.procs[e.p], s.procs[e.p].value);
    }
  }

  lemma {:induction false} RunKeepsDataInv(s: State, es: seq<Event>, cfg: Config)
    requires DataInv(s, cfg) && Legal(s, es, cfg)
    ensures DataInv(Exec(s, es, cfg), cfg)
    decreases |es|
  {
    if es != [] {
      StepKeepsDataInv(s, es[0], cfg);
      RunKeepsDataInv(Apply(s, es[0], cfg), es[1..], cfg);
    }
  }

  /**
    In every run, timely or not, with any failures, expiries, evictions and deaths: a value that
    a call returns was yielded by a loader.
   */
  lemma AnswersComeFromLoaders(now: int, es: seq<Event>, cfg: Config, e: Event)
    requires Legal(Init(now), es, cfg) && Enabled(Exec(Init(now), es, cfg), e, cfg)
    ensures var s := Exec(Init(now), es, cfg);
            Answered(s, e, cfg).Served? ==> Answered(s, e, cfg).value in Apply(s, e, cfg).loaded
  {
    RunKeepsDataInv(Init(now), es, cfg);
    var s := Exec(Init(now), es, cfg);
    if e.Store? {
      assert Holds(s.procs[e.p], s.procs[e.p].value);
    } else if e.Del? && s.procs[e.p].result.Some? {
      assert Holds(s.procs[e.p], s.procs[e.p].result.value);
    }
  }

  /** So with a loader that always yields `v`, the cache cannot be told apart from calling it. */
  lemma ConstantLoaderIsTransparent(now: int, es: seq<Event>, cfg: Config, e: Event, v: Value)
    requires Legal(Init(now), es, cfg) && Enabled(Exec(Init(now), es, cfg), e, cfg)
    requires Apply(Exec(Init(now), es, cfg), e, cfg).loaded <= {v}
    ensures var answer := Answered(Exec(Init(now), es, cfg), e, cfg); answer.Served? ==> answer.value == v
  {
    AnswersComeFromLoaders(now, es, cfg, e);
  }

  /** A cached answer was stored less than `hard_ttl` ago; one that ends polling, less than `fresh_ttl` ago. */
  lemma CachedAnswerIsRecent(now: int, es: seq<Event>, cfg: Config, e: Event)
    requires Legal(Init(now), es, cfg) && Enabled(Exec(Init(now), es, cfg), e, cfg)
    requires var answer := Answered(Exec(Init(now), es, cfg), e, cfg); answer.Served? && answer.cached
    ensures var s := Exec(Init(now), es, cfg);
            exists t :: (Answered(s, e, cfg).value, t) in s.stored
                        && t <= s.now < t + cfg.hardTtl
                        && (e.Poll? ==> s.now < t + cfg.freshTtl)
  {
    RunKeepsDataInv(Init(now), es, cfg);
    var s := Exec(Init(now), es, cfg);
    var c := s.cache.value.content;
    assert (Answered(s, e, cfg).value, c.ts) in s.stored;
  }

  // ---- Reads, refreshes and what they find ----

  /**
    A read of a live envelope answers with its payload. It starts a background refresh exactly if
    the envelope is at least `fresh_ttl` old.
   */
  lemma ReadRefreshesIffStale(s: State, cfg: Config, p: Pid, r: Pid)
    requires DataInv(s, cfg) && Enabled(s, Get(p, true, r), cfg)
    requires s.cache.Some? && s.cache.value.content.Envelope? && s.now < s.cache.value.expiresAt
    ensures var c, t := s.cache.value.content, Apply(s, Get(p, true, r), cfg);
            && Answered(s, Get(p, true, r), cfg) == Served(c.payload, true)
            && t.cache == s.cache && t.lock == s.lock && t.now == s.now
            && (s.now >= c.ts + cfg.freshTtl ==> r in t.procs && t.procs[r] == Contending(true))
            && (s.now < c.ts + cfg.freshTtl ==> r !in t.procs)
  {
  }

  /** A read that finds nothing live, or nothing it can read, goes on to contend for the lock. */
  lemma MissContends(s: State, cfg: Config, p: Pid, r: Pid)
    requires Enabled(s, Get(p, true, r), cfg)
    requires s.cache.Some? && s.now < s.cache.value.expiresAt ==> s.cache.value.content.Unreadable?
    ensures var t := Apply(s, Get(p, true, r), cfg);
            Answered(s, Get(p, true, r), cfg) == Pending && p in t.procs && t.procs[p] == Contending(false)
  {
  }

  /** A poll ends the wait exactly if it finds an envelope that is live and less than `fresh_ttl` old. */
  lemma PollAnswersIffFresh(s: State, cfg: Config, p: Pid)
    requires DataInv(s, cfg) && Enabled(s, Poll(p, true), cfg)
    ensures var found := && s.cache.Some? && s.cache.value.content.Envelope? && s.now < s.cache.value.expiresAt
                         && s.now < s.cache.value.content.ts + cfg.freshTtl;
            && (found ==> Answered(s, Poll(p, true), cfg) == Served(s.cache.value.content.payload, true))
            && (!found ==> Answered(s, Poll(p, true), cfg) == Pending)
            && (found <==> p !in Apply(s, Poll(p, true), cfg).procs)
  {
  }

  /** A store writes the value with the present time, to live for `hard_ttl`. */
  lemma StoreWrites(s: State, cfg: Config, p: Pid)
    requires Enabled(s, Store(p, true), cfg)
    ensures Apply(s, Store(p, true), cfg).cache == Some(Entry(Envelope(s.now, s.procs[p].value), s.now + cfg.hardTtl))
  {
  }

  /**
    A contender, whatever others do in between: if it wins the lock, loads `v` and stores it, the
    key holds `v`, stamped with the time of the store, and lives for `hard_ttl` from then.
   */
  lemma WinnerStoresWhatItLoads(s: State, cfg: Config, r: Pid, v: Value, idle: seq<Event>, during: seq<Event>, before: seq<Event>)
    requires r in s.procs && s.procs[r].Contending? && cfg.hardTtl > 0
    requires Legal(s, idle, cfg) && NoneInvolves(idle, r)
    requires var s1 := Exec(s, idle, cfg);
             && Enabled(s1, TryLock(r, true), cfg) && Wins(s1, TryLock(r, true), cfg)
             && Legal(Apply(s1, TryLock(r, true), cfg), during, cfg) && NoneInvolves(during, r)
    requires var s2 := Exec(Apply(Exec(s, idle, cfg), TryLock(r, true), cfg), during, cfg);
             && Enabled(s2, Loaded(r, Some(v)), cfg)
             && Legal(Apply(s2, Loaded(r, Some(v)), cfg), before, cfg) && NoneInvolves(before, r)
    ensures var s2 := Exec(Apply(Exec(s, idle, cfg), TryLock(r, true), cfg), during, cfg);
            var s3 := Exec(Apply(s2, Loaded(r, Some(v)), cfg), before, cfg);
            && Enabled(s3, Store(r, true), cfg)
            && Apply(s3, Store(r, true), cfg).cache == Some(Entry(Envelope(s3.now, v), s3.now + cfg.hardTtl))
  {
    hide Legal, Exec;
    var s1 := Exec(s, idle, cfg);
    RunLeavesAlone(s, idle, cfg, r);
    RunLeavesAlone(Apply(s1, TryLock(r, true), cfg), during, cfg, r);
    var s2 := Exec(Apply(s1, TryLock(r, true), cfg), during, cfg);
    RunLeavesAlone(Apply(s2, Loaded(r, Some(v)), cfg), before, cfg, r);
    StoreWrites(Exec(Apply(s2, Loaded(r, Some(v)), cfg), before, cfg), cfg, r);
  }

  /** Nothing in the run writes or removes the cache key. */
  ghost predicate KeyUntouched(es: seq<Event>) {
    forall i :: 0 <= i < |es| ==> !(es[i].Store? || es[i].Evict? || es[i].Clobber?)
  }

  lemma {:induction false} KeyStays(s: State, es: seq<Event>, cfg: Config)
    requires Legal(s, es, cfg) && KeyUntouched(es)
    ensures Exec(s, es, cfg).cache == s.cache
    decreases |es|
  {
    if es != [] {
      KeyStays(Apply(s, es[0], cfg), es[1..], cfg);
    }
  }

  /**
    What is stored is served. After any run that does not touch the key, a read within `hard_ttl`
    of the store returns the stored value, and refreshes it if `fresh_ttl` has passed.
   */
  lemma StoredIsServed(s: State, cfg: Config, p: Pid, es: seq<Event>, q: Pid, r: Pid)
    requires DataInv(s, cfg) && Enabled(s, Store(p, true), cfg)
    requires Legal(Apply(s, Store(p, true), cfg), es, cfg) && KeyUntouched(es)
    requires var f := Exec(Apply(s, Store(p, true), cfg), es, cfg);
             Enabled(f, Get(q, true, r), cfg) && f.now < s.now + cfg.hardTtl
    ensures var f := Exec(Apply(s, Store(p, true), cfg), es, cfg);
            && Answered(f, Get(q, true, r), cfg) == Served(s.procs[p].value, true)
            && (r in Apply(f, Get(q, true, r), cfg).procs <==> f.now >= s.now + cfg.freshTtl)
  {
    hide Legal, Exec, DataInv;
    var t := Apply(s, Store(p, true), cfg);
    StoreWrites(s, cfg, p);
    KeyStays(t, es, cfg);
    StepKeepsDataInv(s, Store(p, true), cfg);
    RunKeepsDataInv(t, es, cfg);
    ReadRefreshesIffStale(Exec(t, es, cfg), cfg, q, r);
  }

  // ---- How long a caller polls ----

  /** A poll comes at most `slack` later than its sleep asks for. */
  predicate PollsWithin(s: State, e: Event, cfg: Config, slack: nat)
    requires Enabled(s, e, cfg)
  {
    e.Poll? ==> s.now <= s.procs[e.p].last + POLL_INTERVAL + slack
  }

  ghost predicate Punctual(s: State, es: seq<Event>, cfg: Config, slack: nat)
    requires Legal(s, es, cfg)
    decreases |es|
  {
    es == [] || (PollsWithin(s, es[0], cfg, slack) && Punctual(Apply(s, es[0], cfg), es[1..], cfg, slack))
  }

  /** `polls` sleeps, each late by at most `slack`. */
  function Longest(polls: nat, slack: nat): nat {
    polls * (POLL_INTERVAL + slack)
  }

  lemma LongestNext(polls: nat, slack: nat)
    ensures Longest(polls + 1, slack) == Longest(polls, slack) + POLL_INTERVAL + slack
  {
  }

  ghost predicate PollOk(proc: Proc, cfg: Config, slack: nat) {
    proc.Polling? ==>
      && 1 <= proc.left <= MaxPolls(cfg)
      && var polls := MaxPolls(cfg) - proc.left;
      POLL_INTERVAL * polls <= proc.last - proc.from <= Longest(polls, slack)
  }

  ghost predicate PollInv(s: State, cfg: Config, slack: nat) {
    forall p :: p in s.procs ==> PollOk(s.procs[p], cfg, slack)
  }

  lemma NextPollOk(proc: Proc, cfg: Config, slack: nat, now: int)
    requires proc.Polling? && proc.left > 1 && PollOk(proc, cfg, slack)
    requires POLL_INTERVAL <= now - proc.last <= POLL_INTERVAL + slack
    ensures PollOk(Polling(proc.left - 1, proc.from, now), cfg, slack)
  {
    hide Longest;
    LongestNext(MaxPolls(cfg) - proc.left, slack);
  }

  lemma StepKeepsPollInv(s: State, e: Event, cfg: Config, slack: nat)
    requires PollInv(s, cfg, slack) && Enabled(s, e, cfg) && PollsWithin(s, e, cfg, slack)
    ensures PollInv(Apply(s, e, cfg), cfg, slack)
  {
    hide PollOk;
    if e.Poll? && s.procs[e.p].left > 1 {
      NextPollOk(s.procs[e.p], cfg, slack, s.now);
    }
    var t := Apply(s, e, cfg);
    forall p | p in t.procs
      ensures PollOk(t.procs[p], cfg, slack)
    {
      if t.procs[p].Polling? {
        if !(p in s.procs && t.procs[p] == s.procs[p]) && e.TryLock? {
          FirstPollOk(s.now, cfg, slack);
        }
      } else {
        NotPollingOk(t.procs[p], cfg, slack);
      }
    }
  }

  lemma FirstPollOk(now: int, cfg: Config, slack: nat)
    ensures PollOk(Polling(MaxPolls(cfg), now, now), cfg, slack)
  {
  }

  lemma NotPollingOk(proc: Proc, cfg: Config, slack: nat)
    requires !proc.Polling?
    ensures PollOk(proc, cfg, slack)
  {
  }

  lemma {:induction false} RunKeepsPollInv(s: State, es: seq<Event>, cfg: Config, slack: nat)
    requires PollInv(s, cfg, slack) && Legal(s, es, cfg) && Punctual(s, es, cfg, slack)
    ensures PollInv(Exec(s, es, cfg), cfg, slack)
    decreases |es|
  {
    if es != [] {
      StepKeepsPollInv(s, es[0], cfg, slack);
      RunKeepsPollInv(Apply(s, es[0], cfg), es[1..], cfg, slack);
    }
  }

  /**
    In every run whose polls are late by at most `slack`: when a caller that lost the race polls
    for the k-th time, at least 25 k and at most (25 + slack) k milliseconds have passed on the
    clock, and k is at most the number of polls. Without slack that is max(lock_ttl, 25 ms).
   */
  lemma PollingIsBounded(now: int, es: seq<Event>, cfg: Config, slack: nat, e: Event)
    requires Legal(Init(now), es, cfg) && Punctual(Init(now), es, cfg, slack)
    requires var s := Exec(Init(now), es, cfg); Enabled(s, e, cfg) && e.Poll? && PollsWithin(s, e, cfg, slack)
    ensures var s := Exec(Init(now), es, cfg);
            var k, elapsed := MaxPolls(cfg) - s.procs[e.p].left + 1, s.now - s.procs[e.p].from;
            && 1 <= k <= MaxPolls(cfg)
            && POLL_INTERVAL * k <= elapsed <= (POLL_INTERVAL + slack) * k
            && (slack == 0 ==> elapsed <= Max(cfg.lockTtl, POLL_INTERVAL))
  {
    RunKeepsPollInv(Init(now), es, cfg, slack);
    var proc := Exec(Init(now), es, cfg).procs[e.p];
    assert PollOk(proc, cfg, slack);
    LongestNext(MaxPolls(cfg) - proc.left, slack);
  }

  /**
    In every run, a caller that lost the race loads for itself only when it has waited for as many
    whole intervals as fit into `lock_ttl`, and at least one.
   */
  lemma GivesUpOnlyAfterWaiting(now: int, es: seq<Event>, cfg: Config, slack: nat, e: Event)
    requires Legal(Init(now), es, cfg) && Punctual(Init(now), es, cfg, slack)
    requires var s := Exec(Init(now), es, cfg);
             Enabled(s, e, cfg) && e.Poll? && e.p in Apply(s, e, cfg).procs && Apply(s, e, cfg).procs[e.p].LoadingLast?
    ensures var s := Exec(Init(now), es, cfg);
            var elapsed := s.now - s.procs[e.p].from;
            elapsed >= 25 && elapsed > cfg.lockTtl - 25
  {
    RunKeepsPollInv(Init(now), es, cfg, slack);
    assert PollOk(Exec(Init(now), es, cfg).procs[e.p], cfg, slack);
  }

  // ---- No call takes forever ----

  /** More than the steps a process has left. */
  function Rank(proc: Proc, cfg: Config): nat {
    match proc
    case Reading => MaxPolls(cfg) + 5
    case Contending(_) => MaxPolls(cfg) + 4
    case Polling(left, _, _) => left + 3
    case Loading(_, _) => 3
    case Bypassing => 3
    case LoadingLast => 3
    case Storing(_, _, _) => 2
    case StoringLate(_) => 2
    case LoadingDirectly => 1
    case Releasing(_, _, _) => 1
  }

  predicate StepOf(e: Event, p: Pid) {
    (e.Get? || e.TryLock? || e.Loaded? || e.Store? || e.Del? || e.Poll?) && e.p == p
  }

  /** Every step of a process brings it closer to its end, and no other step touches it. */
  lemma EachStepCounts(s: State, e: Event, cfg: Config, p: Pid)
    requires DataInv(s, cfg) && Enabled(s, e, cfg) && p in s.procs && e != Crash(p)
    ensures StepOf(e, p) && p in Apply(s, e, cfg).procs ==> Rank(Apply(s, e, cfg).procs[p], cfg) < Rank(s.procs[p], cfg)
    ensures !StepOf(e, p) ==> p in Apply(s, e, cfg).procs && Apply(s, e, cfg).procs[p] == s.procs[p]
  {
  }

  /** Steps of `p` in a run in which it is not killed and not called again. */
  function StepsOf(es: seq<Event>, p: Pid): nat {
    if es == [] then 0 else (if StepOf(es[0], p) then 1 else 0) + StepsOf(es[1..], p)
  }

  ghost predicate Leaves(es: seq<Event>, p: Pid) {
    forall i :: 0 <= i < |es| ==> es[i] != Crash(p) && !(es[i].Call? && es[i].p == p) && !(es[i].Get? && es[i].refresher == p)
  }

  lemma {:induction false} CallEndsWithinRank(s: State, es: seq<Event>, cfg: Config, p: Pid)
    requires DataInv(s, cfg) && Legal(s, es, cfg) && Leaves(es, p)
    ensures StepsOf(es, p) <= if p in s.procs then Rank(s.procs[p], cfg) else 0
    decreases |es|
  {
    if es != [] {
      StepKeepsDataInv(s, es[0], cfg);
      if p in s.procs {
        EachStepCounts(s, es[0], cfg, p);
      }
      CallEndsWithinRank(Apply(s, es[0], cfg), es[1..], cfg, p);
    }
  }
}
