/**
  `get_or_load` and the background refresh, statement by statement, over the shared keys. At
  every await other processes take any steps they can; the outcomes of commands and loaders are
  parameters. A ghost trace records the steps, and every execution of the code is shown to be a
  run of the protocol in `Swr`, so what is proved of runs there holds of this code.
 */
module SwrCalls {
  import opened Basics
  import opened Swr

  lemma {:induction false} RunSnoc(s: State, es: seq<Event>, e: Event, cfg: Config)
    requires Legal(s, es, cfg) && Enabled(Exec(s, es, cfg), e, cfg)
    ensures Legal(s, es + [e], cfg) && Exec(s, es + [e], cfg) == Apply(Exec(s, es, cfg), e, cfg)
    decreases |es|
  {
    if es == [] {
      assert ([e])[1..] == [];
    } else {
      assert (es + [e])[1..] == es[1..] + [e];
      RunSnoc(Apply(s, es[0], cfg), es[1..], e, cfg);
    }
  }

  /** What the awaits of one call return, and what the other processes do meanwhile. */
  datatype Io = Io(
    getOk: bool,
    lockOk: bool,
    loaded: Option<Value>,
    storeOk: bool,
    delOk: bool,
    pollOk: nat -> bool,
    others: nat -> seq<Event>)

  lemma OnlyTicksPassTime(s: State, e: Event, cfg: Config)
    requires Enabled(s, e, cfg)
    ensures Apply(s, e, cfg).now == s.now + if e.Tick? then e.millis else 0
  {
  }

  class Cluster {
    const cfg: Config
    var now: int
    var cache: Option<Entry>
    var lock: Option<Lock>
    var procs: map<Pid, Proc>
    var loaded: set<Value>
    var stored: set<(Value, int)>
    ghost const start: int
    ghost var trace: seq<Event>

    function Now(): State
      reads this
    {
      State(now, cache, lock, procs, loaded, stored)
    }

    /** The present state is where the recorded run leads. */
    ghost predicate Valid()
      reads this
    {
      Legal(Init(start), trace, cfg) && Exec(Init(start), trace, cfg) == Now()
    }

    /** The last step of the run was one of `p`, and it gave `p`'s caller this answer. */
    ghost predicate Concluded(p: Pid, answer: Answer)
      reads this
    {
      && |trace| > 0
      && var before, e := trace[..|trace| - 1], trace[|trace| - 1];
      && StepOf(e, p)
      && Legal(Init(start), before, cfg)
      && Enabled(Exec(Init(start), before, cfg), e, cfg)
      && Answered(Exec(Init(start), before, cfg), e, cfg) == answer
    }

    /** The key holds a live envelope with this payload. */
    predicate FoundInCache(v: Value)
      reads this
    {
      cache.Some? && cache.value.content.Envelope? && cache.value.content.payload == v && now < cache.value.expiresAt
    }

    constructor (cfg: Config, now: int)
      ensures Valid() && trace == [] && this.cfg == cfg && Now() == Init(now)
    {
      this.cfg, this.now, this.start := cfg, now, now;
      cache, lock, procs, loaded, stored, trace := None, None, map[], {}, {}, [];
    }

    ghost method Log(e: Event, before: State)
      requires Legal(Init(start), trace, cfg) && Exec(Init(start), trace, cfg) == before
      requires Enabled(before, e, cfg) && Now() == Apply(before, e, cfg)
      modifies `trace
      ensures Valid() && trace == old(trace) + [e]
      ensures forall p :: StepOf(e, p) ==> Concluded(p, Answered(before, e, cfg))
    {
      RunSnoc(Init(start), trace, e, cfg);
      trace := trace + [e];
      assert trace[..|trace| - 1] == old(trace);
    }

    // ---- One step each ----

    method Begin(p: Pid, bypass: bool)
      requires Valid() && p !in procs
      modifies this
      ensures Valid() && old(trace) < trace && Now() == Apply(old(Now()), Call(p, bypass), cfg)
    {
      ghost var before := Now();
      procs := procs[p := if bypass then Bypassing else Reading];
      Log(Call(p, bypass), before);
    }

    /** The first read of the key: `None` when the command fails. */
    method Read(p: Pid, ok: bool, refresher: Pid) returns (raw: Option<Option<Content>>)
      requires Valid() && p in procs && procs[p].Reading? && refresher !in procs
      modifies this
      ensures Valid() && old(trace) < trace && Now() == Apply(old(Now()), Get(p, ok, refresher), cfg)
      ensures raw == (if ok then Some(Visible(old(Now()))) else None)
      ensures Concluded(p, Answered(old(Now()), Get(p, ok, refresher), cfg))
    {
      ghost var before := Now();
      var live := cache.Some? && now < cache.value.expiresAt;
      raw := if !ok then None else if live then Some(Some(cache.value.content)) else Some(None);
      procs := AfterGet(Now(), p, ok, refresher, cfg).procs;
      Log(Get(p, ok, refresher), before);
    }

    method SetNx(p: Pid, ok: bool) returns (got: bool)
      requires Valid() && p in procs && procs[p].Contending?
      modifies this
      ensures Valid() && old(trace) < trace && Now() == Apply(old(Now()), TryLock(p, ok), cfg)
      ensures got == Wins(old(Now()), TryLock(p, ok), cfg)
      ensures Concluded(p, Pending)
    {
      ghost var before := Now();
      got := ok && cfg.lockTtl > 0 && !(lock.Some? && now < lock.value.expiresAt);
      procs := AfterTryLock(Now(), p, got, cfg).procs;
      if got {
        lock := Some(Lock(p, now + cfg.lockTtl));
      }
      Log(TryLock(p, ok), before);
    }

    method Load(p: Pid, result: Option<Value>)
      requires Valid() && Enabled(Now(), Loaded(p, result), cfg)
      modifies this
      ensures Valid() && old(trace) < trace && Now() == Apply(old(Now()), Loaded(p, result), cfg)
      ensures Concluded(p, Answered(old(Now()), Loaded(p, result), cfg))
    {
      ghost var before := Now();
      procs := AfterLoaded(Now(), p, result).procs;
      if result.Some? {
        loaded := loaded + {result.value};
      }
      Log(Loaded(p, result), before);
    }

    /** `SET PX`; a zero expiry is refused. */
    method Set(p: Pid, v: Value, ok: bool)
      requires Valid() && p in procs && (procs[p].Storing? || procs[p].StoringLate?) && procs[p].value == v
      modifies this
      ensures Valid() && old(trace) < trace
      ensures Now() == Apply(old(Now()), Store(p, ok && cfg.hardTtl > 0), cfg)
      ensures Concluded(p, Answered(old(Now()), Store(p, ok && cfg.hardTtl > 0), cfg))
    {
      ghost var before := Now();
      var done := ok && cfg.hardTtl > 0;
      procs := AfterStore(Now(), p, done, cfg).procs;
      if done {
        cache := Some(Entry(Envelope(now, v), now + cfg.hardTtl));
        stored := stored + {(v, now)};
      }
      Log(Store(p, done), before);
    }

    method Unlock(p: Pid, ok: bool)
      requires Valid() && p in procs && procs[p].Releasing?
      modifies this
      ensures Valid() && old(trace) < trace && Now() == Apply(old(Now()), Del(p, ok), cfg)
      ensures Concluded(p, Answered(old(Now()), Del(p, ok), cfg))
    {
      ghost var before := Now();
      if ok {
        lock := None;
      }
      procs := procs - {p};
      Log(Del(p, ok), before);
    }

    /** A read while polling, after the sleep: a failed one tells nothing. */
    method Reread(p: Pid, ok: bool) returns (raw: Option<Content>)
      requires Valid() && Enabled(Now(), Poll(p, ok), cfg)
      modifies this
      ensures Valid() && old(trace) < trace && Now() == Apply(old(Now()), Poll(p, ok), cfg)
      ensures raw == (if ok then Visible(old(Now())) else None)
      ensures Concluded(p, Answered(old(Now()), Poll(p, ok), cfg))
    {
      ghost var before := Now();
      var live := ok && cache.Some? && now < cache.value.expiresAt;
      raw := if live then Some(cache.value.content) else None;
      procs := AfterPoll(Now(), p, ok, cfg).procs;
      Log(Poll(p, ok), before);
    }

    /** Whatever of `es` other processes can do, and time passing. */
    method Await(es: seq<Event>, p: Pid, refresher: Pid)
      requires Valid() && p in procs
      modifies this
      ensures Valid() && old(trace) <= trace && old(now) <= now
      ensures p in procs && procs[p] == old(procs[p])
      ensures refresher in procs <==> refresher in old(procs)
    {
      for i := 0 to |es|
        invariant Valid() && old(trace) <= trace && old(now) <= now
        invariant p in procs && procs[p] == old(procs[p])
        invariant refresher in procs <==> refresher in old(procs)
      {
        if !Involves(es[i], p) && !Involves(es[i], refresher) && Enabled(Now(), es[i], cfg) {
          TakeStep(es[i]);
        }
      }
    }

    method TakeStep(e: Event)
      requires Valid() && Enabled(Now(), e, cfg)
      modifies this
      ensures Valid() && old(trace) <= trace
      ensures now == old(now) + if e.Tick? then e.millis else 0
      ensures forall q :: !Involves(e, q) ==> (q in procs <==> q in old(procs))
      ensures forall q :: !Involves(e, q) && q in procs ==> procs[q] == old(procs[q])
    {
      ghost var before := Now();
      hide Apply;
      var after := Apply(Now(), e, cfg);
      OnlyTicksPassTime(Now(), e, cfg);
      forall q | !Involves(e, q)
        ensures q in after.procs <==> q in procs
        ensures q in after.procs ==> after.procs[q] == procs[q]
      {
        OthersUntouched(Now(), e, cfg, q);
      }
      now, cache, lock := after.now, after.cache, after.lock;
      procs, loaded, stored := after.procs, after.loaded, after.stored;
      Log(e, before);
    }

    /** What is proved of answers in runs, for the answer of a call. */
    lemma ConcludedAnswer(p: Pid, answer: Answer)
      requires Valid() && Concluded(p, answer)
      ensures answer.Served? ==> answer.value in loaded
      ensures answer.Served? && answer.cached ==>
                exists t :: (answer.value, t) in stored && t <= now < t + cfg.hardTtl
    {
      var before, e := trace[..|trace| - 1], trace[|trace| - 1];
      assert trace == before + [e];
      RunSnoc(Init(start), before, e, cfg);
      AnswersComeFromLoaders(start, before, cfg, e);
      if answer.Served? && answer.cached {
        CachedAnswerIsRecent(start, before, cfg, e);
      }
    }

    lemma StampIsPast()
      requires Valid()
      ensures cache.Some? && cache.value.content.Envelope? ==> cache.value.content.ts <= now
    {
      RunKeepsDataInv(Init(start), trace, cfg);
    }

    // ---- The calls ----

    /** Load, store and answer, without the lock: a bypass, or the last resort. */
    method LoadLate(p: Pid, q: Pid, io: Io) returns (answer: Answer)
      requires Valid() && p in procs && (procs[p].Bypassing? || procs[p].LoadingLast?)
      modifies this
      ensures q != p ==> (q in procs <==> q in old(procs))
      ensures Valid() && old(trace) < trace && p !in procs && Concluded(p, answer)
      ensures answer == if io.loaded.Some? then Served(io.loaded.value, false) else Failed
    {
      hide Valid, Concluded;
      Await(io.others(2), p, q);
      Load(p, io.loaded);
      if io.loaded.None? {
        return Failed;
      }
      Await(io.others(3), p, q);
      Set(p, io.loaded.value, io.storeOk);
      return Served(io.loaded.value, false);
    }

    /** From winning the lock to deleting it, whether or not the load succeeds, for a caller or a refresher. */
    method LoadLocked(p: Pid, q: Pid, io: Io)
      requires Valid() && p in procs && procs[p].Loading?
      modifies this
      ensures q != p ==> (q in procs <==> q in old(procs))
      ensures Valid() && old(trace) < trace && p !in procs
      ensures io.delOk ==> lock == None
      ensures var answer := if io.loaded.Some? then Served(io.loaded.value, false) else Failed;
              Concluded(p, if old(procs[p]).background then Pending else answer)
    {
      hide Valid, Concluded;
      Await(io.others(2), p, q);
      Load(p, io.loaded);
      Await(io.others(3), p, q);
      if io.loaded.Some? {
        Set(p, io.loaded.value, io.storeOk);
        Await(io.others(4), p, q);
      }
      Unlock(p, io.delOk);
    }

    /** The bounded wait of a caller that lost the race. */
    method PollForFresh(p: Pid, q: Pid, io: Io) returns (answer: Answer)
      requires Valid() && p in procs && procs[p].Polling? && procs[p].left == MaxPolls(cfg) && procs[p].last <= now
      modifies this
      ensures q != p ==> (q in procs <==> q in old(procs))
      ensures Valid() && old(trace) < trace
      ensures answer != Pending ==> answer.Served? && answer.cached && p !in procs && Concluded(p, answer)
      ensures answer != Pending ==> FoundInCache(answer.value) && Age(cache.value.content.ts, now) < cfg.freshTtl
      ensures answer == Pending ==> p in procs && procs[p].LoadingLast?
    {
      hide Valid, Concluded;
      var maxPolls := if cfg.lockTtl / 25 >= 1 then cfg.lockTtl / 25 else 1;
      for i := 0 to maxPolls
        invariant Valid() && old(trace) <= trace && (i > 0 ==> old(trace) < trace)
        invariant p in procs && (q != p ==> (q in procs <==> q in old(procs)))
        invariant i < maxPolls ==> procs[p].Polling? && procs[p].left == maxPolls - i && procs[p].last <= now
        invariant i == maxPolls ==> procs[p].LoadingLast?
      {
        TakeStep(Tick(25));
        Await(io.others(5 + i), p, q);
        var at := now;
        var raw := Reread(p, io.pollOk(i));
        if raw.Some? && raw.value.Envelope? {
          var age := if at > raw.value.ts then at - raw.value.ts else 0;
          if age < cfg.freshTtl {
            return Served(raw.value.payload, true);
          }
        }
      }
      return Pending;
    }

    /**
      A call of `get_or_load` under arbitrary interference ends, and what it returns is the
      answer that the last step of the recorded run gives.
     */
    method GetOrLoad(p: Pid, refresher: Pid, bypass: bool, io: Io) returns (answer: Answer)
      requires Valid() && p != refresher && p !in procs && refresher !in procs
      modifies this
      ensures Valid() && old(trace) < trace && p !in procs
      ensures answer != Pending && Concluded(p, answer)
      ensures bypass || !io.getOk ==> answer == if io.loaded.Some? then Served(io.loaded.value, false) else Failed
      ensures answer.Served? && !answer.cached ==> io.loaded == Some(answer.value)
      ensures answer.Failed? ==> io.loaded.None?
      ensures answer.Served? && answer.cached ==> FoundInCache(answer.value)
      ensures refresher in procs <==>
                answer.Served? && answer.cached && FoundInCache(answer.value) && now >= cache.value.content.ts + cfg.freshTtl
      ensures refresher in procs ==> procs[refresher] == Contending(true)
      ensures answer.Served? ==> answer.value in loaded
      ensures answer.Served? && answer.cached ==>
                exists t :: (answer.value, t) in stored && t <= now < t + cfg.hardTtl
    {
      answer := Serve(p, refresher, bypass, io);
      ConcludedAnswer(p, answer);
      StampIsPast();
    }

    method Serve(p: Pid, refresher: Pid, bypass: bool, io: Io) returns (answer: Answer)
      requires Valid() && p != refresher && p !in procs && refresher !in procs
      modifies this
      ensures Valid() && old(trace) < trace && p !in procs
      ensures answer != Pending && Concluded(p, answer)
      ensures bypass || !io.getOk ==> answer == if io.loaded.Some? then Served(io.loaded.value, false) else Failed
      ensures answer.Served? && !answer.cached ==> io.loaded == Some(answer.value)
      ensures answer.Failed? ==> io.loaded.None?
      ensures answer.Served? && answer.cached ==> FoundInCache(answer.value)
      ensures refresher in procs <==> answer.Served? && answer.cached && FoundInCache(answer.value) && Age(cache.value.content.ts, now) >= cfg.freshTtl
      ensures refresher in procs ==> procs[refresher] == Contending(true)
    {
      hide Valid, Concluded;
      Begin(p, bypass);
      if bypass {
        answer := LoadLate(p, refresher, io);
        return;
      }
      Await(io.others(0), p, refresher);
      var at := now;
      var raw := Read(p, io.getOk, refresher);
      if raw.None? {
        Await(io.others(1), p, refresher);
        Load(p, io.loaded);
        return if io.loaded.Some? then Served(io.loaded.value, false) else Failed;
      }
      if raw.value.Some? && raw.value.value.Envelope? {
        var envelope := raw.value.value;
        var age := if at > envelope.ts then at - envelope.ts else 0;
        if age < cfg.freshTtl {
          return Served(envelope.payload, true);
        }
        return Served(envelope.payload, true);
      }
      answer := Miss(p, refresher, io);
    }

    method Miss(p: Pid, q: Pid, io: Io) returns (answer: Answer)
      requires Valid() && p in procs && procs[p] == Contending(false)
      modifies this
      ensures q != p ==> (q in procs <==> q in old(procs))
      ensures Valid() && old(trace) < trace && p !in procs
      ensures answer != Pending && Concluded(p, answer)
      ensures answer.Served? && !answer.cached ==> io.loaded == Some(answer.value)
      ensures answer.Served? && answer.cached ==> FoundInCache(answer.value) && Age(cache.value.content.ts, now) < cfg.freshTtl
      ensures answer.Failed? ==> io.loaded.None?
    {
      Await(io.others(1), p, q);
      var got := SetNx(p, io.lockOk);
      if got {
        LoadLocked(p, q, io);
        return if io.loaded.Some? then Served(io.loaded.value, false) else Failed;
      }
      answer := PollForFresh(p, q, io);
      if answer == Pending {
        answer := LoadLate(p, q, io);
      }
    }

    /** The spawned refresh: nothing for losers, a locked load for the winner, no answer either way. */
    method Refresh(p: Pid, io: Io)
      requires Valid() && p in procs && procs[p] == Contending(true)
      modifies this
      ensures Valid() && old(trace) < trace && p !in procs && Concluded(p, Pending)
    {
      Await(io.others(1), p, p);
      var got := SetNx(p, io.lockOk);
      if got {
        LoadLocked(p, p, io);
      }
    }
  }
}
