/** When retries start, how long a job lives, and what a sweep of a live job does. */
module JobTiming {
  import opened Basics
  import opened Jobs
  import opened JobRuns

  // ---- A retry waits for its delay ----

  /** Nobody works on `id`, and unless it was cancelled it may not be claimed before `t`. */
  ghost predicate Waiting(s: State, id: JobId, t: int) {
    && id in s.rows
    && Unheld(s, id)
    && ((s.rows[id].status == Failed && s.rows[id].runAt >= t) || s.rows[id].status == Cancelled)
  }

  lemma StepKeepsWaiting(s: State, e: Event, id: JobId, t: int)
    requires Waiting(s, id, t) && Enabled(s, e, Unrestricted) && !Claims(e, id)
    ensures Waiting(Apply(s, e), id, t)
  {
    if e.Finish? {
      assert !Holds(s, e.worker, id);
    }
    forall w
      ensures !Holds(Apply(s, e), w, id)
    {
      assert !Holds(s, w, id);
    }
  }

  lemma {:induction false} RunKeepsWaiting(s: State, es: seq<Event>, m: Sweeps, id: JobId, t: int)
    requires Waiting(s, id, t) && Legal(s, es, m) && ClaimCount(es, id) == 0
    ensures Waiting(Exec(s, es, m), id, t)
    decreases |es|
  {
    if es != [] {
      StepKeepsWaiting(s, es[0], id, t);
      RunKeepsWaiting(Apply(s, es[0]), es[1..], m, id, t);
    }
  }

  /**
    Attempt k of a job with one worker ends in a retriable failure with attempts left. Whatever
    happens next, the following claim of the job comes at least min(2^k, 3600) seconds later.
   */
  lemma RetryWaits(s: State, w: WorkerId, err: string, es: seq<Event>, m: Sweeps, next: Event)
    requires Inv(s) && Exclusive(s) && w in s.busy && s.busy[w].attempts < s.busy[w].maxAttempts
    requires Legal(Apply(s, Finish(w, Retriable(err), false)), es, m)
    requires ClaimCount(es, s.busy[w].id) == 0
    requires var f := Exec(Apply(s, Finish(w, Retriable(err), false)), es, m);
             Claims(next, s.busy[w].id) && Enabled(f, next, m)
    ensures Exec(Apply(s, Finish(w, Retriable(err), false)), es, m).now
            >= s.now + Min(Pow2(s.busy[w].attempts), 3600) * SECOND
  {
    var c := s.busy[w];
    assert HolderOk(s, w);
    var s1 := Apply(s, Finish(w, Retriable(err), false));
    var t := s.now + BackoffSeconds(c.attempts) * SECOND;
    assert Holds(s, w, c.id);
    assert Waiting(s1, c.id, t) by {
      forall v
        ensures !Holds(s1, v, c.id)
      {
        assert v in s1.busy ==> Holds(s, v, s.busy[v].id);
      }
    }
    RunKeepsWaiting(s1, es, m, c.id, t);
    BackoffClosedForm(c.attempts);
  }

  // ---- How long a job lives ----

  /** The first claim, plus the delays after attempts 1 to k: attempt k + 1 cannot begin sooner. */
  function Earliest(r: Row, k: nat): int {
    r.startedAt.GetOr(0) + TotalBackoff(k) * SECOND
  }

  ghost predicate TimingInv(s: State) {
    && ExclusiveInv(s, true)
    && (forall id :: id in s.rows ==> RowTiming(s.rows[id]))
    && (forall w :: w in s.busy ==> HolderOk(s, w) && HolderTiming(s, w))
  }

  ghost predicate HolderTiming(s: State, w: WorkerId)
    requires w in s.busy && s.busy[w].id in s.rows
  {
    var r := s.rows[s.busy[w].id];
    r.attempts > 0 && s.now >= Earliest(r, r.attempts - 1)
  }

  ghost predicate RowTiming(r: Row) {
    && (r.status == Queued ==> r.attempts == 0)
    && (r.status == Failed ==> r.attempts > 0 && r.runAt >= Earliest(r, r.attempts))
    && (r.status == Done || r.status == Dead ==>
          r.attempts > 0 && r.completedAt.Some? && r.completedAt.value >= Earliest(r, r.attempts - 1))
  }

  lemma FinishKeepsRowTiming(r: Row, c: Claimed, o: Outcome, now: int)
    requires r.attempts > 0 && now >= Earliest(r, r.attempts - 1)
    requires c.attempts == r.attempts <= U32_MAX
    ensures RowTiming(FinishRow(r, c, o, now))
  {
  }

  lemma StepKeepsRowTiming(s: State, e: Event, id: JobId)
    requires TimingInv(s) && Enabled(s, e, Unrestricted) && Enabled(s, e, FreeNothing)
    requires id in Apply(s, e).rows
    ensures RowTiming(Apply(s, e).rows[id])
  {
    hide Earliest;
    if e.Finish? {
      if s.busy[e.worker].id == id {
        hide RowTiming, FinishRow;
        assert HeldRowOk(s, e.worker, true) && HolderOk(s, e.worker);
        FinishKeepsRowTiming(s.rows[id], s.busy[e.worker], e.outcome, s.now);
      }
    } else if e.Sweep? {
      assert !Frees(s, e.staleSecs, id);
    }
  }

  /** While a worker processes a job, nobody else changes what its attempts are counted from. */
  lemma HeldRowKeepsStart(s: State, e: Event, w: WorkerId)
    requires ExclusiveInv(s, true) && Enabled(s, e, Unrestricted)
    requires w in s.busy && w in Apply(s, e).busy
    ensures Apply(s, e).busy[w] == s.busy[w]
    ensures var id := s.busy[w].id;
            && id in Apply(s, e).rows
            && Apply(s, e).rows[id].attempts == s.rows[id].attempts
            && Apply(s, e).rows[id].startedAt == s.rows[id].startedAt
  {
    hide Apply;
    HeldRowStep(s, e, true, w);
  }

  lemma StepKeepsHolderTiming(s: State, e: Event, w: WorkerId)
    requires TimingInv(s) && Enabled(s, e, Unrestricted)
    requires w in Apply(s, e).busy && Apply(s, e).busy[w].id in Apply(s, e).rows
    ensures HolderTiming(Apply(s, e), w)
  {
    hide TotalBackoff;
    if w in s.busy {
      HeldRowKeepsStart(s, e, w);
      assert HolderTiming(s, w);
    } else {
      var r := s.rows[e.pick.value];
      assert RowTiming(r) && RowOk(r, s.now);
      if r.attempts == 0 {
        assert Earliest(ClaimRow(r, w, s.now), 0) == s.now by {
          assert TotalBackoff(0) == 0 by { TotalBackoffClosedForm(0); assert Pow2(1) == 2; }
        }
      }
    }
  }

  lemma {:induction false} RunKeepsTiming(s: State, es: seq<Event>)
    requires TimingInv(s) && Legal(s, es, FreeNothing)
    ensures TimingInv(Exec(s, es, FreeNothing))
    decreases |es|
  {
    if es != [] {
      var t := Apply(s, es[0]);
      StepKeepsExclusive(s, es[0], FreeNothing, true);
      forall id | id in t.rows {
        StepKeepsRowTiming(s, es[0], id);
      }
      forall w | w in t.busy
        ensures HolderOk(t, w) && HolderTiming(t, w)
      {
        assert HolderOk(t, w);
        StepKeepsHolderTiming(s, es[0], w);
      }
      RunKeepsTiming(t, es[1..]);
    }
  }

  /**
    In every run whose sweeps free nothing, a job that is dead after all its attempts was alive
    for at least 2^max - 2 seconds after its first claim if max <= 12, and for at least
    4094 + 3600 * (max - 12) seconds beyond that.
   */
  lemma ExhaustedJobLifetime(now: int, es: seq<Event>, id: JobId)
    requires Legal(Init(now), es, FreeNothing)
    requires var s := Exec(Init(now), es, FreeNothing);
             id in s.rows && s.rows[id].status == Dead && s.rows[id].attempts == s.rows[id].maxAttempts
    ensures var r := Exec(Init(now), es, FreeNothing).rows[id];
            && r.startedAt.Some? && r.completedAt.Some? && r.maxAttempts >= 1
            && (r.maxAttempts <= 12 ==>
                  r.completedAt.value - r.startedAt.value >= (Pow2(r.maxAttempts) - 2) * SECOND)
            && (r.maxAttempts >= 12 ==>
                  r.completedAt.value - r.startedAt.value >= (4094 + 3600 * (r.maxAttempts - 12)) * SECOND)
  {
    RunKeepsTiming(Init(now), es);
    var r := Exec(Init(now), es, FreeNothing).rows[id];
    assert RowTiming(r) && RowOk(r, Exec(Init(now), es, FreeNothing).now);
    TotalBackoffClosedForm(r.maxAttempts - 1);
  }

  /** Every finish of job `id` in the run is a retriable failure. */
  ghost predicate OnlyRetriable(s: State, es: seq<Event>, m: Sweeps, id: JobId)
    requires Legal(s, es, m)
    decreases |es|
  {
    es != [] ==>
      && (es[0].Finish? && Holds(s, es[0].worker, id) ==> es[0].outcome.Retriable?)
      && OnlyRetriable(Apply(s, es[0]), es[1..], m, id)
  }

  ghost predicate DeadIsExhausted(s: State, id: JobId) {
    id in s.rows && s.rows[id].status == Dead ==> s.rows[id].attempts == s.rows[id].maxAttempts
  }

  lemma StepKeepsDeadExhausted(s: State, e: Event, id: JobId)
    requires ExclusiveInv(s, true) && Enabled(s, e, Unrestricted) && DeadIsExhausted(s, id)
    requires e.Finish? && Holds(s, e.worker, id) ==> e.outcome.Retriable?
    ensures DeadIsExhausted(Apply(s, e), id)
  {
    if e.Finish? {
      assert HeldRowOk(s, e.worker, true) && HolderOk(s, e.worker);
      assert RowOk(s.rows[s.busy[e.worker].id], s.now);
    }
  }

  /** A job that dies by retriable failures alone dies after all its attempts. */
  lemma {:induction false} RetriableDeathExhausts(s: State, es: seq<Event>, m: Sweeps, id: JobId)
    requires ExclusiveInv(s, true) && Spares(m, true) && DeadIsExhausted(s, id)
    requires Legal(s, es, m) && OnlyRetriable(s, es, m, id)
    ensures DeadIsExhausted(Exec(s, es, m), id)
    decreases |es|
  {
    if es != [] {
      StepKeepsExclusive(s, es[0], m, true);
      StepKeepsDeadExhausted(s, es[0], id);
      RetriableDeathExhausts(Apply(s, es[0]), es[1..], m, id);
    }
  }

  /** So that is how long such a job lives. */
  lemma RetriableJobLifetime(now: int, es: seq<Event>, id: JobId)
    requires Legal(Init(now), es, FreeNothing) && OnlyRetriable(Init(now), es, FreeNothing, id)
    requires var s := Exec(Init(now), es, FreeNothing); id in s.rows && s.rows[id].status == Dead
    ensures var r := Exec(Init(now), es, FreeNothing).rows[id];
            && r.startedAt.Some? && r.completedAt.Some? && r.maxAttempts >= 1
            && (r.maxAttempts <= 12 ==>
                  r.completedAt.value - r.startedAt.value >= (Pow2(r.maxAttempts) - 2) * SECOND)
            && (r.maxAttempts >= 12 ==>
                  r.completedAt.value - r.startedAt.value >= (4094 + 3600 * (r.maxAttempts - 12)) * SECOND)
  {
    RetriableDeathExhausts(Init(now), es, FreeNothing, id);
    ExhaustedJobLifetime(now, es, id);
  }

  // ---- Sweeping a live job ----

  function EligibleIds(s: State, queue: string): set<JobId> {
    set j | j in s.rows && Eligible(s.rows[j], queue, s.now)
  }

  lemma RunCons(s: State, e: Event, es: seq<Event>, m: Sweeps)
    requires Enabled(s, e, Unrestricted) && Enabled(s, e, m) && Legal(Apply(s, e), es, m)
    ensures Legal(s, [e] + es, m) && Exec(s, [e] + es, m) == Exec(Apply(s, e), es, m)
    ensures forall id :: ClaimCount([e] + es, id) == (if Claims(e, id) then 1 else 0) + ClaimCount(es, id)
  {
  }

  /** An idle worker can get at any eligible job, once the jobs ahead of it are cancelled. */
  lemma {:induction false} ClearTheWay(s: State, id: JobId, idle: WorkerId) returns (es: seq<Event>)
    requires id in s.rows && Eligible(s.rows[id], s.rows[id].queue, s.now) && idle !in s.busy
    ensures Legal(s, es, SpareRetryable)
    ensures Holds(Exec(s, es, SpareRetryable), idle, id) && ClaimCount(es, id) > 0
    ensures forall w, j :: Holds(s, w, j) ==> Holds(Exec(s, es, SpareRetryable), w, j)
    decreases |EligibleIds(s, s.rows[id].queue)|
  {
    var q := s.rows[id].queue;
    var e: Event;
    if IsNext(s.rows, q, s.now, id) {
      e := Claim(idle, q, Some(id));
      es := [];
    } else {
      var j :| j in s.rows && Eligible(s.rows[j], q, s.now) && !Before(s.rows[id], s.rows[j]);
      e := Cancel(j, q);
      var t := Apply(s, e);
      assert EligibleIds(t, q) == EligibleIds(s, q) - {j};
      assert j in EligibleIds(s, q);
      es := ClearTheWay(t, id, idle);
      assert forall w, i :: Holds(s, w, i) ==> Holds(t, w, i);
    }
    RunCons(s, e, es, SpareRetryable);
    es := [e] + es;
  }

  /**
    A sweep can lead to two workers on one job exactly when it frees a job whose handler is live
    and that still has attempts left.
   */
  lemma SweepKeepsExclusionIff(s: State, secs: nat, idle: WorkerId)
    requires ExclusiveInv(s, false) && idle !in s.busy
    ensures (forall es :: Legal(Apply(s, Sweep(secs)), es, SpareRetryable) ==>
               Exclusive(Exec(Apply(s, Sweep(secs)), es, SpareRetryable)))
            <==> SweepAllowed(s, secs, SpareRetryable)
  {
    var t := Apply(s, Sweep(secs));
    if SweepAllowed(s, secs, SpareRetryable) {
      StepKeepsExclusive(s, Sweep(secs), SpareRetryable, false);
      forall es | Legal(t, es, SpareRetryable)
        ensures Exclusive(Exec(t, es, SpareRetryable))
      {
        RunKeepsExclusive(t, es, SpareRetryable, false);
      }
    } else {
      var w, id :| Holds(s, w, id) && Frees(s, secs, id) && Left(s.rows[id]) > 0;
      assert RowOk(s.rows[id], s.now);
      var es := ClearTheWay(t, id, idle);
      assert Holds(t, w, id);
      assert !Exclusive(Exec(t, es, SpareRetryable));
    }
  }

  lemma {:induction false} Relax(s: State, es: seq<Event>, m: Sweeps)
    requires Legal(s, es, m)
    ensures Legal(s, es, Unrestricted) && Exec(s, es, Unrestricted) == Exec(s, es, m)
    decreases |es|
  {
    if es != [] {
      Relax(Apply(s, es[0]), es[1..], m);
    }
  }

  /** Such a sweep is reachable: a run from the empty table that ends with two workers on one job. */
  lemma SweptLiveJobRunsTwice() returns (es: seq<Event>)
    ensures Legal(Init(0), es, Unrestricted) && !Exclusive(Exec(Init(0), es, Unrestricted))
  {
    var s0, e0 := Init(0), Enqueue("job", "q", "", EnqueueOptions(None, 0, None, None));
    var s1, e1 := Apply(s0, e0), Claim("w1", "q", Some("job"));
    assert IsNext(s1.rows, "q", s1.now, "job");
    var s2, e2 := Apply(s1, e1), Tick(1);
    var s3, e3 := Apply(s2, e2), Sweep(0);
    var s4 := Apply(s3, e3);
    assert Holds(s4, "w1", "job");
    es := ClearTheWay(s4, "job", "w2");
    Relax(s4, es, SpareRetryable);
    RunCons(s3, e3, es, Unrestricted);
    RunCons(s2, e2, [e3] + es, Unrestricted);
    RunCons(s1, e1, [e2] + ([e3] + es), Unrestricted);
    RunCons(s0, e0, [e1] + ([e2] + ([e3] + es)), Unrestricted);
    es := [e0] + ([e1] + ([e2] + ([e3] + es)));
  }
}
