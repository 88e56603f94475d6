/** What can still happen to a row: whether it is ever claimed again, and what can overwrite it. */
module JobFates {
  import opened Basics
  import opened Jobs
  import opened JobRuns
  import opened JobKeys
  import opened JobTiming

  // ---- Which jobs can still be claimed ----

  /** From any state on, a job is claimed at most as often as it has attempts left. */
  lemma ClaimsAtMostLeft(s: State, es: seq<Event>, m: Sweeps, id: JobId)
    requires Inv(s) && Legal(s, es, m) && id in s.rows
    ensures ClaimCount(es, id) <= Left(s.rows[id])
  {
    RunKeepsInv(s, es, m);
    AttemptsCountClaims(s, es, m, id);
    RowsPersist(s, es, m, id);
    assert RowOk(Exec(s, es, m).rows[id], Exec(s, es, m).now);
  }

  /** An eligible job can be claimed. */
  lemma EligibleIsClaimed(s: State, id: JobId) returns (es: seq<Event>)
    requires id in s.rows && Eligible(s.rows[id], s.rows[id].queue, s.now)
    ensures Legal(s, es, SpareRetryable) && ClaimCount(es, id) > 0
  {
    if s.busy == map[] {
      es := ClearTheWay(s, id, "worker");
    } else {
      var idle :| idle in s.busy;
      es := ClearTheWay(Apply(s, Crash(idle)), id, idle);
      RunCons(s, Crash(idle), es, SpareRetryable);
      es := [Crash(idle)] + es;
    }
  }

  /** Some run from `s` on claims job `id`. */
  ghost predicate Claimable(s: State, id: JobId) {
    exists es :: Legal(s, es, Unrestricted) && ClaimCount(es, id) > 0
  }

  lemma WaitingIsClaimed(s: State, id: JobId)
    requires id in s.rows && s.rows[id].status in {Queued, Failed} && Left(s.rows[id]) > 0
    ensures Claimable(s, id)
  {
    var r := s.rows[id];
    var wait := Tick(if r.runAt > s.now then r.runAt - s.now else 0);
    var t := Apply(s, wait);
    assert t.rows == s.rows && Eligible(r, r.queue, t.now);
    var es := EligibleIsClaimed(t, id);
    hide Legal, Exec, Apply;
    RunCons(s, wait, es, SpareRetryable);
    Relax(s, [wait] + es, SpareRetryable);
    assert ClaimCount([wait] + es, id) > 0;
  }

  /** A queued or failed job is claimed in some run if and only if it has attempts left. */
  lemma ClaimableIff(s: State, id: JobId)
    requires Inv(s) && id in s.rows && s.rows[id].status in {Queued, Failed}
    ensures Claimable(s, id) <==> Left(s.rows[id]) > 0
  {
    hide Legal, Inv;
    if Left(s.rows[id]) > 0 {
      WaitingIsClaimed(s, id);
    } else {
      forall es | Legal(s, es, Unrestricted)
        ensures ClaimCount(es, id) == 0
      {
        ClaimsAtMostLeft(s, es, Unrestricted, id);
      }
    }
  }

  // ---- No job starts early ----

  /** The job is not due before `t`, or `t` has come; and nobody has it before. */
  ghost predicate NotBefore(s: State, id: JobId, t: int) {
    id in s.rows && (s.now < t ==> s.rows[id].runAt >= t && Unheld(s, id))
  }

  lemma StepKeepsNotBefore(s: State, e: Event, id: JobId, t: int)
    requires NotBefore(s, id, t) && Enabled(s, e, Unrestricted)
    ensures NotBefore(Apply(s, e), id, t)
  {
    var s' := Apply(s, e);
    if s'.now < t {
      if e.Finish? {
        assert !Holds(s, e.worker, id);
      }
      forall w
        ensures !Holds(s', w, id)
      {
        assert !Holds(s, w, id);
      }
    }
  }

  lemma {:induction false} RunKeepsNotBefore(s: State, es: seq<Event>, m: Sweeps, id: JobId, t: int)
    requires NotBefore(s, id, t) && Legal(s, es, m)
    ensures NotBefore(Exec(s, es, m), id, t)
    decreases |es|
  {
    if es != [] {
      StepKeepsNotBefore(s, es[0], id, t);
      RunKeepsNotBefore(Apply(s, es[0]), es[1..], m, id, t);
    }
  }

  /** A job enqueued for time `t` is claimed in no run before `t`, the first time or any other. */
  lemma NotClaimedBeforeDue(s: State, e: Event, es: seq<Event>, m: Sweeps, claim: Event)
    requires Inv(s) && e.Enqueue? && e.opts.runAt.Some? && Enabled(s, e, Unrestricted) && !Conflicts(s.rows, e.queue, e.opts)
    requires Legal(Apply(s, e), es, m)
    requires Claims(claim, e.newId) && Enabled(Exec(Apply(s, e), es, m), claim, m)
    ensures Exec(Apply(s, e), es, m).now >= e.opts.runAt.value
  {
    var t := e.opts.runAt.value;
    forall w
      ensures !Holds(Apply(s, e), w, e.newId)
    {
      assert w in s.busy ==> HolderOk(s, w);
    }
    assert NotBefore(Apply(s, e), e.newId, t);
    RunKeepsNotBefore(Apply(s, e), es, m, e.newId, t);
  }

  // ---- How a job ends ----

  /** No attempt is left for a retry. */
  ghost predicate Final(s: State, w: WorkerId, o: Outcome)
    requires w in s.busy && s.busy[w].id in s.rows
  {
    o.Retriable? ==> s.busy[w].attempts >= s.rows[s.busy[w].id].maxAttempts
  }

  /**
    What a finish leaves in the row, column by column: done without an error; dead with the error
    of a permanent failure, a bad payload or the last attempt; or failed and due after the delay.
   */
  lemma FinishWrites(s: State, w: WorkerId, o: Outcome)
    requires Inv(s) && w in s.busy
    ensures s.busy[w].id in s.rows && s.busy[w].id in Apply(s, Finish(w, o, false)).rows
    ensures var t := Apply(s, Finish(w, o, false));
            var r, r' := s.rows[s.busy[w].id], t.rows[s.busy[w].id];
            && w !in t.busy && r'.lockedAt == None && r'.lockedBy == None && r'.attempts == r.attempts
            && (o.Success? ==> r'.status == Done && r'.lastError == None && r'.completedAt == Some(s.now))
            && (!o.Success? ==> r'.lastError == Some(o.err))
            && (!o.Success? && Final(s, w, o) ==> r'.status == Dead && r'.completedAt == Some(s.now))
            && (!Final(s, w, o) ==>
                  && r'.status == Failed && r'.completedAt == r.completedAt
                  && r'.runAt == s.now + Min(Pow2(s.busy[w].attempts), 3600) * 1_000_000)
    ensures forall j :: j in s.rows && j != s.busy[w].id ==>
              j in Apply(s, Finish(w, o, false)).rows && Apply(s, Finish(w, o, false)).rows[j] == s.rows[j]
  {
    assert HolderOk(s, w);
    assert RowOk(s.rows[s.busy[w].id], s.now);
    BackoffClosedForm(s.busy[w].attempts);
  }

  /** In runs whose sweeps free no live job, a row that a finish leaves done or dead stays so. */
  lemma FinishIsFinal(now: int, es: seq<Event>, w: WorkerId, o: Outcome)
    requires Legal(Init(now), es, SpareLive)
    requires var s := Exec(Init(now), es, SpareLive); w in s.busy && s.busy[w].id in s.rows && Final(s, w, o)
    ensures var s := Exec(Init(now), es, SpareLive);
            var t := Apply(s, Finish(w, o, false));
            && s.busy[w].id in t.rows
            && t.rows[s.busy[w].id].status == (if o.Success? then Done else Dead)
            && FrozenForever(t, s.busy[w].id)
  {
    var s := Exec(Init(now), es, SpareLive);
    var id := s.busy[w].id;
    RunKeepsInv(Init(now), es, SpareLive);
    OneWorkerPerJob(now, es);
    FinishWrites(s, w, o);
    var t := Apply(s, Finish(w, o, false));
    assert Holds(s, w, id);
    forall v
      ensures !Holds(t, v, id)
    {
      assert v in t.busy ==> v != w && (Holds(t, v, id) ==> Holds(s, v, id));
    }
    TerminalIsFinalIffUnheld(t, id);
  }

  // ---- What the other steps of a run write ----

  /** An enqueue that finds no row of its pair inserts a queued one: due when asked, else at once; three attempts unless asked. */
  lemma EnqueueWrites(s: State, e: Event)
    requires e.Enqueue? && Enabled(s, e, Unrestricted) && !Conflicts(s.rows, e.queue, e.opts)
    ensures var t := Apply(s, e);
            && t.rows.Keys == s.rows.Keys + {e.newId} && t.now == s.now && t.busy == s.busy
            && var r := t.rows[e.newId];
            && r.queue == e.queue && r.payload == e.payload && r.key == e.opts.key && r.priority == e.opts.priority
            && r.status == Queued && r.attempts == 0 && r.lockedBy == None && r.startedAt == None
            && r.runAt == (if e.opts.runAt.Some? then e.opts.runAt.value else s.now)
            && r.maxAttempts == (if e.opts.maxAttempts.Some? && e.opts.maxAttempts.value <= 0x7FFF_FFFF then e.opts.maxAttempts.value else 3)
  {
  }

  /** A claim locks the row for its worker at that time, counts the attempt, and keeps the first start. */
  lemma ClaimWrites(s: State, w: WorkerId, queue: string, id: JobId)
    requires Enabled(s, Claim(w, queue, Some(id)), Unrestricted)
    ensures var t := Apply(s, Claim(w, queue, Some(id)));
            && t.rows.Keys == s.rows.Keys && (forall j :: j in s.rows && j != id ==> t.rows[j] == s.rows[j])
            && t.busy == s.busy[w := Claimed(id, s.rows[id].attempts + 1, s.rows[id].maxAttempts)]
            && var r, r' := s.rows[id], t.rows[id];
            && r'.status == Running && r'.lockedBy == Some(w) && r'.lockedAt == Some(s.now) && r'.attempts == r.attempts + 1
            && r'.startedAt == (if r.startedAt.Some? then r.startedAt else Some(s.now)) && r'.runAt == r.runAt
  {
  }

  /** A sweep puts back exactly the running rows locked more than `stale_secs` ago, and changes nothing else. */
  lemma SweepWrites(s: State, secs: nat)
    ensures var t := Apply(s, Sweep(secs));
            && t.rows.Keys == s.rows.Keys && t.now == s.now && t.busy == s.busy
            && forall id :: id in s.rows ==>
                 var r := s.rows[id];
                 t.rows[id] == if r.status == Running && r.lockedAt.Some? && r.lockedAt.value < s.now - secs * 1_000_000
                               then r.(status := Queued, lockedAt := None, lockedBy := None) else r
  {
  }

  // ---- Stranded jobs ----

  /** The row is as it was, or cancelled since. */
  ghost predicate UnchangedOrCancelled(s: State, id: JobId, r: Row) {
    id in s.rows && (s.rows[id] == r || s.rows[id].status == Cancelled)
  }

  lemma StepKeepsStranded(s: State, e: Event, id: JobId, r: Row)
    requires r.status == Queued && Left(r) <= 0 && UnchangedOrCancelled(s, id, r) && Unheld(s, id)
    requires Enabled(s, e, Unrestricted)
    ensures UnchangedOrCancelled(Apply(s, e), id, r) && Unheld(Apply(s, e), id)
  {
    var t := Apply(s, e);
    if e.Finish? {
      assert !Holds(s, e.worker, id);
    }
    forall w
      ensures !Holds(t, w, id)
    {
      assert !Holds(s, w, id);
    }
  }

  lemma {:induction false} RunKeepsStranded(s: State, es: seq<Event>, m: Sweeps, id: JobId, r: Row)
    requires r.status == Queued && Left(r) <= 0 && UnchangedOrCancelled(s, id, r) && Unheld(s, id)
    requires Legal(s, es, m)
    ensures UnchangedOrCancelled(Exec(s, es, m), id, r)
    decreases |es|
  {
    if es != [] {
      StepKeepsStranded(s, es[0], id, r);
      RunKeepsStranded(Apply(s, es[0]), es[1..], m, id, r);
    }
  }

  /**
    A queued job without attempts left stays as it is, unless it is cancelled, in every run, if
    and only if no worker is still processing it: a late finish is all that can save it.
   */
  lemma StrandedIffUnheld(s: State, id: JobId)
    requires id in s.rows && s.rows[id].status == Queued && Left(s.rows[id]) <= 0
    ensures (forall es :: Legal(s, es, Unrestricted) ==> UnchangedOrCancelled(Exec(s, es, Unrestricted), id, s.rows[id]))
            <==> Unheld(s, id)
  {
    if Unheld(s, id) {
      forall es | Legal(s, es, Unrestricted)
        ensures UnchangedOrCancelled(Exec(s, es, Unrestricted), id, s.rows[id])
      {
        RunKeepsStranded(s, es, Unrestricted, id, s.rows[id]);
      }
    } else {
      var w :| Holds(s, w, id);
      var e := Finish(w, Success, false);
      RunCons(s, e, [], Unrestricted);
      assert !UnchangedOrCancelled(Exec(s, [e] + [], Unrestricted), id, s.rows[id]);
    }
  }

  /** The options of a job with a single attempt. */
  const ONCE: EnqueueOptions := EnqueueOptions(None, 0, Some(1), None)

  /** After "job" was enqueued on "q" and claimed by "w", all at time 0. */
  function Started(): State {
    State(map["job" := ClaimRow(NewRow("q", "", ONCE, 0), "w", 0)], 0, map["w" := Claimed("job", 1, 1)])
  }

  lemma StartRun(rest: seq<Event>, m: Sweeps) returns (es: seq<Event>)
    requires Legal(Started(), rest, m)
    ensures Legal(Init(0), es, m) && Exec(Init(0), es, m) == Exec(Started(), rest, m)
  {
    var s0, e0 := Init(0), Enqueue("job", "q", "", ONCE);
    var s1, e1 := Apply(s0, e0), Claim("w", "q", Some("job"));
    assert s1.rows == map["job" := NewRow("q", "", ONCE, 0)];
    assert IsNext(s1.rows, "q", s1.now, "job");
    assert Apply(s1, e1) == Started();
    RunCons(s1, e1, rest, m);
    RunCons(s0, e0, [e1] + rest, m);
    es := [e0] + ([e1] + rest);
  }

  /**
    A run that strands a job, though its sweep frees no live one: its worker dies on the last
    attempt, and the sweep puts it back in the queue with nothing left.
   */
  lemma SweptLastAttemptIsStranded() returns (es: seq<Event>)
    ensures Legal(Init(0), es, SpareLive)
    ensures var s := Exec(Init(0), es, SpareLive);
            "job" in s.rows && s.rows["job"].status == Queued && Left(s.rows["job"]) == 0 && Unheld(s, "job")
  {
    var s0, e0, e1, e2 := Started(), Crash("w"), Tick(1), Sweep(0);
    var s1 := Apply(s0, e0);
    var s2 := Apply(s1, e1);
    var s3 := Apply(s2, e2);
    RunCons(s2, e2, [], SpareLive);
    RunCons(s1, e1, [e2] + [], SpareLive);
    RunCons(s0, e0, [e1] + ([e2] + []), SpareLive);
    es := StartRun([e0] + ([e1] + ([e2] + [])), SpareLive);
  }

  /** A run that overwrites a cancelled job: cancelled while its handler runs, then done. */
  lemma CancelledJobIsOverwritten() returns (es: seq<Event>, late: Event)
    ensures Legal(Init(0), es, FreeNothing)
    ensures var s := Exec(Init(0), es, FreeNothing);
            && "job" in s.rows && s.rows["job"].status == Cancelled
            && Enabled(s, late, Unrestricted)
            && "job" in Apply(s, late).rows && Apply(s, late).rows["job"].status == Done
  {
    RunCons(Started(), Cancel("job", "q"), [], FreeNothing);
    es := StartRun([Cancel("job", "q")] + [], FreeNothing);
    late := Finish("w", Success, false);
  }
}
