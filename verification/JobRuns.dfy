/**
  The queue as a transition system: one shared table, a clock, and any number of workers, each
  idle or processing the job it claimed. A step is one SQL statement (or a finish write that is
  lost, a worker crash, or time passing). The theorems speak about every run.
 */
module JobRuns {
  import opened Basics
  import opened Jobs

  datatype State = State(rows: Table, now: int, busy: map<WorkerId, Claimed>)

  datatype Event =
    | Enqueue(newId: JobId, queue: string, payload: string, opts: EnqueueOptions)
    | Cancel(id: JobId, queue: string)
    | Claim(worker: WorkerId, queue: string, pick: Option<JobId>)
    | Finish(worker: WorkerId, outcome: Outcome, lost: bool)
    | Crash(worker: WorkerId)
    | Sweep(staleSecs: nat)
    | Tick(micros: nat)

  /** Which jobs the sweeps of a run may free. */
  datatype Sweeps =
    | Unrestricted
    | SpareRetryable  // no job whose handler is live and that still has attempts left
    | SpareLive       // no job whose handler is live
    | FreeNothing

  function Init(now: int): State {
    State(map[], now, map[])
  }

  predicate Holds(s: State, w: WorkerId, id: JobId) {
    w in s.busy && s.busy[w].id == id
  }

  function Cutoff(s: State, staleSecs: nat): int {
    s.now - staleSecs * SECOND
  }

  predicate Frees(s: State, staleSecs: nat, id: JobId) {
    id in s.rows && Stale(s.rows[id], Cutoff(s, staleSecs))
  }

  ghost predicate SweepAllowed(s: State, staleSecs: nat, m: Sweeps) {
    match m
    case Unrestricted => true
    case SpareRetryable => forall w, id :: Holds(s, w, id) && Frees(s, staleSecs, id) ==> Left(s.rows[id]) <= 0
    case SpareLive => forall w, id :: Holds(s, w, id) ==> !Frees(s, staleSecs, id)
    case FreeNothing => forall id :: !Frees(s, staleSecs, id)
  }

  ghost predicate Enabled(s: State, e: Event, m: Sweeps) {
    match e
    case Enqueue(newId, _, _, _) => newId !in s.rows
    case Cancel(_, _) => true
    case Claim(w, q, pick) =>
      && w !in s.busy
      && (if pick.Some? then IsNext(s.rows, q, s.now, pick.value) else NoneEligible(s.rows, q, s.now))
    case Finish(w, _, _) => w in s.busy
    case Crash(w) => w in s.busy
    case Sweep(secs) => SweepAllowed(s, secs, m)
    case Tick(_) => true
  }

  ghost function Apply(s: State, e: Event): State
    requires Enabled(s, e, Unrestricted)
  {
    match e
    case Enqueue(newId, q, p, opts) => s.(rows := EnqueueRows(s.rows, newId, q, p, opts, s.now))
    case Cancel(id, q) => s.(rows := CancelRows(s.rows, id, q, s.now))
    case Claim(w, _, pick) =>
      if pick.None? then s
      else
        var r := ClaimRow(s.rows[pick.value], w, s.now);
        s.(rows := s.rows[pick.value := r], busy := s.busy[w := Claimed(pick.value, r.attempts, r.maxAttempts)])
    case Finish(w, o, lost) =>
      s.(rows := if lost then s.rows else FinishRows(s.rows, s.busy[w], o, s.now), busy := s.busy - {w})
    case Crash(w) => s.(busy := s.busy - {w})
    case Sweep(secs) => s.(rows := SweepRows(s.rows, Cutoff(s, secs)))
    case Tick(d) => s.(now := s.now + d)
  }

  ghost predicate Legal(s: State, es: seq<Event>, m: Sweeps)
    decreases |es|
  {
    es == [] || (Enabled(s, es[0], Unrestricted) && Enabled(s, es[0], m) && Legal(Apply(s, es[0]), es[1..], m))
  }

  ghost function Exec(s: State, es: seq<Event>, m: Sweeps): State
    requires Legal(s, es, m)
    decreases |es|
  {
    if es == [] then s else Exec(Apply(s, es[0]), es[1..], m)
  }

  // ---- What every run keeps ----

  ghost predicate RowOk(r: Row, now: int) {
    && 0 <= r.attempts <= r.maxAttempts <= I32_MAX
    && (r.startedAt.Some? <==> r.attempts > 0)
    && (r.status == Running ==> r.attempts > 0 && r.runAt <= now)
  }

  ghost predicate HolderOk(s: State, w: WorkerId)
    requires w in s.busy
  {
    var c := s.busy[w];
    && c.id in s.rows
    && c.maxAttempts == s.rows[c.id].maxAttempts
    && 1 <= c.attempts <= s.rows[c.id].attempts
  }

  ghost predicate Inv(s: State) {
    && (forall id :: id in s.rows ==> RowOk(s.rows[id], s.now))
    && (forall w :: w in s.busy ==> HolderOk(s, w))
    && KeysUnique(s.rows)
  }

  lemma StepKeepsKeysUnique(s: State, e: Event)
    requires KeysUnique(s.rows) && Enabled(s, e, Unrestricted)
    ensures KeysUnique(Apply(s, e).rows)
  {
    var rows' := Apply(s, e).rows;
    forall i, j, q, k | Carries(rows', i, q, k) && Carries(rows', j, q, k)
      ensures i == j
    {
      assert i in s.rows ==> Carries(s.rows, i, q, k);
      assert j in s.rows ==> Carries(s.rows, j, q, k);
    }
  }

  lemma StepKeepsRowsOk(s: State, e: Event)
    requires (forall id :: id in s.rows ==> RowOk(s.rows[id], s.now)) && Enabled(s, e, Unrestricted)
    ensures forall id :: id in Apply(s, e).rows ==> RowOk(Apply(s, e).rows[id], Apply(s, e).now)
  {
  }

  lemma StepKeepsHoldersOk(s: State, e: Event)
    requires Inv(s) && Enabled(s, e, Unrestricted)
    ensures forall w :: w in Apply(s, e).busy ==> HolderOk(Apply(s, e), w)
  {
    hide KeysUnique;
  }

  lemma StepKeepsInv(s: State, e: Event)
    requires Inv(s) && Enabled(s, e, Unrestricted)
    ensures Inv(Apply(s, e))
  {
    StepKeepsRowsOk(s, e);
    StepKeepsHoldersOk(s, e);
    StepKeepsKeysUnique(s, e);
  }

  lemma {:induction false} RunKeepsInv(s: State, es: seq<Event>, m: Sweeps)
    requires Inv(s) && Legal(s, es, m)
    ensures Inv(Exec(s, es, m))
    decreases |es|
  {
    if es != [] {
      StepKeepsInv(s, es[0]);
      RunKeepsInv(Apply(s, es[0]), es[1..], m);
    }
  }

  // ---- Attempts are claims ----

  predicate Claims(e: Event, id: JobId) {
    e.Claim? && e.pick == Some(id)
  }

  /** How often `id` was claimed in a run: once for every handler start, and once for every bad payload. */
  function ClaimCount(es: seq<Event>, id: JobId): nat {
    if es == [] then 0 else (if Claims(es[0], id) then 1 else 0) + ClaimCount(es[1..], id)
  }

  function AttemptsOf(s: State, id: JobId): int {
    if id in s.rows then s.rows[id].attempts else 0
  }

  lemma {:induction false} AttemptsCountClaims(s: State, es: seq<Event>, m: Sweeps, id: JobId)
    requires Legal(s, es, m)
    ensures AttemptsOf(Exec(s, es, m), id) == AttemptsOf(s, id) + ClaimCount(es, id)
    decreases |es|
  {
    if es != [] {
      AttemptsCountClaims(Apply(s, es[0]), es[1..], m, id);
    }
  }

  /**
    In every run, with crashes, sweeps of live jobs, cancels, lost writes and late finishes, the
    `attempts` column counts the claims of the row and never passes `max_attempts`.
   */
  lemma AttemptsBounded(now: int, es: seq<Event>, id: JobId)
    requires Legal(Init(now), es, Unrestricted)
    requires id in Exec(Init(now), es, Unrestricted).rows
    ensures var r := Exec(Init(now), es, Unrestricted).rows[id];
            r.attempts == ClaimCount(es, id) && ClaimCount(es, id) <= r.maxAttempts <= I32_MAX
  {
    RunKeepsInv(Init(now), es, Unrestricted);
    AttemptsCountClaims(Init(now), es, Unrestricted, id);
  }

  // ---- At most one live handler per job ----

  ghost predicate Exclusive(s: State) {
    forall v, w, id :: Holds(s, v, id) && Holds(s, w, id) ==> v == w
  }

  /** The row of a job being processed: locked by its worker, cancelled, or (swept) out of attempts. */
  ghost predicate HeldRowOk(s: State, w: WorkerId, strict: bool)
    requires w in s.busy && s.busy[w].id in s.rows
  {
    var r := s.rows[s.busy[w].id];
    && r.attempts == s.busy[w].attempts
    && (|| (r.status == Running && r.lockedBy == Some(w))
        || r.status == Cancelled
        || (!strict && r.status == Queued && Left(r) <= 0))
  }

  ghost predicate ExclusiveInv(s: State, strict: bool) {
    && Inv(s)
    && Exclusive(s)
    && (forall w :: w in s.busy ==> HeldRowOk(s, w, strict))
    && (forall id :: id in s.rows && s.rows[id].status == Failed ==> Left(s.rows[id]) > 0)
  }

  ghost predicate Spares(m: Sweeps, strict: bool) {
    m == SpareLive || m == FreeNothing || (m == SpareRetryable && !strict)
  }

  lemma StepKeepsSeparate(s: State, e: Event, strict: bool)
    requires ExclusiveInv(s, strict) && Enabled(s, e, Unrestricted)
    ensures Exclusive(Apply(s, e))
  {
    var t := Apply(s, e);
    forall v, w, id | Holds(t, v, id) && Holds(t, w, id)
      ensures v == w
    {
      assert v in s.busy ==> Holds(s, v, s.busy[v].id) && HeldRowOk(s, v, strict);
      assert w in s.busy ==> Holds(s, w, s.busy[w].id) && HeldRowOk(s, w, strict);
    }
  }

  /** While a worker processes a job, its row is left alone, cancelled, or freed by a sweep. */
  lemma HeldRowStep(s: State, e: Event, strict: bool, w: WorkerId)
    requires ExclusiveInv(s, strict) && Enabled(s, e, Unrestricted)
    requires w in s.busy && w in Apply(s, e).busy
    ensures Apply(s, e).busy[w] == s.busy[w] && s.busy[w].id in s.rows && s.busy[w].id in Apply(s, e).rows
    ensures var id := s.busy[w].id;
            var r, r' := s.rows[id], Apply(s, e).rows[id];
            || r' == r
            || (r'.status == Cancelled && r'.attempts == r.attempts && r'.startedAt == r.startedAt)
            || (e.Sweep? && Frees(s, e.staleSecs, id) && r' == FreedRow(r))
  {
    assert Holds(s, w, s.busy[w].id) && HeldRowOk(s, w, strict) && HolderOk(s, w);
    if e.Finish? {
      assert Holds(s, e.worker, s.busy[e.worker].id);
    }
  }

  lemma StepKeepsHeldRow(s: State, e: Event, m: Sweeps, strict: bool, w: WorkerId)
    requires ExclusiveInv(s, strict) && Spares(m, strict)
    requires Enabled(s, e, Unrestricted) && Enabled(s, e, m)
    requires Inv(Apply(s, e)) && w in Apply(s, e).busy
    ensures HeldRowOk(Apply(s, e), w, strict)
  {
    if w in s.busy {
      hide Apply;
      var id := s.busy[w].id;
      HeldRowStep(s, e, strict, w);
      assert Holds(s, w, id) && HeldRowOk(s, w, strict);
      if e.Sweep? && Frees(s, e.staleSecs, id) {
        assert Left(s.rows[id]) <= 0;
      }
    }
  }

  lemma StepKeepsFailedRetryable(s: State, e: Event, strict: bool, id: JobId)
    requires ExclusiveInv(s, strict) && Enabled(s, e, Unrestricted)
    requires id in Apply(s, e).rows && Apply(s, e).rows[id].status == Failed
    ensures Left(Apply(s, e).rows[id]) > 0
  {
  }

  lemma StepKeepsExclusive(s: State, e: Event, m: Sweeps, strict: bool)
    requires ExclusiveInv(s, strict) && Spares(m, strict)
    requires Enabled(s, e, Unrestricted) && Enabled(s, e, m)
    ensures ExclusiveInv(Apply(s, e), strict)
  {
    StepKeepsInv(s, e);
    StepKeepsSeparate(s, e, strict);
    forall w | w in Apply(s, e).busy {
      StepKeepsHeldRow(s, e, m, strict, w);
    }
    forall id | id in Apply(s, e).rows && Apply(s, e).rows[id].status == Failed {
      StepKeepsFailedRetryable(s, e, strict, id);
    }
  }

  lemma {:induction false} RunKeepsExclusive(s: State, es: seq<Event>, m: Sweeps, strict: bool)
    requires ExclusiveInv(s, strict) && Spares(m, strict) && Legal(s, es, m)
    ensures ExclusiveInv(Exec(s, es, m), strict)
    decreases |es|
  {
    if es != [] {
      StepKeepsExclusive(s, es[0], m, strict);
      RunKeepsExclusive(Apply(s, es[0]), es[1..], m, strict);
    }
  }

  /**
    In every run whose sweeps free no live job: at most one worker processes a job, its row is
    running under that worker's lock or cancelled, failed rows have attempts left, and done and
    dead rows have no worker.
   */
  lemma OneWorkerPerJob(now: int, es: seq<Event>)
    requires Legal(Init(now), es, SpareLive)
    ensures var s := Exec(Init(now), es, SpareLive);
            && Exclusive(s)
            && (forall w :: w in s.busy ==>
                  && s.busy[w].id in s.rows
                  && var r := s.rows[s.busy[w].id];
                  (r.status == Running && r.lockedBy == Some(w)) || r.status == Cancelled)
            && (forall id :: id in s.rows && s.rows[id].status == Failed ==> s.rows[id].attempts < s.rows[id].maxAttempts)
            && (forall id :: id in s.rows && s.rows[id].status in {Done, Dead} ==> Unheld(s, id))
  {
    RunKeepsExclusive(Init(now), es, SpareLive, true);
    var s := Exec(Init(now), es, SpareLive);
    assert forall w :: w in s.busy ==> HeldRowOk(s, w, true);
  }

  // ---- Terminal rows ----

  ghost predicate Unheld(s: State, id: JobId) {
    forall w :: !Holds(s, w, id)
  }

  lemma StepKeepsTerminal(s: State, e: Event, id: JobId)
    requires id in s.rows && s.rows[id].status.IsTerminal() && Unheld(s, id)
    requires Enabled(s, e, Unrestricted)
    ensures id in Apply(s, e).rows && Apply(s, e).rows[id] == s.rows[id] && Unheld(Apply(s, e), id)
  {
    var t := Apply(s, e);
    if e.Finish? {
      assert Holds(s, e.worker, s.busy[e.worker].id);
    }
    forall w
      ensures !Holds(t, w, id)
    {
      assert !Holds(s, w, id);
    }
  }

  lemma {:induction false} RunKeepsTerminal(s: State, es: seq<Event>, m: Sweeps, id: JobId)
    requires id in s.rows && s.rows[id].status.IsTerminal() && Unheld(s, id)
    requires Legal(s, es, m)
    ensures id in Exec(s, es, m).rows && Exec(s, es, m).rows[id] == s.rows[id]
    decreases |es|
  {
    if es != [] {
      StepKeepsTerminal(s, es[0], id);
      RunKeepsTerminal(Apply(s, es[0]), es[1..], m, id);
    }
  }

  /** Row `id` reads the same after every run that starts in `s`. */
  ghost predicate FrozenForever(s: State, id: JobId)
    requires id in s.rows
  {
    forall es :: Legal(s, es, Unrestricted) ==>
      && id in Exec(s, es, Unrestricted).rows
      && Exec(s, es, Unrestricted).rows[id] == s.rows[id]
  }

  /**
    A done, dead or cancelled row is final exactly when no worker is still processing the job.
    The finish statements do not look at the status, so a live worker can overwrite it.
   */
  lemma TerminalIsFinalIffUnheld(s: State, id: JobId)
    requires id in s.rows && s.rows[id].status.IsTerminal()
    ensures FrozenForever(s, id) <==> Unheld(s, id)
  {
    if Unheld(s, id) {
      forall es | Legal(s, es, Unrestricted)
        ensures id in Exec(s, es, Unrestricted).rows && Exec(s, es, Unrestricted).rows[id] == s.rows[id]
      {
        RunKeepsTerminal(s, es, Unrestricted, id);
      }
    } else {
      var w :| Holds(s, w, id);
      var e := Finish(w, if s.rows[id].status == Done then Permanent("") else Success, false);
      var es := [e];
      assert Legal(Apply(s, e), es[1..], Unrestricted);
      assert Legal(s, es, Unrestricted);
      assert Exec(s, es, Unrestricted) == Apply(s, e);
      assert Exec(s, es, Unrestricted).rows[id].status != s.rows[id].status;
    }
  }

  /** In runs whose sweeps free no live job, done and dead rows are final. */
  lemma DoneAndDeadAreFinal(now: int, es: seq<Event>, id: JobId)
    requires Legal(Init(now), es, SpareLive)
    requires var s := Exec(Init(now), es, SpareLive); id in s.rows && s.rows[id].status in {Done, Dead}
    ensures FrozenForever(Exec(Init(now), es, SpareLive), id)
  {
    OneWorkerPerJob(now, es);
    TerminalIsFinalIffUnheld(Exec(Init(now), es, SpareLive), id);
  }

  /** Hence a job cancelled while no handler runs it stays cancelled. */
  lemma CancelOfIdleJobIsFinal(s: State, id: JobId, queue: string)
    requires Cancellable(s.rows, id, queue) && Unheld(s, id)
    ensures var t := Apply(s, Cancel(id, queue));
            id in t.rows && t.rows[id].status == Cancelled && FrozenForever(t, id)
  {
    var t := Apply(s, Cancel(id, queue));
    forall w
      ensures !Holds(t, w, id)
    {
      assert !Holds(s, w, id);
    }
    TerminalIsFinalIffUnheld(t, id);
  }

  /**
    Where no sweep frees a live job, the row itself tells: a job cancelled while its status is not
    running stays cancelled.
   */
  lemma CancelOfWaitingJobIsFinal(now: int, es: seq<Event>, id: JobId, queue: string)
    requires Legal(Init(now), es, SpareLive)
    requires var s := Exec(Init(now), es, SpareLive); Cancellable(s.rows, id, queue) && s.rows[id].status != Running
    ensures var t := Apply(Exec(Init(now), es, SpareLive), Cancel(id, queue));
            id in t.rows && t.rows[id].status == Cancelled && FrozenForever(t, id)
  {
    var s := Exec(Init(now), es, SpareLive);
    OneWorkerPerJob(now, es);
    assert Unheld(s, id);
    CancelOfIdleJobIsFinal(s, id, queue);
  }
}
