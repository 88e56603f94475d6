/**
  The queue's statements as methods that update the shared table in place, and the worker loop
  that claims and processes until nothing is left to claim.
 */
module JobTable {
  import opened Basics
  import opened Jobs

  class Table {
    var rows: Jobs.Table
    var now: int

    constructor (now: int)
      ensures rows == map[] && this.now == now
    {
      rows := map[];
      this.now := now;
    }

    /** `newId` is the primary key the database generates. */
    method Enqueue(newId: JobId, queue: string, payload: string, opts: EnqueueOptions) returns (id: JobId)
      requires newId !in rows && KeysUnique(rows)
      modifies this`rows
      ensures rows == EnqueueRows(old(rows), newId, queue, payload, opts, now) && KeysUnique(rows)
      ensures id == EnqueueId(old(rows), newId, queue, opts)
      ensures id in rows && rows[id].queue == queue && rows[id].key == opts.key
      ensures newId !in rows <==>
                opts.key.Some? && exists j :: j in old(rows) && old(rows)[j].queue == queue && old(rows)[j].key == opts.key
      ensures newId in rows ==>
                var r := rows[newId];
                && id == newId && r.payload == payload && r.status == Queued && r.priority == opts.priority
                && r.attempts == 0 && r.createdAt == now && r.lockedBy == None && r.startedAt == None
                && r.runAt == (if opts.runAt.Some? then opts.runAt.value else now)
                && r.maxAttempts == (if opts.maxAttempts.Some? && opts.maxAttempts.value <= 0x7FFF_FFFF then opts.maxAttempts.value else 3)
    {
      if opts.key.Some? {
        if existing :| existing in rows && Carries(rows, existing, queue, opts.key.value) {
          id := existing;
          return;
        }
      }
      var runAt := if opts.runAt.Some? then opts.runAt.value else now;
      var maxAttempts := if opts.maxAttempts.None? || opts.maxAttempts.value > I32_MAX then 3 else opts.maxAttempts.value;
      rows := rows[newId := Row(queue, payload, Queued, opts.priority, 0, maxAttempts, runAt,
                                None, None, None, opts.key, now, None, None)];
      id := newId;
      forall i, j, q, k | Carries(rows, i, q, k) && Carries(rows, j, q, k)
        ensures i == j
      {
        assert i != newId ==> Carries(old(rows), i, q, k);
        assert j != newId ==> Carries(old(rows), j, q, k);
      }
    }

    /** Answers false, the source's `JobNotFound`, exactly when no row was changed. */
    method Cancel(id: JobId, queue: string) returns (found: bool)
      modifies this`rows
      ensures found <==> id in old(rows) && old(rows)[id].queue == queue && old(rows)[id].status !in {Done, Cancelled, Dead}
      ensures found ==> rows == old(rows)[id := old(rows)[id].(status := Cancelled, completedAt := Some(now))]
      ensures rows == CancelRows(old(rows), id, queue, now)
      ensures !found ==> rows == old(rows)
    {
      if id in rows && rows[id].queue == queue && rows[id].status !in {Done, Cancelled, Dead} {
        rows := rows[id := rows[id].(status := Cancelled, completedAt := Some(now))];
        return true;
      }
      return false;
    }

    method ClaimOne(queue: string, worker: WorkerId) returns (c: Option<Claimed>)
      modifies this`rows
      ensures c.None? <==> NoneEligible(old(rows), queue, now)
      ensures c.None? ==> rows == old(rows)
      ensures c.Some? ==>
                var id := c.value.id;
                && IsNext(old(rows), queue, now, id)
                && rows == old(rows)[id := ClaimRow(old(rows)[id], worker, now)]
                && c.value == Claimed(id, rows[id].attempts, rows[id].maxAttempts)
      ensures c.Some? ==>
                var r, r' := old(rows)[c.value.id], rows[c.value.id];
                && r.queue == queue && r.status in {Queued, Failed} && r.runAt <= now && r.attempts < r.maxAttempts
                && (forall j :: j in old(rows) && Eligible(old(rows)[j], queue, now) ==>
                      && r.priority >= old(rows)[j].priority
                      && (r.priority == old(rows)[j].priority ==> r.runAt <= old(rows)[j].runAt))
                && r'.status == Running && r'.lockedBy == Some(worker) && r'.lockedAt == Some(now)
                && r'.attempts == r.attempts + 1
                && r'.startedAt == (if r.startedAt.Some? then r.startedAt else Some(now))
      ensures c.Some? ==> Budget(rows) == old(Budget(rows)) - 1
    {
      if !NoneEligible(rows, queue, now) {
        NextExists(rows, queue, now);
      }
      if id :| id in rows && IsNext(rows, queue, now, id) {
        var r := rows[id];
        var started := if r.startedAt.Some? then r.startedAt else Some(now);
        var claimed := r.(status := Running, lockedAt := Some(now), lockedBy := Some(worker),
                          attempts := r.attempts + 1, startedAt := started);
        BudgetUpdate(rows, id, claimed);
        rows := rows[id := claimed];
        return Some(Claimed(id, claimed.attempts, claimed.maxAttempts));
      }
      return None;
    }

    method MarkDone(id: JobId)
      modifies this`rows
      ensures id !in old(rows) ==> rows == old(rows)
      ensures id in old(rows) ==> rows == old(rows)[id := DoneRow(old(rows)[id], now)]
    {
      if id in rows {
        rows := rows[id := rows[id].(status := Done, completedAt := Some(now), lastError := None,
                                     lockedAt := None, lockedBy := None)];
      }
    }

    method MarkDead(id: JobId, err: string)
      modifies this`rows
      ensures id !in old(rows) ==> rows == old(rows)
      ensures id in old(rows) ==> rows == old(rows)[id := DeadRow(old(rows)[id], err, now)]
    {
      if id in rows {
        rows := rows[id := rows[id].(status := Dead, completedAt := Some(now), lastError := Some(err),
                                     lockedAt := None, lockedBy := None)];
      }
    }

    method MarkFailedForRetry(id: JobId, err: string, nextRun: int)
      modifies this`rows
      ensures id !in old(rows) ==> rows == old(rows)
      ensures id in old(rows) ==> rows == old(rows)[id := FailedRow(old(rows)[id], err, nextRun)]
    {
      if id in rows {
        rows := rows[id := rows[id].(status := Failed, lastError := Some(err), runAt := nextRun,
                                     lockedAt := None, lockedBy := None)];
      }
    }

    method RetryOrBury(id: JobId, attempt: nat, attempts: int, maxAttempts: int, err: string)
      modifies this`rows
      requires attempt == AttemptNumber(attempts)
      ensures rows == FinishRows(old(rows), Claimed(id, attempts, maxAttempts), Retriable(err), now)
    {
      if attempts >= maxAttempts {
        MarkDead(id, err);
        return;
      }
      var delay := BackoffSeconds(attempt);
      MarkFailedForRetry(id, err, now + delay * SECOND);
    }

    /** Whatever the outcome, one statement is issued, and it spends no attempt. */
    method ProcessClaimed(c: Claimed, o: Outcome)
      modifies this`rows
      ensures rows == FinishRows(old(rows), c, o, now)
      ensures Budget(rows) == old(Budget(rows))
    {
      match o {
        case BadPayload(err) => MarkDead(c.id, err);
        case Success => MarkDone(c.id);
        case Permanent(err) => MarkDead(c.id, err);
        case Retriable(err) =>
          var attempt: nat := if 0 <= c.attempts <= U32_MAX then c.attempts else 0;
          RetryOrBury(c.id, attempt, c.attempts, c.maxAttempts, err);
      }
      BudgetSame(rows, old(rows));
    }

    method Sweep(staleSecs: nat)
      modifies this`rows
      ensures rows == SweepRows(old(rows), now - staleSecs * SECOND)
      ensures rows.Keys == old(rows).Keys
      ensures forall id :: id in rows ==>
                var r := old(rows)[id];
                rows[id] == if r.status == Running && r.lockedAt.Some? && r.lockedAt.value < now - staleSecs * 1_000_000
                            then r.(status := Queued, lockedAt := None, lockedBy := None) else r
    {
      var cutoff := now - staleSecs * SECOND;
      rows := map id | id in rows ::
        if rows[id].status == Running && rows[id].lockedAt.Some? && rows[id].lockedAt.value < cutoff
        then rows[id].(status := Queued, lockedAt := None, lockedBy := None)
        else rows[id];
    }

    /**
      The worker loop up to the point where it goes to sleep: claim, process, repeat. `handle`
      says how each handler call ends and how long it takes. The loop reaches idle after exactly
      as many claims as the budget dropped, hence after at most `old(Budget(rows))` of them.
     */
    method RunUntilIdle(queue: string, worker: WorkerId, handle: Claimed -> (Outcome, nat)) returns (claims: nat)
      requires NoneOverdrawn(rows)
      modifies this
      ensures NoneEligible(rows, queue, now)
      ensures claims == old(Budget(rows)) - Budget(rows) && claims <= old(Budget(rows))
      ensures rows.Keys == old(rows).Keys
    {
      hide Budget, NoneEligible, IsNext, NoneOverdrawn, ClaimRow, FinishRows;
      claims := 0;
      while true
        invariant rows.Keys == old(rows).Keys
        invariant NoneOverdrawn(rows)
        invariant claims == old(Budget(rows)) - Budget(rows)
        decreases Budget(rows)
      {
        BudgetNonNegative(rows);
        ghost var before := rows;
        var c := ClaimOne(queue, worker);
        if c.None? {
          break;
        }
        claims := claims + 1;
        ClaimOverdrawsNone(before, queue, now, c.value.id, worker);
        var (o, elapsed) := handle(c.value);
        now := now + elapsed;
        FinishOverdrawsNone(rows, c.value, o, now);
        ProcessClaimed(c.value, o);
        BudgetNonNegative(rows);
      }
    }
  }
}
