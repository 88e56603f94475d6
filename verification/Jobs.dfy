/**
  Rows of the `jobs` table, and what each SQL statement of the queue does to one row.

  Time is counted in microseconds, the resolution of a Postgres timestamp. The database clock
  and the workers' clocks are one clock.
 */
module Jobs {
  import opened Basics

  const SECOND: nat := 1_000_000
  const I32_MAX: nat := 0x7FFF_FFFF
  const U32_MAX: nat := 0xFFFF_FFFF
  const U64_MAX: nat := 0xFFFF_FFFF_FFFF_FFFF

  type JobId = string
  type WorkerId = string

  datatype JobStatus = Queued | Running | Done | Failed | Cancelled | Dead {
    predicate IsTerminal() {
      Done? || Cancelled? || Dead?
    }
  }

  datatype Row = Row(
    queue: string,
    payload: string,
    status: JobStatus,
    priority: int,
    attempts: int,
    maxAttempts: int,
    runAt: int,
    lockedAt: Option<int>,
    lockedBy: Option<WorkerId>,
    lastError: Option<string>,
    key: Option<string>,
    createdAt: int,
    startedAt: Option<int>,
    completedAt: Option<int>)

  type Table = map<JobId, Row>

  datatype EnqueueOptions = EnqueueOptions(
    runAt: Option<int>,
    priority: int,
    maxAttempts: Option<nat>,
    key: Option<string>)

  /** What a successful claim hands to the worker. */
  datatype Claimed = Claimed(id: JobId, attempts: int, maxAttempts: int)

  /** How processing a claimed job ends; `BadPayload` is a payload that does not deserialize. */
  datatype Outcome =
    | Success
    | Permanent(err: string)
    | Retriable(err: string)
    | BadPayload(err: string)

  // ---- Retry arithmetic ----

  function Pow2(n: nat): (r: nat)
    ensures r >= 1
  {
    if n == 0 then 1 else 2 * Pow2(n - 1)
  }

  function SaturatingPow2(n: nat): nat {
    if Pow2(n) > U64_MAX then U64_MAX else Pow2(n)
  }

  function BackoffSeconds(attempt: nat): nat {
    if SaturatingPow2(attempt) < 3600 then SaturatingPow2(attempt) else 3600
  }

  /** The delays that follow attempts 1 to k, added up. */
  function TotalBackoff(k: nat): nat {
    if k == 0 then 0 else TotalBackoff(k - 1) + BackoffSeconds(k)
  }

  lemma {:induction false} Pow2Monotone(a: nat, b: nat)
    requires a <= b
    ensures Pow2(a) <= Pow2(b)
  {
    if a < b {
      Pow2Monotone(a, b - 1);
    }
  }

  /** Saturation never shows: the delay is min(2^attempt, 3600) for every attempt. */
  lemma BackoffClosedForm(attempt: nat)
    ensures BackoffSeconds(attempt) == Min(Pow2(attempt), 3600)
    ensures attempt <= 11 ==> BackoffSeconds(attempt) == Pow2(attempt)
    ensures attempt >= 12 ==> BackoffSeconds(attempt) == 3600
  {
    if attempt <= 11 {
      Pow2Monotone(attempt, 11);
      assert Pow2(11) == 2048;
    } else {
      Pow2Monotone(12, attempt);
      assert Pow2(12) == 4096;
    }
  }

  lemma {:induction false} TotalBackoffClosedForm(k: nat)
    ensures k <= 11 ==> TotalBackoff(k) == Pow2(k + 1) - 2
    ensures k >= 11 ==> TotalBackoff(k) == 4094 + 3600 * (k - 11)
  {
    if k > 0 {
      TotalBackoffClosedForm(k - 1);
      BackoffClosedForm(k);
    }
    assert Pow2(12) == 4096;
  }

  // ---- Enqueue and cancel ----

  function RowMaxAttempts(opts: EnqueueOptions): nat {
    var m := opts.maxAttempts.GetOr(3);
    if m <= I32_MAX then m else 3
  }

  function NewRow(queue: string, payload: string, opts: EnqueueOptions, now: int): Row {
    Row(queue, payload, Queued, opts.priority, 0, RowMaxAttempts(opts), opts.runAt.GetOr(now),
        None, None, None, opts.key, now, None, None)
  }

  /** Row `id` carries the idempotency pair (queue, key). */
  predicate Carries(rows: Table, id: JobId, queue: string, key: string) {
    id in rows && rows[id].queue == queue && rows[id].key == Some(key)
  }

  /** The partial unique index on (queue, idempotency_key). */
  ghost predicate KeysUnique(rows: Table) {
    forall i, j, q, k :: Carries(rows, i, q, k) && Carries(rows, j, q, k) ==> i == j
  }

  ghost predicate Conflicts(rows: Table, queue: string, opts: EnqueueOptions) {
    opts.key.Some? && exists id :: Carries(rows, id, queue, opts.key.value)
  }

  ghost function EnqueueRows(rows: Table, newId: JobId, queue: string, payload: string, opts: EnqueueOptions, now: int): Table {
    if Conflicts(rows, queue, opts) then rows else rows[newId := NewRow(queue, payload, opts, now)]
  }

  /** The id `enqueue` answers with. */
  ghost function EnqueueId(rows: Table, newId: JobId, queue: string, opts: EnqueueOptions): JobId {
    if Conflicts(rows, queue, opts) then
      var id :| Carries(rows, id, queue, opts.key.value); id
    else newId
  }

  predicate Cancellable(rows: Table, id: JobId, queue: string) {
    id in rows && rows[id].queue == queue && !rows[id].status.IsTerminal()
  }

  function CancelRows(rows: Table, id: JobId, queue: string, now: int): Table {
    if Cancellable(rows, id, queue)
    then rows[id := rows[id].(status := Cancelled, completedAt := Some(now))]
    else rows
  }

  // ---- Claim ----

  predicate Eligible(r: Row, queue: string, now: int) {
    && r.queue == queue
    && (r.status == Queued || r.status == Failed)
    && r.runAt <= now
    && r.attempts < r.maxAttempts
  }

  /** `ORDER BY priority DESC, run_at ASC`. */
  predicate Before(a: Row, b: Row) {
    a.priority > b.priority || (a.priority == b.priority && a.runAt <= b.runAt)
  }

  predicate IsNext(rows: Table, queue: string, now: int, id: JobId) {
    && id in rows
    && Eligible(rows[id], queue, now)
    && forall j :: j in rows && Eligible(rows[j], queue, now) ==> Before(rows[id], rows[j])
  }

  predicate NoneEligible(rows: Table, queue: string, now: int) {
    forall j :: j in rows ==> !Eligible(rows[j], queue, now)
  }

  /**
    In terms of the columns: the first row is due, retryable and has attempts left, and of all such
    rows of its queue none has a higher priority, nor an earlier `run_at` at the same priority.
   */
  lemma NextByColumns(rows: Table, queue: string, now: int, id: JobId)
    ensures IsNext(rows, queue, now, id) <==>
            && id in rows && rows[id].queue == queue && rows[id].status in {Queued, Failed}
            && rows[id].runAt <= now && rows[id].attempts < rows[id].maxAttempts
            && forall j :: j in rows && rows[j].queue == queue && rows[j].status in {Queued, Failed}
                           && rows[j].runAt <= now && rows[j].attempts < rows[j].maxAttempts ==>
                 && rows[id].priority >= rows[j].priority
                 && (rows[id].priority == rows[j].priority ==> rows[id].runAt <= rows[j].runAt)
  {
  }

  function ClaimRow(r: Row, worker: WorkerId, now: int): Row {
    r.(status := Running, lockedAt := Some(now), lockedBy := Some(worker),
       attempts := r.attempts + 1, startedAt := Some(r.startedAt.GetOr(now)))
  }

  /** Whenever some row is eligible, the ordered select has a first row. */
  lemma {:induction false} NextExists(rows: Table, queue: string, now: int)
    requires !NoneEligible(rows, queue, now)
    ensures exists id :: IsNext(rows, queue, now, id)
    decreases |rows|
  {
    var id :| id in rows && Eligible(rows[id], queue, now);
    var rest := rows - {id};
    if NoneEligible(rest, queue, now) {
      forall j | j in rows && Eligible(rows[j], queue, now)
        ensures Before(rows[id], rows[j])
      {
        assert j != id ==> j in rest;
      }
      assert IsNext(rows, queue, now, id);
    } else {
      assert rest.Keys == rows.Keys - {id};
      NextExists(rest, queue, now);
      var first :| IsNext(rest, queue, now, first);
      var winner := if Before(rows[first], rows[id]) then first else id;
      forall j | j in rows && Eligible(rows[j], queue, now)
        ensures Before(rows[winner], rows[j])
      {
        assert j != id ==> j in rest;
      }
      assert IsNext(rows, queue, now, winner);
    }
  }

  // ---- Finish ----

  function DoneRow(r: Row, now: int): Row {
    r.(status := Done, completedAt := Some(now), lastError := None, lockedAt := None, lockedBy := None)
  }

  function DeadRow(r: Row, err: string, now: int): Row {
    r.(status := Dead, completedAt := Some(now), lastError := Some(err), lockedAt := None, lockedBy := None)
  }

  function FailedRow(r: Row, err: string, nextRun: int): Row {
    r.(status := Failed, lastError := Some(err), runAt := nextRun, lockedAt := None, lockedBy := None)
  }

  /** `u32::try_from(attempts).unwrap_or(0)`. */
  function AttemptNumber(attempts: int): nat {
    if 0 <= attempts <= U32_MAX then attempts else 0
  }

  function FinishRow(r: Row, c: Claimed, o: Outcome, now: int): Row {
    match o
    case Success => DoneRow(r, now)
    case Permanent(err) => DeadRow(r, err, now)
    case BadPayload(err) => DeadRow(r, err, now)
    case Retriable(err) =>
      if c.attempts >= c.maxAttempts then DeadRow(r, err, now)
      else FailedRow(r, err, now + BackoffSeconds(AttemptNumber(c.attempts)) * SECOND)
  }

  /** The finish statements match on `id` alone, and match nothing when the row is missing. */
  function FinishRows(rows: Table, c: Claimed, o: Outcome, now: int): Table {
    if c.id in rows then rows[c.id := FinishRow(rows[c.id], c, o, now)] else rows
  }

  // ---- Sweep ----

  predicate Stale(r: Row, cutoff: int) {
    r.status == Running && r.lockedAt.Some? && r.lockedAt.value < cutoff
  }

  function FreedRow(r: Row): Row {
    r.(status := Queued, lockedAt := None, lockedBy := None)
  }

  function SweepRows(rows: Table, cutoff: int): Table {
    map id | id in rows :: if Stale(rows[id], cutoff) then FreedRow(rows[id]) else rows[id]
  }

  // ---- Claims still allowed ----

  function Left(r: Row): int {
    r.maxAttempts - r.attempts
  }

  /** Sum over all rows of `max_attempts - attempts`. */
  ghost function Budget(rows: Table): int
    decreases |rows|
  {
    if rows == map[] then 0
    else
      var id :| id in rows;
      assert (rows - {id}).Keys == rows.Keys - {id};
      Left(rows[id]) + Budget(rows - {id})
  }

  lemma {:induction false} BudgetSplit(rows: Table, id: JobId)
    requires id in rows
    ensures Budget(rows) == Left(rows[id]) + Budget(rows - {id})
    decreases |rows|
  {
    var p :| p in rows && Budget(rows) == Left(rows[p]) + Budget(rows - {p});
    if p != id {
      assert (rows - {p}).Keys == rows.Keys - {p};
      assert (rows - {id}).Keys == rows.Keys - {id};
      BudgetSplit(rows - {p}, id);
      BudgetSplit(rows - {id}, p);
      assert rows - {p} - {id} == rows - {id} - {p};
    }
  }

  /** Writing one row moves the budget by that row's difference. */
  lemma BudgetUpdate(rows: Table, id: JobId, r: Row)
    ensures Budget(rows[id := r]) == Budget(rows) + Left(r) - (if id in rows then Left(rows[id]) else 0)
  {
    BudgetSplit(rows[id := r], id);
    if id in rows {
      BudgetSplit(rows, id);
      assert rows[id := r] - {id} == rows - {id};
    } else {
      assert rows[id := r] - {id} == rows;
    }
  }

  /** No row has been claimed more often than it may be. */
  ghost predicate NoneOverdrawn(rows: Table) {
    forall id :: id in rows ==> Left(rows[id]) >= 0
  }

  lemma ClaimOverdrawsNone(rows: Table, queue: string, now: int, id: JobId, worker: WorkerId)
    requires NoneOverdrawn(rows) && IsNext(rows, queue, now, id)
    ensures id in rows && NoneOverdrawn(rows[id := ClaimRow(rows[id], worker, now)])
  {
  }

  lemma FinishOverdrawsNone(rows: Table, c: Claimed, o: Outcome, now: int)
    requires NoneOverdrawn(rows)
    ensures NoneOverdrawn(FinishRows(rows, c, o, now)) && FinishRows(rows, c, o, now).Keys == rows.Keys
  {
  }

  lemma {:induction false} BudgetNonNegative(rows: Table)
    requires NoneOverdrawn(rows)
    ensures Budget(rows) >= 0
    decreases |rows|
  {
    if rows != map[] {
      var id :| id in rows;
      assert (rows - {id}).Keys == rows.Keys - {id};
      BudgetSplit(rows, id);
      BudgetNonNegative(rows - {id});
    }
  }

  lemma {:induction false} BudgetSame(a: Table, b: Table)
    requires a.Keys == b.Keys
    requires forall id :: id in a ==> Left(a[id]) == Left(b[id])
    ensures Budget(a) == Budget(b)
    decreases |a|
  {
    if a == map[] {
      assert b == map[];
    } else {
      var id :| id in a;
      assert (a - {id}).Keys == a.Keys - {id};
      BudgetSplit(a, id);
      BudgetSplit(b, id);
      BudgetSame(a - {id}, b - {id});
    }
  }
}
