/** Idempotent enqueue over whole runs. */
module JobKeys {
  import opened Jobs
  import opened JobRuns

  type Pair = (string, string)

  ghost predicate Present(rows: Table, q: string, k: string) {
    exists id :: Carries(rows, id, q, k)
  }

  /** `pairs` are the (queue, key) pairs present in the table. */
  ghost predicate Covers(pairs: set<Pair>, rows: Table) {
    forall q, k :: (q, k) in pairs <==> Present(rows, q, k)
  }

  function PairOf(e: Event): set<Pair> {
    if e.Enqueue? && e.opts.key.Some? then {(e.queue, e.opts.key.value)} else {}
  }

  /** The distinct pairs enqueued in a run. */
  function EnqueuedPairs(es: seq<Event>): set<Pair> {
    if es == [] then {} else PairOf(es[0]) + EnqueuedPairs(es[1..])
  }

  function Keyless(e: Event): nat {
    if e.Enqueue? && e.opts.key.None? then 1 else 0
  }

  function KeylessEnqueues(es: seq<Event>): nat {
    if es == [] then 0 else Keyless(es[0]) + KeylessEnqueues(es[1..])
  }

  /** No step deletes a row or changes what an enqueue stored in it for good. */
  ghost predicate Persists(a: Row, b: Row) {
    && b.queue == a.queue && b.payload == a.payload && b.priority == a.priority
    && b.maxAttempts == a.maxAttempts && b.key == a.key && b.createdAt == a.createdAt
  }

  lemma {:induction false} RowsPersist(s: State, es: seq<Event>, m: Sweeps, id: JobId)
    requires Legal(s, es, m) && id in s.rows
    ensures id in Exec(s, es, m).rows && Persists(s.rows[id], Exec(s, es, m).rows[id])
    decreases |es|
  {
    if es != [] {
      RowsPersist(Apply(s, es[0]), es[1..], m, id);
    }
  }

  /**
    Enqueueing a pair, then any run, then enqueueing the same pair again with any payload and
    options: the same id comes back and the table is left as it is.
   */
  lemma EnqueueIsIdempotent(s: State, first: Event, es: seq<Event>, m: Sweeps, again: Event)
    requires Inv(s) && first.Enqueue? && first.opts.key.Some? && Enabled(s, first, m)
    requires Legal(Apply(s, first), es, m)
    requires again.Enqueue? && again.queue == first.queue && again.opts.key == first.opts.key
    requires Enabled(Exec(Apply(s, first), es, m), again, m)
    ensures var f := Exec(Apply(s, first), es, m);
            && EnqueueId(f.rows, again.newId, again.queue, again.opts) == EnqueueId(s.rows, first.newId, first.queue, first.opts)
            && Apply(f, again) == f
  {
    var s1 := Apply(s, first);
    var id := EnqueueId(s.rows, first.newId, first.queue, first.opts);
    var f := Exec(s1, es, m);
    assert Carries(s1.rows, id, first.queue, first.opts.key.value);
    StepKeepsInv(s, first);
    RowsPersist(s1, es, m, id);
    RunKeepsInv(s1, es, m);
    assert Carries(f.rows, id, first.queue, first.opts.key.value);
  }

  lemma StepPresence(s: State, e: Event, q: string, k: string)
    requires Enabled(s, e, Unrestricted)
    ensures Present(Apply(s, e).rows, q, k) <==> Present(s.rows, q, k) || (q, k) in PairOf(e)
  {
    var t := Apply(s, e);
    if id :| Carries(s.rows, id, q, k) {
      assert Carries(t.rows, id, q, k);
    }
    if id :| Carries(t.rows, id, q, k) {
      assert id in s.rows ==> Carries(s.rows, id, q, k);
    }
    if (q, k) in PairOf(e) && !Conflicts(s.rows, e.queue, e.opts) {
      assert Carries(t.rows, e.newId, q, k);
    }
  }

  lemma InsertCount(rows: Table, id: JobId, r: Row)
    requires id !in rows
    ensures |rows[id := r]| == |rows| + 1
  {
  }

  lemma StepCount(s: State, e: Event, pairs: set<Pair>)
    requires Enabled(s, e, Unrestricted) && Covers(pairs, s.rows)
    ensures |Apply(s, e).rows| == |s.rows| + Keyless(e) + |PairOf(e) - pairs|
  {
    if !e.Enqueue? {
      assert PairOf(e) - pairs == {};
      assert Apply(s, e).rows.Keys == s.rows.Keys;
    } else if Conflicts(s.rows, e.queue, e.opts) {
      hide NewRow;
      assert Present(s.rows, e.queue, e.opts.key.value);
      assert PairOf(e) - pairs == {};
    } else {
      hide NewRow;
      assert e.opts.key.Some? ==> !Present(s.rows, e.queue, e.opts.key.value);
      assert PairOf(e) - pairs == PairOf(e);
      InsertCount(s.rows, e.newId, NewRow(e.queue, e.payload, e.opts, s.now));
    }
  }

  lemma NewPairs(known: set<Pair>, head: set<Pair>, rest: set<Pair>)
    ensures |(head + rest) - known| == |head - known| + |rest - (known + head)|
  {
    assert (head + rest) - known == (head - known) + (rest - (known + head));
  }

  lemma {:induction false} RowsGrowByPairs(s: State, es: seq<Event>, m: Sweeps, pairs: set<Pair>)
    requires Legal(s, es, m) && Covers(pairs, s.rows)
    ensures |Exec(s, es, m).rows| == |s.rows| + KeylessEnqueues(es) + |EnqueuedPairs(es) - pairs|
    decreases |es|
  {
    if es == [] {
      assert EnqueuedPairs(es) - pairs == {};
    } else {
      forall q, k {
        StepPresence(s, es[0], q, k);
      }
      StepCount(s, es[0], pairs);
      NewPairs(pairs, PairOf(es[0]), EnqueuedPairs(es[1..]));
      RowsGrowByPairs(Apply(s, es[0]), es[1..], m, pairs + PairOf(es[0]));
    }
  }

  /** In every run there is one row per distinct pair, and one per enqueue without a key. */
  lemma RowsAreDistinctPairsPlusKeyless(now: int, es: seq<Event>)
    requires Legal(Init(now), es, Unrestricted)
    ensures var s := Exec(Init(now), es, Unrestricted);
            KeysUnique(s.rows) && |s.rows| == |EnqueuedPairs(es)| + KeylessEnqueues(es)
  {
    RunKeepsInv(Init(now), es, Unrestricted);
    RowsGrowByPairs(Init(now), es, Unrestricted, {});
    assert EnqueuedPairs(es) - {} == EnqueuedPairs(es);
  }
}
