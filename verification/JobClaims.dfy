/** The order in which jobs are claimed, and how many claims a table can still produce. */
module JobClaims {
  import opened Jobs
  import opened JobRuns

  // ---- Order ----

  /** Claims on one queue that each return a job. */
  predicate AllClaimsOn(es: seq<Event>, queue: string) {
    forall i :: 0 <= i < |es| ==> es[i].Claim? && es[i].queue == queue && es[i].pick.Some?
  }

  /** A row still eligible after some claims has not been written since. */
  lemma {:induction false} EligibleWasEligible(s: State, es: seq<Event>, m: Sweeps, queue: string, id: JobId)
    requires Legal(s, es, m) && AllClaimsOn(es, queue)
    requires id in Exec(s, es, m).rows && Eligible(Exec(s, es, m).rows[id], queue, Exec(s, es, m).now)
    ensures id in s.rows && Eligible(s.rows[id], queue, s.now) && s.rows[id] == Exec(s, es, m).rows[id]
    decreases |es|
  {
    if es != [] {
      EligibleWasEligible(Apply(s, es[0]), es[1..], m, queue, id);
    }
  }

  lemma {:induction false} LaterPickWasEligible(s: State, es: seq<Event>, m: Sweeps, queue: string, i: nat)
    requires Legal(s, es, m) && AllClaimsOn(es, queue) && i < |es|
    ensures es[i].pick.value in s.rows && Eligible(s.rows[es[i].pick.value], queue, s.now)
    decreases |es|
  {
    if i > 0 {
      var t := Apply(s, es[0]);
      LaterPickWasEligible(t, es[1..], m, queue, i - 1);
      EligibleWasEligible(s, [es[0]], m, queue, es[i].pick.value);
    }
  }

  lemma {:induction false} PicksAreOrdered(s: State, es: seq<Event>, m: Sweeps, queue: string, i: nat, j: nat)
    requires Legal(s, es, m) && AllClaimsOn(es, queue) && i < j < |es|
    ensures es[i].pick.value in s.rows && es[j].pick.value in s.rows
    ensures Before(s.rows[es[i].pick.value], s.rows[es[j].pick.value])
    decreases |es|
  {
    LaterPickWasEligible(s, es, m, queue, i);
    LaterPickWasEligible(s, es, m, queue, j);
    if i > 0 {
      var t := Apply(s, es[0]);
      PicksAreOrdered(t, es[1..], m, queue, i - 1, j - 1);
      LaterPickWasEligible(t, es[1..], m, queue, i - 1);
      LaterPickWasEligible(t, es[1..], m, queue, j - 1);
      EligibleWasEligible(s, [es[0]], m, queue, es[i].pick.value);
      EligibleWasEligible(s, [es[0]], m, queue, es[j].pick.value);
    }
  }

  /** Claims with nothing between them come by descending priority, then ascending `run_at`. */
  lemma ClaimsComeInOrder(s: State, es: seq<Event>, m: Sweeps, queue: string, i: nat, j: nat)
    requires Legal(s, es, m) && AllClaimsOn(es, queue) && i < j < |es|
    ensures es[i].pick.value in s.rows && es[j].pick.value in s.rows
    ensures var earlier, later := s.rows[es[i].pick.value], s.rows[es[j].pick.value];
            && earlier.priority >= later.priority
            && (earlier.priority == later.priority ==> earlier.runAt <= later.runAt)
  {
    PicksAreOrdered(s, es, m, queue, i, j);
  }

  // ---- Budget ----

  /** Claims that returned a job, over all workers and queues. */
  function TotalClaims(es: seq<Event>): nat {
    if es == [] then 0 else (if es[0].Claim? && es[0].pick.Some? then 1 else 0) + TotalClaims(es[1..])
  }

  /** Attempts granted to the rows that the run inserts. */
  ghost function Granted(s: State, es: seq<Event>, m: Sweeps): nat
    requires Legal(s, es, m)
    decreases |es|
  {
    if es == [] then 0
    else
      (if es[0].Enqueue? && !Conflicts(s.rows, es[0].queue, es[0].opts) then RowMaxAttempts(es[0].opts) else 0)
      + Granted(Apply(s, es[0]), es[1..], m)
  }

  lemma StepBudget(s: State, e: Event)
    requires Inv(s) && Enabled(s, e, Unrestricted)
    ensures Budget(Apply(s, e).rows) == Budget(s.rows) + Granted(s, [e], Unrestricted) - TotalClaims([e])
  {
    var t := Apply(s, e);
    assert Legal(t, [], Unrestricted) && [e][1..] == [];
    match e {
      case Enqueue(newId, q, p, opts) => BudgetUpdate(s.rows, newId, NewRow(q, p, opts, s.now));
      case Claim(w, q, pick) =>
        if pick.Some? {
          BudgetUpdate(s.rows, pick.value, ClaimRow(s.rows[pick.value], w, s.now));
        }
      case _ => BudgetSame(s.rows, t.rows);
    }
  }

  /** Conservation: every claim in a run was granted by an insert or was there to begin with. */
  lemma {:induction false} ClaimsAreConserved(s: State, es: seq<Event>, m: Sweeps)
    requires Inv(s) && Legal(s, es, m)
    ensures TotalClaims(es) + Budget(Exec(s, es, m).rows) == Budget(s.rows) + Granted(s, es, m)
    decreases |es|
  {
    if es != [] {
      StepBudget(s, es[0]);
      StepKeepsInv(s, es[0]);
      ClaimsAreConserved(Apply(s, es[0]), es[1..], m);
      assert Granted(s, [es[0]], Unrestricted) + Granted(Apply(s, es[0]), es[1..], m) == Granted(s, es, m) by {
        assert [es[0]][1..] == [];
      }
      assert TotalClaims([es[0]]) + TotalClaims(es[1..]) == TotalClaims(es) by {
        assert [es[0]][1..] == [];
      }
    }
  }

  /** So workers that get no new jobs make at most `Budget` claims, however they interleave. */
  lemma ClaimsAreBounded(s: State, es: seq<Event>, m: Sweeps)
    requires Inv(s) && Legal(s, es, m)
    requires forall i :: 0 <= i < |es| ==> !es[i].Enqueue?
    ensures TotalClaims(es) <= Budget(s.rows)
  {
    ClaimsAreConserved(s, es, m);
    NothingGranted(s, es, m);
    RunKeepsInv(s, es, m);
    BudgetNonNegative(Exec(s, es, m).rows);
  }

  lemma {:induction false} NothingGranted(s: State, es: seq<Event>, m: Sweeps)
    requires Legal(s, es, m)
    requires forall i :: 0 <= i < |es| ==> !es[i].Enqueue?
    ensures Granted(s, es, m) == 0
    decreases |es|
  {
    if es != [] {
      NothingGranted(Apply(s, es[0]), es[1..], m);
    }
  }
}
