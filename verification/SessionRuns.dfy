/** Refresh-token rotation and reuse detection over every sequence of store calls. */
module SessionRuns {
  import opened Basics
  import opened Sessions

  datatype State = State(rows: Table, now: int)

  datatype Event =
    | Create(id: Uuid, user: Uuid, family: Uuid, hash: Hash, userAgent: Option<string>, ip: Option<string>, ttl: nat)
    | Rotate(presented: Hash, newId: Uuid, newHash: Hash, ttl: nat)
    | RevokeFamily(family: Uuid)
    | Tick(millis: nat)

  function Init(now: int): State {
    State([], now)
  }

  ghost predicate Unused(rows: Table, id: Uuid, h: Hash) {
    forall i :: 0 <= i < |rows| ==> rows[i].id != id && rows[i].hash != h
  }

  ghost predicate Present(rows: Table, family: Uuid) {
    exists i :: 0 <= i < |rows| && rows[i].family == family
  }

  /** Ids, families and token hashes that are drawn at random are new. */
  ghost predicate Enabled(s: State, e: Event) {
    match e
    case Create(id, _, family, h, _, _, _) => Unused(s.rows, id, h) && !Present(s.rows, family)
    case Rotate(_, newId, newHash, _) => Unused(s.rows, newId, newHash)
    case RevokeFamily(_) => true
    case Tick(_) => true
  }

  function Apply(s: State, e: Event): State {
    match e
    case Create(id, user, family, h, userAgent, ip, ttl) =>
      s.(rows := s.rows + [Fresh(id, user, family, h, userAgent, ip, ttl, s.now)])
    case Rotate(presented, newId, newHash, ttl) =>
      s.(rows := RotateRows(s.rows, presented, newId, newHash, ttl, s.now))
    case RevokeFamily(family) => s.(rows := RevokeRows(s.rows, family, s.now))
    case Tick(d) => s.(now := s.now + d)
  }

  ghost predicate Legal(s: State, es: seq<Event>)
    decreases |es|
  {
    es == [] || (Enabled(s, es[0]) && Legal(Apply(s, es[0]), es[1..]))
  }

  function Exec(s: State, es: seq<Event>): State
    decreases |es|
  {
    if es == [] then s else Exec(Apply(s, es[0]), es[1..])
  }

  function Outcome(s: State, e: Event): RotateResult
    requires e.Rotate?
  {
    RotateOutcome(s.rows, e.presented, e.newId, e.newHash, e.ttl, s.now)
  }

  /** The event is a call of `rotate` that accepts token hash `h`. */
  predicate Accepts(s: State, e: Event, h: Hash) {
    e.Rotate? && e.presented == h && Outcome(s, e).Rotated?
  }

  /** The event is a call of `rotate` that issues a new session in `family`. */
  predicate Extends(s: State, e: Event, family: Uuid) {
    e.Rotate? && Outcome(s, e).Rotated? && Outcome(s, e).session.family == family
  }

  /** The event revokes `family`: a replay of one of its spent tokens, or an explicit logout. */
  ghost predicate Burns(s: State, e: Event, family: Uuid) {
    && Present(s.rows, family)
    && (|| e == RevokeFamily(family)
        || (e.Rotate? && Outcome(s, e).ReuseDetected? && s.rows[Find(s.rows, e.presented).value].family == family))
  }

  // ---- Families are chains ----

  ghost predicate Distinct(rows: Table) {
    forall i, j :: 0 <= i < j < |rows| ==> rows[i].id != rows[j].id && rows[i].hash != rows[j].hash
  }

  /** Sessions of a family have one user, and all but the newest are revoked. */
  ghost predicate Chained(rows: Table) {
    forall i, j :: 0 <= i < j < |rows| && rows[i].family == rows[j].family ==>
      rows[i].user == rows[j].user && rows[i].revokedAt.Some?
  }

  ghost predicate Inv(s: State) {
    Distinct(s.rows) && Chained(s.rows)
  }

  /** The same sessions, some of them revoked since. */
  ghost predicate Aged(a: Table, b: Table) {
    && |a| == |b|
    && forall i :: 0 <= i < |a| ==>
         && b[i].id == a[i].id && b[i].hash == a[i].hash && b[i].family == a[i].family && b[i].user == a[i].user
         && (a[i].revokedAt.Some? ==> b[i].revokedAt.Some?)
  }

  lemma AgingKeepsChains(a: Table, b: Table)
    requires Distinct(a) && Chained(a) && Aged(a, b)
    ensures Distinct(b) && Chained(b)
  {
  }

  lemma AppendKeepsChains(rows: Table, s: Session)
    requires Distinct(rows) && Chained(rows) && Unused(rows, s.id, s.hash)
    requires forall i :: 0 <= i < |rows| && rows[i].family == s.family ==> rows[i].user == s.user && rows[i].revokedAt.Some?
    ensures Distinct(rows + [s]) && Chained(rows + [s])
  {
  }

  lemma RevokeAges(rows: Table, family: Uuid, now: int)
    ensures Aged(rows, RevokeRows(rows, family, now))
  {
  }

  lemma RotateKeepsChains(rows: Table, h: Hash, newId: Uuid, newHash: Hash, ttl: nat, now: int)
    requires Distinct(rows) && Chained(rows) && Unused(rows, newId, newHash)
    ensures Distinct(RotateRows(rows, h, newId, newHash, ttl, now)) && Chained(RotateRows(rows, h, newId, newHash, ttl, now))
  {
    hide RevokeRows, Find;
    var at := Find(rows, h);
    match RotateOutcome(rows, h, newId, newHash, ttl, now)
    case NotFound =>
    case Expired =>
    case ReuseDetected =>
      RevokeAges(rows, rows[at.value].family, now);
      AgingKeepsChains(rows, RevokeRows(rows, rows[at.value].family, now));
    case Rotated(s) =>
      var older := rows[at.value := Revoked(rows[at.value], now)];
      AgingKeepsChains(rows, older);
      AppendKeepsChains(older, s);
  }

  lemma StepKeepsInv(s: State, e: Event)
    requires Inv(s) && Enabled(s, e)
    ensures Inv(Apply(s, e))
  {
    hide RotateRows, RevokeRows, Distinct, Chained;
    match e
    case Create(id, user, family, h, userAgent, ip, ttl) =>
      AppendKeepsChains(s.rows, Fresh(id, user, family, h, userAgent, ip, ttl, s.now));
    case Rotate(presented, newId, newHash, ttl) =>
      RotateKeepsChains(s.rows, presented, newId, newHash, ttl, s.now);
    case RevokeFamily(family) =>
      RevokeAges(s.rows, family, s.now);
      AgingKeepsChains(s.rows, RevokeRows(s.rows, family, s.now));
    case Tick(_) =>
  }

  lemma {:induction false} RunKeepsInv(s: State, es: seq<Event>)
    requires Inv(s) && Legal(s, es)
    ensures Inv(Exec(s, es))
    decreases |es|
  {
    if es != [] {
      StepKeepsInv(s, es[0]);
      RunKeepsInv(Apply(s, es[0]), es[1..]);
    }
  }

  function FamilySize(rows: Table, family: Uuid): nat {
    if rows == [] then 0
    else FamilySize(rows[..|rows| - 1], family) + (if rows[|rows| - 1].family == family then 1 else 0)
  }

  lemma {:induction false} FamilySizeSame(a: Table, b: Table, family: Uuid)
    requires |a| == |b| && forall i :: 0 <= i < |a| ==> a[i].family == b[i].family
    ensures FamilySize(a, family) == FamilySize(b, family)
    decreases |a|
  {
    if a != [] {
      FamilySizeSame(a[..|a| - 1], b[..|b| - 1], family);
    }
  }

  lemma {:induction false} FamilySizePresent(rows: Table, family: Uuid)
    ensures FamilySize(rows, family) > 0 <==> Present(rows, family)
    decreases |rows|
  {
    if rows != [] {
      var init := rows[..|rows| - 1];
      FamilySizePresent(init, family);
      if i :| 0 <= i < |init| && init[i].family == family {
        assert rows[i].family == family;
      }
      if i :| 0 <= i < |rows| && rows[i].family == family {
        assert i < |init| ==> init[i].family == family;
      }
    }
  }

  lemma FamilySizeAppend(rows: Table, s: Session, family: Uuid)
    ensures FamilySize(rows + [s], family) == FamilySize(rows, family) + (if s.family == family then 1 else 0)
  {
  }

  lemma StepFamilySize(s: State, e: Event, family: Uuid)
    requires Enabled(s, e)
    ensures FamilySize(Apply(s, e).rows, family) == FamilySize(s.rows, family)
              + (if Extends(s, e, family) || (e.Create? && e.family == family) then 1 else 0)
  {
    match e {
      case Create(id, user, f, h, userAgent, ip, ttl) =>
        FamilySizeAppend(s.rows, Fresh(id, user, f, h, userAgent, ip, ttl, s.now), family);
      case Rotate(presented, _, _, _) =>
        if Outcome(s, e).Rotated? {
          var at := Find(s.rows, presented).value;
          var spent := s.rows[at := Revoked(s.rows[at], s.now)];
          FamilySizeAppend(spent, Outcome(s, e).session, family);
          FamilySizeSame(spent, s.rows, family);
        } else {
          FamilySizeSame(Apply(s, e).rows, s.rows, family);
        }
      case _ => FamilySizeSame(Apply(s, e).rows, s.rows, family);
    }
  }

  function Rotations(s: State, es: seq<Event>, family: Uuid): nat
    decreases |es|
  {
    if es == [] then 0
    else (if Extends(s, es[0], family) then 1 else 0) + Rotations(Apply(s, es[0]), es[1..], family)
  }

  lemma {:induction false} SizeCountsRotations(s: State, es: seq<Event>, family: Uuid)
    requires Legal(s, es)
    ensures var n, n' := FamilySize(s.rows, family), FamilySize(Exec(s, es).rows, family);
            && (n > 0 ==> n' == n + Rotations(s, es, family))
            && (n == 0 && n' > 0 ==> n' == 1 + Rotations(s, es, family))
    decreases |es|
  {
    if es != [] {
      StepFamilySize(s, es[0], family);
      FamilySizePresent(s.rows, family);
      assert Extends(s, es[0], family) ==> Present(s.rows, family);
      SizeCountsRotations(Apply(s, es[0]), es[1..], family);
    }
  }

  /** In every run a family is a chain of one login and its successful rotations. */
  lemma FamilyIsAChain(now: int, es: seq<Event>, family: Uuid)
    requires Legal(Init(now), es) && Present(Exec(Init(now), es).rows, family)
    ensures var rows := Exec(Init(now), es).rows;
            && Chained(rows) && Distinct(rows)
            && FamilySize(rows, family) == 1 + Rotations(Init(now), es, family)
  {
    RunKeepsInv(Init(now), es);
    SizeCountsRotations(Init(now), es, family);
    FamilySizePresent(Exec(Init(now), es).rows, family);
  }

  // ---- No token is accepted twice ----

  ghost predicate Spent(rows: Table, h: Hash) {
    exists i :: 0 <= i < |rows| && rows[i].hash == h && rows[i].revokedAt.Some?
  }

  function Acceptances(s: State, es: seq<Event>, h: Hash): nat
    decreases |es|
  {
    if es == [] then 0
    else (if Accepts(s, es[0], h) then 1 else 0) + Acceptances(Apply(s, es[0]), es[1..], h)
  }

  lemma StepSpends(s: State, e: Event, h: Hash)
    requires Inv(s) && Enabled(s, e)
    ensures Spent(s.rows, h) ==> !Accepts(s, e, h)
    ensures Spent(s.rows, h) || Accepts(s, e, h) ==> Spent(Apply(s, e).rows, h)
  {
    var t := Apply(s, e);
    if i :| 0 <= i < |s.rows| && s.rows[i].hash == h && s.rows[i].revokedAt.Some? {
      assert t.rows[i] == s.rows[i];
    } else if Accepts(s, e, h) {
      var at := Find(s.rows, h).value;
      assert t.rows[at] == Revoked(s.rows[at], s.now);
    }
  }

  lemma {:induction false} TokenAcceptedAtMostOnce(s: State, es: seq<Event>, h: Hash)
    requires Inv(s) && Legal(s, es)
    ensures Acceptances(s, es, h) <= 1
    ensures Spent(s.rows, h) ==> Acceptances(s, es, h) == 0
    decreases |es|
  {
    if es != [] {
      StepKeepsInv(s, es[0]);
      StepSpends(s, es[0], h);
      TokenAcceptedAtMostOnce(Apply(s, es[0]), es[1..], h);
    }
  }

  // ---- A burnt family stays burnt ----

  ghost predicate Alive(rows: Table, family: Uuid) {
    exists i :: 0 <= i < |rows| && rows[i].family == family && rows[i].revokedAt.None?
  }

  lemma StepKeepsPresent(s: State, e: Event, family: Uuid)
    requires Present(s.rows, family)
    ensures Present(Apply(s, e).rows, family)
  {
    var i :| 0 <= i < |s.rows| && s.rows[i].family == family;
    assert Apply(s, e).rows[i].family == family;
  }

  lemma StepKeepsAlive(s: State, e: Event, family: Uuid)
    requires Inv(s) && Alive(s.rows, family) && !Burns(s, e, family)
    ensures Alive(Apply(s, e).rows, family)
  {
    var i :| 0 <= i < |s.rows| && s.rows[i].family == family && s.rows[i].revokedAt.None?;
    if e.Rotate? && Outcome(s, e).Rotated? && Find(s.rows, e.presented).value == i {
      assert Apply(s, e).rows[|s.rows|] == Outcome(s, e).session;
    } else {
      assert Apply(s, e).rows[i] == s.rows[i];
    }
  }

  lemma StepNeedsAlive(s: State, e: Event, family: Uuid)
    requires Inv(s) && Enabled(s, e) && Present(s.rows, family) && Alive(Apply(s, e).rows, family)
    ensures Alive(s.rows, family) && !Burns(s, e, family)
  {
  }

  lemma StepAlive(s: State, e: Event, family: Uuid)
    requires Inv(s) && Enabled(s, e)
    ensures Present(s.rows, family) ==> Present(Apply(s, e).rows, family)
    ensures Present(s.rows, family) ==>
              (Alive(Apply(s, e).rows, family) <==> Alive(s.rows, family) && !Burns(s, e, family))
    ensures !Present(s.rows, family) && Present(Apply(s, e).rows, family) ==> Alive(Apply(s, e).rows, family)
    ensures Extends(s, e, family) ==> Alive(s.rows, family)
  {
    if Present(s.rows, family) {
      hide Apply, Alive, Burns;
      StepKeepsPresent(s, e, family);
      if Alive(s.rows, family) && !Burns(s, e, family) {
        StepKeepsAlive(s, e, family);
      }
      if Alive(Apply(s, e).rows, family) {
        StepNeedsAlive(s, e, family);
      }
    }
    if Extends(s, e, family) {
      assert s.rows[Find(s.rows, e.presented).value].revokedAt.None?;
    }
  }

  ghost predicate Burnt(s: State, es: seq<Event>, family: Uuid)
    decreases |es|
  {
    es != [] && (Burns(s, es[0], family) || Burnt(Apply(s, es[0]), es[1..], family))
  }

  lemma {:induction false} AliveUnlessBurnt(s: State, es: seq<Event>, family: Uuid)
    requires Inv(s) && Legal(s, es)
    ensures Present(s.rows, family) ==>
              (Alive(Exec(s, es).rows, family) <==> Alive(s.rows, family) && !Burnt(s, es, family))
    ensures !Present(s.rows, family) && Present(Exec(s, es).rows, family) ==>
              (Alive(Exec(s, es).rows, family) <==> !Burnt(s, es, family))
    decreases |es|
  {
    if es != [] {
      StepKeepsInv(s, es[0]);
      StepAlive(s, es[0], family);
      AliveUnlessBurnt(Apply(s, es[0]), es[1..], family);
    }
  }

  /** In every run a family has an unrevoked session exactly if it was never replayed or logged out. */
  lemma AliveIffNeverBurnt(now: int, es: seq<Event>, family: Uuid)
    requires Legal(Init(now), es) && Present(Exec(Init(now), es).rows, family)
    ensures Alive(Exec(Init(now), es).rows, family) <==> !Burnt(Init(now), es, family)
  {
    AliveUnlessBurnt(Init(now), es, family);
  }

  lemma {:induction false} DeadFamilyStaysDead(s: State, es: seq<Event>, family: Uuid)
    requires Inv(s) && Legal(s, es) && Present(s.rows, family) && !Alive(s.rows, family)
    ensures !Alive(Exec(s, es).rows, family) && Rotations(s, es, family) == 0
    decreases |es|
  {
    if es != [] {
      StepKeepsInv(s, es[0]);
      StepAlive(s, es[0], family);
      DeadFamilyStaysDead(Apply(s, es[0]), es[1..], family);
    }
  }

  /** After a burn no later calls give the family an unrevoked session or a successful rotation. */
  lemma BurnIsFinal(s: State, e: Event, es: seq<Event>, family: Uuid)
    requires Inv(s) && Enabled(s, e) && Burns(s, e, family) && Legal(Apply(s, e), es)
    ensures !Alive(Exec(Apply(s, e), es).rows, family)
    ensures Rotations(Apply(s, e), es, family) == 0
  {
    StepKeepsInv(s, e);
    StepAlive(s, e, family);
    DeadFamilyStaysDead(Apply(s, e), es, family);
  }

  // ---- How long a session lasts ----

  /** What was in the table is still there, and at most revoked since. */
  ghost predicate OnlyRevoked(a: Table, b: Table) {
    && |a| <= |b|
    && forall i :: 0 <= i < |a| ==> b[i] == a[i] || (a[i].revokedAt.None? && b[i] == a[i].(revokedAt := b[i].revokedAt))
  }

  lemma StepOnlyRevokes(s: State, e: Event)
    ensures OnlyRevoked(s.rows, Apply(s, e).rows)
  {
  }

  lemma {:induction false} RunOnlyRevokes(s: State, es: seq<Event>)
    requires Legal(s, es)
    ensures OnlyRevoked(s.rows, Exec(s, es).rows)
    decreases |es|
  {
    if es != [] {
      StepOnlyRevokes(s, es[0]);
      RunOnlyRevokes(Apply(s, es[0]), es[1..]);
    }
  }

  /** The event is a login or a successful rotation. */
  predicate Issues(s: State, e: Event) {
    e.Create? || (e.Rotate? && Outcome(s, e).Rotated?)
  }

  function IssuedHash(e: Event): Hash
    requires e.Create? || e.Rotate?
  {
    if e.Create? then e.hash else e.newHash
  }

  lemma IssuedRow(s: State, e: Event)
    requires Issues(s, e)
    ensures var rows := Apply(s, e).rows;
            && |rows| == |s.rows| + 1
            && var r := rows[|s.rows|];
            && r.hash == IssuedHash(e) && r.revokedAt == None && r.createdAt == s.now
            && r.expiresAt == s.now + if e.ttl <= 0x7FFF_FFFF_FFFF_FFFF then e.ttl else 1_209_600_000
  {
  }

  lemma ActiveAt(rows: Table, n: nat, now: int)
    requires Distinct(rows) && n < |rows|
    ensures GetActiveOutcome(rows, rows[n].hash, now).Some? <==> rows[n].revokedAt.None? && now < rows[n].expiresAt
  {
  }

  /**
    A session that a login or a rotation issues is in every later state found under its token
    exactly if it has not been revoked and its lifetime is not over: the one asked for, or 14 days
    if that is too long for the calendar library.
   */
  lemma IssuedLastsForLifetime(s: State, e: Event, es: seq<Event>)
    requires Inv(s) && Enabled(s, e) && Issues(s, e) && Legal(Apply(s, e), es)
    ensures var f := Exec(Apply(s, e), es);
            var lifetime := if e.ttl <= 0x7FFF_FFFF_FFFF_FFFF then e.ttl else 1_209_600_000;
            && |s.rows| < |f.rows| && f.rows[|s.rows|].hash == IssuedHash(e)
            && (GetActiveOutcome(f.rows, IssuedHash(e), f.now).Some? <==>
                  f.rows[|s.rows|].revokedAt.None? && f.now < s.now + lifetime)
  {
    IssuedRow(s, e);
    StepKeepsInv(s, e);
    RunKeepsInv(Apply(s, e), es);
    RunOnlyRevokes(Apply(s, e), es);
    ActiveAt(Exec(Apply(s, e), es).rows, |s.rows|, Exec(Apply(s, e), es).now);
  }

  /** So if nothing else happens, it is active for exactly its lifetime. */
  lemma IssuedLastsExactly(s: State, e: Event, d: nat)
    requires Inv(s) && Enabled(s, e) && Issues(s, e)
    ensures var f := Apply(Apply(s, e), Tick(d));
            GetActiveOutcome(f.rows, IssuedHash(e), f.now).Some?
            <==> d < if e.ttl <= 0x7FFF_FFFF_FFFF_FFFF then e.ttl else 1_209_600_000
  {
    var t := Apply(s, e);
    assert [Tick(d)][1..] == [];
    assert Legal(Apply(t, Tick(d)), []) && Legal(t, [Tick(d)]) && Exec(t, [Tick(d)]) == Apply(t, Tick(d));
    IssuedRow(s, e);
    IssuedLastsForLifetime(s, e, [Tick(d)]);
  }

  /** What `rotate` answers, in terms of the one row with the token's hash. */
  lemma RotateAnswers(s: State, e: Event, n: nat)
    requires Inv(s) && e.Rotate? && n < |s.rows| && s.rows[n].hash == e.presented
    ensures var r := s.rows[n];
            && (Outcome(s, e) == ReuseDetected <==> r.revokedAt.Some?)
            && (Outcome(s, e) == Expired <==> r.revokedAt.None? && r.expiresAt < s.now)
            && (Outcome(s, e).Rotated? <==> r.revokedAt.None? && s.now <= r.expiresAt)
            && (Outcome(s, e).Rotated? ==>
                  && Outcome(s, e).session.id == e.newId && Outcome(s, e).session.hash == e.newHash
                  && Outcome(s, e).session.user == r.user && Outcome(s, e).session.family == r.family
                  && Outcome(s, e).session.userAgent == None && Outcome(s, e).session.ip == None)
  {
    assert Find(s.rows, e.presented) == Some(n);
  }

  lemma UnknownIsNotFound(s: State, e: Event)
    requires e.Rotate?
    ensures Outcome(s, e) == NotFound <==> forall i :: 0 <= i < |s.rows| ==> s.rows[i].hash != e.presented
    ensures Outcome(s, e) == NotFound ==> Apply(s, e) == s
  {
  }

  // ---- Other families are untouched ----

  function OfFamily(rows: Table, family: Uuid): Table {
    if rows == [] then []
    else OfFamily(rows[..|rows| - 1], family) + (if rows[|rows| - 1].family == family then [rows[|rows| - 1]] else [])
  }

  ghost predicate Concerns(s: State, e: Event, family: Uuid) {
    || ((e.Create? || e.RevokeFamily?) && e.family == family)
    || (e.Rotate? && Find(s.rows, e.presented).Some? && s.rows[Find(s.rows, e.presented).value].family == family)
  }

  lemma {:induction false} OfFamilySame(a: Table, b: Table, family: Uuid)
    requires |a| <= |b|
    requires forall i :: 0 <= i < |a| ==> a[i] == b[i] || (a[i].family != family && b[i].family != family)
    requires forall i :: |a| <= i < |b| ==> b[i].family != family
    ensures OfFamily(a, family) == OfFamily(b, family)
    decreases |b|
  {
    if b != [] {
      OfFamilySame(if |a| == |b| then a[..|a| - 1] else a, b[..|b| - 1], family);
    }
  }

  /** A call changes the sessions of the one family it concerns, and of no other. */
  lemma OtherFamiliesUnchanged(s: State, e: Event, family: Uuid)
    requires !Concerns(s, e, family)
    ensures OfFamily(Apply(s, e).rows, family) == OfFamily(s.rows, family)
  {
    OfFamilySame(s.rows, Apply(s, e).rows, family);
  }

  /** No call of the run concerns `family`. */
  ghost predicate NeverConcerns(s: State, es: seq<Event>, family: Uuid)
    requires Legal(s, es)
    decreases |es|
  {
    es == [] || (!Concerns(s, es[0], family) && NeverConcerns(Apply(s, es[0]), es[1..], family))
  }

  /** Whatever happens to other families, logins, replays and logouts, a family's sessions stay as they are. */
  lemma {:induction false} RunLeavesOthersUnchanged(s: State, es: seq<Event>, family: Uuid)
    requires Legal(s, es) && NeverConcerns(s, es, family)
    ensures OfFamily(Exec(s, es).rows, family) == OfFamily(s.rows, family)
    decreases |es|
  {
    if es != [] {
      OtherFamiliesUnchanged(s, es[0], family);
      RunLeavesOthersUnchanged(Apply(s, es[0]), es[1..], family);
    }
  }

  // ---- Looking up and rotating agree ----

  /** `rotate` succeeds exactly where `get_active` finds the session, or at the instant it expires. */
  lemma RotateSucceedsIffActive(s: State, e: Event)
    requires Inv(s) && e.Rotate?
    ensures Outcome(s, e).Rotated? <==>
            || GetActiveOutcome(s.rows, e.presented, s.now).Some?
            || (Find(s.rows, e.presented).Some?
                && var r := s.rows[Find(s.rows, e.presented).value];
                r.revokedAt.None? && r.expiresAt == s.now)
  {
  }

  /** A login with lifetime zero, rotated at once: accepted, though it is not found to be active. */
  lemma RotateAcceptsAtExpiry() returns (login: Event, rotate: Event)
    ensures Enabled(Init(0), login) && login.Create? && rotate.Rotate? && rotate.presented == login.hash
    ensures var s := Apply(Init(0), login);
            && Enabled(s, rotate) && Outcome(s, rotate).Rotated?
            && GetActiveOutcome(s.rows, rotate.presented, s.now) == None
  {
    login := Create(0, 0, 0, [1], None, None, 0);
    rotate := Rotate([1], 1, [2], 0);
    var s := Apply(Init(0), login);
    assert s.rows == [Fresh(0, 0, 0, [1], None, None, 0, 0)];
    assert s.rows[0].hash == [1] && [1][0] != [2][0];
  }
}
