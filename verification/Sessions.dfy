/**
  The refresh-session store: rows in insertion order, each call one transaction. Tokens reach the
  table only through their hash; the hash function, the random tokens and the ids are parameters.
 */
module Sessions {
  import opened Basics

  type Uuid = nat
  type Hash = seq<int>

  /** Milliseconds. */
  const DEFAULT_TTL: nat := 14 * 24 * 60 * 60 * 1000
  const MAX_DURATION: nat := 0x7FFF_FFFF_FFFF_FFFF

  datatype Session = Session(
    id: Uuid,
    user: Uuid,
    family: Uuid,
    hash: Hash,
    userAgent: Option<string>,
    ip: Option<string>,
    createdAt: int,
    lastUsedAt: int,
    revokedAt: Option<int>,
    expiresAt: int)

  type Table = seq<Session>

  datatype RotateResult = Rotated(session: Session) | NotFound | Expired | ReuseDetected

  /** A lifetime too long for the calendar library falls back to 14 days. */
  function Lifetime(ttl: nat): nat {
    if ttl <= MAX_DURATION then ttl else DEFAULT_TTL
  }

  /** The row with this token hash, if any. */
  function Find(rows: Table, h: Hash): (r: Option<nat>)
    ensures r.Some? ==> r.value < |rows| && rows[r.value].hash == h
    ensures r.None? <==> forall i :: 0 <= i < |rows| ==> rows[i].hash != h
  {
    if rows == [] then None
    else
      var before := Find(rows[..|rows| - 1], h);
      if before.Some? then before
      else if rows[|rows| - 1].hash == h then Some(|rows| - 1)
      else None
  }

  function Fresh(id: Uuid, user: Uuid, family: Uuid, h: Hash, userAgent: Option<string>, ip: Option<string>, ttl: nat, now: int): Session {
    Session(id, user, family, h, userAgent, ip, now, now, None, now + Lifetime(ttl))
  }

  function Revoked(s: Session, now: int): Session {
    if s.revokedAt.None? then s.(revokedAt := Some(now)) else s
  }

  /** `UPDATE ... SET revoked_at WHERE family_id = $1 AND revoked_at IS NULL`. */
  function RevokeRows(rows: Table, family: Uuid, now: int): (r: Table)
    ensures |r| == |rows|
  {
    seq(|rows|, i requires 0 <= i < |rows| => if rows[i].family == family then Revoked(rows[i], now) else rows[i])
  }

  function RotateOutcome(rows: Table, h: Hash, newId: Uuid, newHash: Hash, ttl: nat, now: int): RotateResult {
    var at := Find(rows, h);
    if at.None? then NotFound
    else
      var presented := rows[at.value];
      if presented.revokedAt.Some? then ReuseDetected
      else if presented.expiresAt < now then Expired
      else Rotated(Fresh(newId, presented.user, presented.family, newHash, None, None, ttl, now))
  }

  function RotateRows(rows: Table, h: Hash, newId: Uuid, newHash: Hash, ttl: nat, now: int): Table {
    var at := Find(rows, h);
    match RotateOutcome(rows, h, newId, newHash, ttl, now)
    case NotFound => rows
    case Expired => rows
    case ReuseDetected => RevokeRows(rows, rows[at.value].family, now)
    case Rotated(s) => rows[at.value := Revoked(rows[at.value], now)] + [s]
  }

  predicate Active(s: Session, now: int) {
    s.revokedAt.None? && s.expiresAt > now
  }

  /** What `get_active` answers; its only error is "not found". */
  function GetActiveOutcome(rows: Table, h: Hash, now: int): (r: Option<Session>)
    ensures r.None? <==> forall i :: 0 <= i < |rows| ==> !(rows[i].hash == h && Active(rows[i], now))
    ensures r.Some? ==> r.value in rows && r.value.hash == h && Active(r.value, now)
  {
    if rows == [] then None
    else
      var before := GetActiveOutcome(rows[..|rows| - 1], h, now);
      var last := rows[|rows| - 1];
      if before.Some? then before
      else if last.hash == h && Active(last, now) then Some(last)
      else None
  }

  class SessionStore {
    const hash: string -> Hash
    var rows: Table

    constructor (hash: string -> Hash)
      ensures rows == [] && this.hash == hash
    {
      this.hash := hash;
      rows := [];
    }

    /** `token`, `id` and `family` are the random values the store draws. */
    method Create(user: Uuid, userAgent: Option<string>, ip: Option<string>, ttl: nat,
                  now: int, id: Uuid, family: Uuid, token: string)
      returns (issued: Session)
      modifies this`rows
      ensures issued == Fresh(id, user, family, hash(token), userAgent, ip, ttl, now)
      ensures rows == old(rows) + [issued]
      ensures issued.id == id && issued.user == user && issued.family == family && issued.hash == hash(token)
      ensures issued.userAgent == userAgent && issued.ip == ip
      ensures issued.revokedAt == None && issued.createdAt == now && issued.lastUsedAt == now
      ensures issued.expiresAt == now + if ttl <= 0x7FFF_FFFF_FFFF_FFFF then ttl else 1_209_600_000
    {
      var lifetime := if ttl > MAX_DURATION then DEFAULT_TTL else ttl;
      issued := Session(id, user, family, hash(token), userAgent, ip, now, now, None, now + lifetime);
      rows := rows + [issued];
    }

    method RevokeFamily(family: Uuid, now: int)
      modifies this`rows
      ensures rows == RevokeRows(old(rows), family, now)
      ensures |rows| == |old(rows)|
      ensures forall i :: 0 <= i < |rows| ==>
                rows[i] == if old(rows)[i].family == family && old(rows)[i].revokedAt.None?
                           then old(rows)[i].(revokedAt := Some(now)) else old(rows)[i]
    {
      var i := 0;
      while i < |rows|
        invariant 0 <= i <= |rows| == |old(rows)|
        invariant rows[..i] == RevokeRows(old(rows), family, now)[..i]
        invariant rows[i..] == old(rows)[i..]
      {
        assert rows[i] == rows[i..][0] == old(rows)[i];
        if rows[i].family == family && rows[i].revokedAt.None? {
          rows := rows[i := rows[i].(revokedAt := Some(now))];
        }
        i := i + 1;
      }
    }

    method Position(h: Hash) returns (at: Option<nat>)
      ensures at == Find(rows, h)
    {
      for i := 0 to |rows|
        invariant Find(rows[..i], h).None?
      {
        assert rows[..i + 1][..i] == rows[..i];
        if rows[i].hash == h {
          FindInPrefix(rows, h, i + 1);
          return Some(i);
        }
      }
      assert rows[..|rows|] == rows;
      return None;
    }

    method Rotate(token: string, ttl: nat, now: int, newId: Uuid, newToken: string) returns (result: RotateResult)
      modifies this`rows
      ensures result == RotateOutcome(old(rows), hash(token), newId, hash(newToken), ttl, now)
      ensures rows == RotateRows(old(rows), hash(token), newId, hash(newToken), ttl, now)
      ensures result.Rotated? ==>
                result.session.expiresAt == now + if ttl <= 0x7FFF_FFFF_FFFF_FFFF then ttl else 1_209_600_000
    {
      var at := Position(hash(token));
      if at.None? {
        return NotFound;
      }
      var found := rows[at.value];
      if found.revokedAt.Some? {
        RevokeFamily(found.family, now);
        return ReuseDetected;
      }
      if found.expiresAt < now {
        return Expired;
      }
      rows := rows[at.value := found.(revokedAt := Some(now))];
      var issued := Create(found.user, None, None, ttl, now, newId, found.family, newToken);
      return Rotated(issued);
    }

    method GetActive(token: string, now: int) returns (found: Option<Session>)
      ensures found == GetActiveOutcome(rows, hash(token), now)
    {
      var h := hash(token);
      for i := 0 to |rows|
        invariant GetActiveOutcome(rows[..i], h, now).None?
      {
        assert rows[..i + 1][..i] == rows[..i];
        if rows[i].hash == h && rows[i].revokedAt.None? && rows[i].expiresAt > now {
          ActiveInPrefix(rows, h, now, i + 1);
          return Some(rows[i]);
        }
      }
      assert rows[..|rows|] == rows;
      return None;
    }
  }

  lemma {:induction false} FindInPrefix(rows: Table, h: Hash, n: nat)
    requires n <= |rows| && Find(rows[..n], h).Some?
    ensures Find(rows, h) == Find(rows[..n], h)
    decreases |rows|
  {
    if n < |rows| {
      var init := rows[..|rows| - 1];
      assert init[..n] == rows[..n];
      FindInPrefix(init, h, n);
    } else {
      assert rows[..n] == rows;
    }
  }

  lemma {:induction false} ActiveInPrefix(rows: Table, h: Hash, now: int, n: nat)
    requires n <= |rows| && GetActiveOutcome(rows[..n], h, now).Some?
    ensures GetActiveOutcome(rows, h, now) == GetActiveOutcome(rows[..n], h, now)
    decreases |rows|
  {
    if n < |rows| {
      var init := rows[..|rows| - 1];
      assert init[..n] == rows[..n];
      ActiveInPrefix(init, h, now, n);
    } else {
      assert rows[..n] == rows;
    }
  }
}
