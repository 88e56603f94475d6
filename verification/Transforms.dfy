/**
  The chain of contract changes between a pinned version and the current one. A body is a value
  of any type `B`; a change is a pair of rewrites, `down` undoing it and `up` making it.
 */
module Transforms {
  import opened ApiVersion

  datatype Transform<!B> = Transform(
    version: Version,
    appliesTo: (string, string) -> bool,
    down: B -> B,
    up: B -> B)

  datatype Request = Request(route: string, verb: string)

  ghost predicate Sorted<B>(ts: seq<Transform<B>>) {
    forall i, j :: 0 <= i < j < |ts| ==> AtMost(ts[i].version, ts[j].version)
  }

  // ---- Registration ----

  /** Puts `t` behind everything that is not newer. */
  function Insert<B>(ts: seq<Transform<B>>, t: Transform<B>): seq<Transform<B>> {
    if ts == [] then [t]
    else if Less(t.version, ts[|ts| - 1].version) then Insert(ts[..|ts| - 1], t) + [ts[|ts| - 1]]
    else ts + [t]
  }

  /** The stable sort by version. */
  function SortByVersion<B>(ts: seq<Transform<B>>): seq<Transform<B>> {
    if ts == [] then [] else Insert(SortByVersion(ts[..|ts| - 1]), ts[|ts| - 1])
  }

  /** The changes that landed at `v`, in order. */
  ghost function At<B>(ts: seq<Transform<B>>, v: Version): seq<Transform<B>> {
    if ts == [] then []
    else At(ts[..|ts| - 1], v) + (if ts[|ts| - 1].version == v then [ts[|ts| - 1]] else [])
  }

  lemma AtSnoc<B>(ts: seq<Transform<B>>, t: Transform<B>, v: Version)
    ensures At(ts + [t], v) == At(ts, v) + (if t.version == v then [t] else [])
  {
  }

  /** `v` is no older than anything in `ts`. */
  ghost predicate Bounded<B>(ts: seq<Transform<B>>, v: Version) {
    forall i :: 0 <= i < |ts| ==> AtMost(ts[i].version, v)
  }

  lemma {:induction false} InsertSorts<B>(ts: seq<Transform<B>>, t: Transform<B>)
    requires Sorted(ts)
    ensures Sorted(Insert(ts, t))
    ensures forall v :: Bounded(ts, v) && AtMost(t.version, v) ==> Bounded(Insert(ts, t), v)
  {
    if ts != [] && Less(t.version, ts[|ts| - 1].version) {
      var init := ts[..|ts| - 1];
      InsertSorts(init, t);
      assert Bounded(Insert(init, t), ts[|ts| - 1].version);
      assert forall v :: Bounded(ts, v) ==> Bounded(init, v) && AtMost(ts[|ts| - 1].version, v);
    } else {
      assert ts != [] ==> AtMost(ts[|ts| - 1].version, t.version);
    }
  }

  lemma {:induction false} InsertKeepsAt<B>(ts: seq<Transform<B>>, t: Transform<B>, v: Version)
    requires Sorted(ts)
    ensures At(Insert(ts, t), v) == At(ts + [t], v)
  {
    AtSnoc(ts, t, v);
    if ts != [] && Less(t.version, ts[|ts| - 1].version) {
      var init, last := ts[..|ts| - 1], ts[|ts| - 1];
      InsertKeepsAt(init, t, v);
      AtSnoc(init, t, v);
      AtSnoc(Insert(init, t), last, v);
    }
  }

  /** Sorting puts versions in order and leaves changes of one version in the order they came. */
  lemma {:induction false} SortIsStable<B>(ts: seq<Transform<B>>, v: Version)
    ensures Sorted(SortByVersion(ts)) && At(SortByVersion(ts), v) == At(ts, v)
  {
    if ts != [] {
      var init, last := ts[..|ts| - 1], ts[|ts| - 1];
      SortIsStable(init, v);
      InsertSorts(SortByVersion(init), last);
      InsertKeepsAt(SortByVersion(init), last, v);
      AtSnoc(SortByVersion(init), last, v);
    }
  }

  lemma {:induction false} AtMember<B>(ts: seq<Transform<B>>, v: Version)
    ensures At(ts, v) != [] <==> exists i :: 0 <= i < |ts| && ts[i].version == v
    ensures forall t :: t in At(ts, v) ==> t in ts && t.version == v
    ensures forall t :: t in ts && t.version == v ==> t in At(ts, v)
  {
    if ts != [] {
      AtMember(ts[..|ts| - 1], v);
      assert ts[|ts| - 1].version == v ==> At(ts, v) != [];
      if At(ts[..|ts| - 1], v) != [] {
        var i :| 0 <= i < |ts| - 1 && ts[..|ts| - 1][i].version == v;
        assert ts[i].version == v;
      }
    }
  }

  /** The lists hold the same changes at each version, in the same order. */
  ghost predicate Agree<B>(a: seq<Transform<B>>, b: seq<Transform<B>>) {
    forall v :: At(a, v) == At(b, v)
  }

  lemma AgreeChain<B>(a: seq<Transform<B>>, b: seq<Transform<B>>, c: seq<Transform<B>>)
    requires Agree(a, b)
    ensures Agree(b, a) && (Agree(b, c) ==> Agree(a, c))
  {
  }

  lemma NewestAt<B>(ts: seq<Transform<B>>)
    requires ts != []
    ensures var at := At(ts, ts[|ts| - 1].version); at != [] && at[|at| - 1] == ts[|ts| - 1]
  {
  }

  lemma VersionAtMostNewest<B>(ts: seq<Transform<B>>, v: Version)
    requires Sorted(ts) && At(ts, v) != []
    ensures ts != [] && AtMost(v, ts[|ts| - 1].version)
  {
  }

  lemma SameNewest<B>(a: seq<Transform<B>>, b: seq<Transform<B>>)
    requires Sorted(a) && Sorted(b) && a != []
    requires Agree(a, b)
    ensures b != [] && a[|a| - 1] == b[|b| - 1]
  {
    hide At;
    NewestAt(a);
    VersionAtMostNewest(b, a[|a| - 1].version);
    NewestAt(b);
    VersionAtMostNewest(a, b[|b| - 1].version);
  }

  /** A sorted list is determined by what it holds at each version. */
  lemma {:induction false} SortedUnique<B>(a: seq<Transform<B>>, b: seq<Transform<B>>)
    requires Sorted(a) && Sorted(b)
    requires Agree(a, b)
    ensures a == b
    decreases |a|
  {
    if a == [] {
      if b != [] {
        NewestAt(b);
      }
    } else {
      SameNewest(a, b);
      var a', b' := a[..|a| - 1], b[..|b| - 1];
      forall v
        ensures At(a', v) == At(b', v)
      {
        assert At(a, v) == At(b, v);
        var tail := if a[|a| - 1].version == v then [a[|a| - 1]] else [];
        assert At(a', v) == At(a, v)[..|At(a, v)| - |tail|];
        assert At(b', v) == At(b, v)[..|At(b, v)| - |tail|];
      }
      SortedUnique(a', b');
      assert a == a' + [a[|a| - 1]] && b == b' + [b[|b| - 1]];
    }
  }

  lemma SortAgrees<B>(ts: seq<Transform<B>>)
    ensures Sorted(SortByVersion(ts)) && Agree(SortByVersion(ts), ts)
  {
    hide At;
    var sorted := SortByVersion(ts);
    SortIsStable(ts, Version(0, 0, 0));
    forall v
      ensures At(sorted, v) == At(ts, v)
    {
      SortIsStable(ts, v);
    }
  }

  /** Two registration orders build the same chain exactly if they agree within each version. */
  lemma SameChainIff<B>(a: seq<Transform<B>>, b: seq<Transform<B>>)
    ensures SortByVersion(a) == SortByVersion(b) <==> Agree(a, b)
  {
    hide Agree;
    var sa, sb := SortByVersion(a), SortByVersion(b);
    SortAgrees(a);
    SortAgrees(b);
    AgreeChain(sb, b, a);
    AgreeChain(sa, a, b);
    if Agree(a, b) {
      AgreeChain(a, b, sb);
      AgreeChain(sa, a, sb);
      SortedUnique(sa, sb);
    } else if sa == sb {
      AgreeChain(a, sa, b);
    }
  }

  ghost predicate DistinctVersions<B>(ts: seq<Transform<B>>) {
    forall i, j :: 0 <= i < j < |ts| ==> ts[i].version != ts[j].version
  }

  lemma {:induction false} AtMostOneAt<B>(ts: seq<Transform<B>>, v: Version)
    requires DistinctVersions(ts)
    ensures |At(ts, v)| <= 1
  {
    if ts != [] {
      AtMostOneAt(ts[..|ts| - 1], v);
      AtMember(ts[..|ts| - 1], v);
    }
  }

  lemma SameAt<B>(a: seq<Transform<B>>, b: seq<Transform<B>>, v: Version)
    requires DistinctVersions(a) && DistinctVersions(b)
    requires forall t :: t in a <==> t in b
    ensures At(a, v) == At(b, v)
  {
    hide At, DistinctVersions;
    AtMember(a, v);
    AtMember(b, v);
    AtMostOneAt(a, v);
    AtMostOneAt(b, v);
    if At(a, v) != [] {
      assert At(a, v)[0] in At(b, v);
    }
  }

  /** So with one change per version, the order of registration does not matter. */
  lemma RegistrationOrderIrrelevant<B>(a: seq<Transform<B>>, b: seq<Transform<B>>)
    requires DistinctVersions(a) && DistinctVersions(b)
    requires forall t :: t in a <==> t in b
    ensures SortByVersion(a) == SortByVersion(b)
  {
    hide At, SortByVersion;
    forall v
      ensures At(a, v) == At(b, v)
    {
      SameAt(a, b, v);
    }
    assert Agree(a, b);
    SameChainIff(a, b);
  }

  lemma {:induction false} SortOfSorted<B>(ts: seq<Transform<B>>)
    requires Sorted(ts)
    ensures SortByVersion(ts) == ts
  {
    if ts != [] {
      var init, last := ts[..|ts| - 1], ts[|ts| - 1];
      SortOfSorted(init);
      assert ts == init + [last];
      assert init != [] ==> AtMost(init[|init| - 1].version, last.version);
    }
  }

  lemma SortAbsorbsSort<B>(registered: seq<Transform<B>>, t: Transform<B>)
    ensures SortByVersion(SortByVersion(registered) + [t]) == SortByVersion(registered + [t])
  {
    var chain := SortByVersion(registered);
    SortIsStable(registered, t.version);
    SortOfSorted(chain);
    assert (chain + [t])[..|chain|] == chain;
    assert (registered + [t])[..|registered|] == registered;
  }

  /** The chain after registering `ts` one by one, sorting each time. */
  function Registered<B>(ts: seq<Transform<B>>): seq<Transform<B>> {
    if ts == [] then [] else SortByVersion(Registered(ts[..|ts| - 1]) + [ts[|ts| - 1]])
  }

  lemma RegisterOne<B>(ts: seq<Transform<B>>, t: Transform<B>)
    ensures Registered(ts + [t]) == SortByVersion(Registered(ts) + [t])
  {
    hide SortByVersion;
    assert (ts + [t])[..|ts|] == ts;
  }

  lemma RegisterNone<B>()
    ensures Registered<B>([]) == [] && SortByVersion<B>([]) == []
  {
  }

  /** The chain after any registrations is the stable sort of all of them. */
  lemma {:induction false} ChainIsSortOfAll<B>(ts: seq<Transform<B>>)
    ensures Registered(ts) == SortByVersion(ts)
    decreases |ts|
  {
    hide SortByVersion, Registered;
    if ts == [] {
      RegisterNone<B>();
    } else {
      var n := |ts| - 1;
      ChainIsSortOfAll(ts[..n]);
      SortAbsorbsSort(ts[..n], ts[n]);
      RegisterOne(ts[..n], ts[n]);
      assert ts[..n] + [ts[n]] == ts;
    }
  }

  // ---- The chain ----

  predicate Applies<B>(t: Transform<B>, pinned: Version, r: Request) {
    Less(pinned, t.version) && t.appliesTo(r.route, r.verb)
  }

  /** Newest change first, each undone for a client pinned before it. */
  function Downgrade<B>(ts: seq<Transform<B>>, pinned: Version, r: Request, body: B): B {
    if ts == [] then body
    else
      var last := ts[|ts| - 1];
      Downgrade(ts[..|ts| - 1], pinned, r, if Applies(last, pinned, r) then last.down(body) else body)
  }

  /** Oldest change first. */
  function Upgrade<B>(ts: seq<Transform<B>>, pinned: Version, r: Request, body: B): B {
    if ts == [] then body
    else
      var last := ts[|ts| - 1];
      var before := Upgrade(ts[..|ts| - 1], pinned, r, body);
      if Applies(last, pinned, r) then last.up(before) else before
  }

  predicate Touches<B>(ts: seq<Transform<B>>, pinned: Version, r: Request) {
    exists i :: 0 <= i < |ts| && Applies(ts[i], pinned, r)
  }

  const LANDED: Version := Version(2025, 1, 1)
  const PINNED: Version := Version(2024, 1, 1)

  function Doubling(): Transform<int> {
    Transform(LANDED, (route: string, verb: string) => true, (b: int) => 2 * b, (b: int) => b)
  }

  function Adding(): Transform<int> {
    Transform(LANDED, (route: string, verb: string) => true, (b: int) => b + 1, (b: int) => b)
  }

  /** Two changes of one version: the order of registration decides what a client gets. */
  lemma RegistrationOrderMatters(r: Request)
    ensures Downgrade(Registered([Adding(), Doubling()]), PINNED, r, 1) == 3
    ensures Downgrade(Registered([Doubling(), Adding()]), PINNED, r, 1) == 4
  {
    DowngradeTwo(Adding(), Doubling(), r);
    DowngradeTwo(Doubling(), Adding(), r);
  }

  lemma DowngradeTwo(a: Transform<int>, b: Transform<int>, r: Request)
    requires a.version == b.version == LANDED && a.appliesTo(r.route, r.verb) && b.appliesTo(r.route, r.verb)
    ensures Downgrade(Registered([a, b]), PINNED, r, 1) == a.down(b.down(1))
  {
    ChainIsSortOfAll([a, b]);
    SortOfSorted([a, b]);
    assert [a, b][..1] == [a] && [a][..0] == [];
    assert Downgrade([a], PINNED, r, b.down(1)) == a.down(b.down(1));
  }

  class TransformRegistry<B> {
    var transforms: seq<Transform<B>>

    constructor ()
      ensures transforms == []
    {
      transforms := [];
    }

    /** Sorts a list of which all but the last element is sorted: moves that one past every newer one. */
    method SortLast()
      requires transforms != []
      modifies this
      ensures transforms == Insert(old(transforms)[..|old(transforms)| - 1], old(transforms)[|old(transforms)| - 1])
    {
      var i := |transforms| - 1;
      var t := transforms[i];
      ghost var init := transforms[..i];
      assert init[..i] == init && transforms[i + 1..] == [];
      while i > 0 && Less(t.version, transforms[i - 1].version)
        invariant 0 <= i <= |init| && |transforms| == |init| + 1
        invariant transforms[..i] == init[..i] && transforms[i] == t
        invariant Insert(init, t) == Insert(init[..i], t) + transforms[i + 1..]
      {
        assert init[..i][..i - 1] == init[..i - 1] && init[..i][i - 1] == transforms[..i][i - 1];
        ghost var tail := transforms[i + 1..];
        transforms := transforms[i := transforms[i - 1]][i - 1 := t];
        i := i - 1;
        assert transforms[i + 1..] == [init[i]] + tail;
      }
      assert i > 0 ==> init[..i][i - 1] == transforms[..i][i - 1];
      assert transforms == transforms[..i] + [t] + transforms[i + 1..];
    }

    /** Push, then sort: the chain stays sorted. */
    method With(t: Transform<B>)
      requires Sorted(transforms)
      modifies this
      ensures Sorted(transforms) && transforms == SortByVersion(old(transforms) + [t])
    {
      ghost var before := transforms;
      transforms := transforms + [t];
      assert transforms[..|transforms| - 1] == before;
      SortLast();
      SortOfSorted(before);
      assert (before + [t])[..|before|] == before;
      InsertSorts(before, t);
    }

    method DowngradeResponse(pinned: Version, r: Request, body: B) returns (out: B)
      ensures out == Downgrade(transforms, pinned, r, body)
    {
      out := body;
      assert transforms[..|transforms|] == transforms;
      for i := |transforms| downto 0
        invariant Downgrade(transforms[..i], pinned, r, out) == Downgrade(transforms, pinned, r, body)
      {
        assert transforms[..i + 1][..i] == transforms[..i];
        var t := transforms[i];
        if Less(pinned, t.version) && t.appliesTo(r.route, r.verb) {
          out := t.down(out);
        }
      }
    }

    method UpgradeRequest(pinned: Version, r: Request, body: B) returns (out: B)
      ensures out == Upgrade(transforms, pinned, r, body)
    {
      out := body;
      for i := 0 to |transforms|
        invariant out == Upgrade(transforms[..i], pinned, r, body)
      {
        assert transforms[..i + 1][..i] == transforms[..i];
        var t := transforms[i];
        if Less(pinned, t.version) && t.appliesTo(r.route, r.verb) {
          out := t.up(out);
        }
      }
      assert transforms[..|transforms|] == transforms;
    }
  }

  // ---- Only the changes between two pins ----

  /** Undoes only the changes that landed after `p` and not after `q`. */
  function DowngradeBetween<B>(ts: seq<Transform<B>>, p: Version, q: Version, r: Request, body: B): B {
    if ts == [] then body
    else
      var last := ts[|ts| - 1];
      DowngradeBetween(ts[..|ts| - 1], p, q, r,
                       if Applies(last, p, r) && AtMost(last.version, q) then last.down(body) else body)
  }

  /** Makes only the changes that landed after `p` and not after `q`. */
  function UpgradeBetween<B>(ts: seq<Transform<B>>, p: Version, q: Version, r: Request, body: B): B {
    if ts == [] then body
    else
      var last := ts[|ts| - 1];
      var before := UpgradeBetween(ts[..|ts| - 1], p, q, r, body);
      if Applies(last, p, r) && AtMost(last.version, q) then last.up(before) else before
  }

  lemma {:induction false} NothingAfter<B>(ts: seq<Transform<B>>, p: Version, q: Version, r: Request, body: B)
    requires Bounded(ts, q)
    ensures Downgrade(ts, q, r, body) == body && Upgrade(ts, q, r, body) == body
    ensures DowngradeBetween(ts, p, q, r, body) == Downgrade(ts, p, r, body)
    ensures UpgradeBetween(ts, p, q, r, body) == Upgrade(ts, p, r, body)
  {
    if ts != [] {
      var init, last := ts[..|ts| - 1], ts[|ts| - 1];
      NothingAfter(init, p, q, r, body);
      NothingAfter(init, p, q, r, last.down(body));
    }
  }

  /** Downgrading to an older pin goes through every pin in between. */
  lemma {:induction false} DowngradeComposes<B>(ts: seq<Transform<B>>, p: Version, q: Version, r: Request, body: B)
    requires Sorted(ts) && AtMost(p, q)
    ensures Downgrade(ts, p, r, body) == DowngradeBetween(ts, p, q, r, Downgrade(ts, q, r, body))
    decreases |ts|
  {
    if ts != [] {
      var init, last := ts[..|ts| - 1], ts[|ts| - 1];
      if AtMost(last.version, q) {
        NothingAfter(ts, p, q, r, body);
      } else {
        DowngradeComposes(init, p, q, r, if Applies(last, q, r) then last.down(body) else body);
      }
    }
  }

  lemma {:induction false} UpgradeComposes<B>(ts: seq<Transform<B>>, p: Version, q: Version, r: Request, body: B)
    requires Sorted(ts) && AtMost(p, q)
    ensures Upgrade(ts, p, r, body) == Upgrade(ts, q, r, UpgradeBetween(ts, p, q, r, body))
    decreases |ts|
  {
    if ts != [] {
      var init, last := ts[..|ts| - 1], ts[|ts| - 1];
      if AtMost(last.version, q) {
        NothingAfter(ts, p, q, r, body);
        NothingAfter(ts, p, q, r, UpgradeBetween(ts, p, q, r, body));
      } else {
        UpgradeComposes(init, p, q, r, body);
      }
    }
  }

  // ---- Round trip ----

  /** The upgrade of every change that applies undoes its downgrade. */
  ghost predicate Invertible<B(!new)>(ts: seq<Transform<B>>, pinned: Version, r: Request) {
    forall i, b :: 0 <= i < |ts| && Applies(ts[i], pinned, r) ==> ts[i].up(ts[i].down(b)) == b
  }

  lemma {:induction false} UpgradeInvertsDowngrade<B(!new)>(ts: seq<Transform<B>>, pinned: Version, r: Request, body: B)
    requires Invertible(ts, pinned, r)
    ensures Upgrade(ts, pinned, r, Downgrade(ts, pinned, r, body)) == body
    decreases |ts|
  {
    if ts != [] {
      var init, last := ts[..|ts| - 1], ts[|ts| - 1];
      assert Invertible(init, pinned, r);
      UpgradeInvertsDowngrade(init, pinned, r, if Applies(last, pinned, r) then last.down(body) else body);
    }
  }

  /** What `touches` says is never rewritten comes back as it was, in both directions. */
  lemma {:induction false} UntouchedIsUnchanged<B>(ts: seq<Transform<B>>, pinned: Version, r: Request, body: B)
    requires !Touches(ts, pinned, r)
    ensures Downgrade(ts, pinned, r, body) == body && Upgrade(ts, pinned, r, body) == body
    decreases |ts|
  {
    if ts != [] {
      var init, last := ts[..|ts| - 1], ts[|ts| - 1];
      assert !Applies(last, pinned, r);
      assert forall i :: 0 <= i < |init| ==> init[i] == ts[i];
      UntouchedIsUnchanged(init, pinned, r, body);
    }
  }

  // ---- What one change contributes ----

  lemma {:induction false} DowngradeSplit<B>(a: seq<Transform<B>>, b: seq<Transform<B>>, pinned: Version, r: Request, body: B)
    ensures Downgrade(a + b, pinned, r, body) == Downgrade(a, pinned, r, Downgrade(b, pinned, r, body))
    decreases |b|
  {
    if b == [] {
      assert a + b == a;
    } else {
      var n := |b| - 1;
      assert (a + b)[..|a| + n] == a + b[..n] && (a + b)[|a| + n] == b[n];
      DowngradeSplit(a, b[..n], pinned, r, if Applies(b[n], pinned, r) then b[n].down(body) else body);
    }
  }

  lemma {:induction false} UpgradeSplit<B>(a: seq<Transform<B>>, b: seq<Transform<B>>, pinned: Version, r: Request, body: B)
    ensures Upgrade(a + b, pinned, r, body) == Upgrade(b, pinned, r, Upgrade(a, pinned, r, body))
    decreases |b|
  {
    if b == [] {
      assert a + b == a;
    } else {
      var n := |b| - 1;
      assert (a + b)[..|a| + n] == a + b[..n] && (a + b)[|a| + n] == b[n];
      UpgradeSplit(a, b[..n], pinned, r, body);
    }
  }

  lemma OneChange<B>(t: Transform<B>, pinned: Version, r: Request, body: B)
    ensures Downgrade([t], pinned, r, body) == if Less(pinned, t.version) && t.appliesTo(r.route, r.verb) then t.down(body) else body
    ensures Upgrade([t], pinned, r, body) == if Less(pinned, t.version) && t.appliesTo(r.route, r.verb) then t.up(body) else body
  {
    assert [t][..0] == [];
  }

  /**
    Anywhere in a chain, a change newer than the pin whose filter takes the request is undone
    between the newer and the older ones, and made between the older and the newer ones.
   */
  lemma ChangeTakesItsPlace<B>(a: seq<Transform<B>>, t: Transform<B>, b: seq<Transform<B>>, pinned: Version, r: Request, body: B)
    requires Less(pinned, t.version) && t.appliesTo(r.route, r.verb)
    ensures Downgrade(a + [t] + b, pinned, r, body) == Downgrade(a, pinned, r, t.down(Downgrade(b, pinned, r, body)))
    ensures Upgrade(a + [t] + b, pinned, r, body) == Upgrade(b, pinned, r, t.up(Upgrade(a, pinned, r, body)))
  {
    hide Downgrade, Upgrade;
    DowngradeSplit(a + [t], b, pinned, r, body);
    DowngradeSplit(a, [t], pinned, r, Downgrade(b, pinned, r, body));
    OneChange(t, pinned, r, Downgrade(b, pinned, r, body));
    UpgradeSplit(a + [t], b, pinned, r, body);
    UpgradeSplit(a, [t], pinned, r, body);
    OneChange(t, pinned, r, Upgrade(a, pinned, r, body));
  }

  /** A change that is no newer than the pin, or whose filter refuses the request, might as well not be there. */
  lemma RefusedChangeIsAbsent<B>(a: seq<Transform<B>>, t: Transform<B>, b: seq<Transform<B>>, pinned: Version, r: Request, body: B)
    requires !Less(pinned, t.version) || !t.appliesTo(r.route, r.verb)
    ensures Downgrade(a + [t] + b, pinned, r, body) == Downgrade(a + b, pinned, r, body)
    ensures Upgrade(a + [t] + b, pinned, r, body) == Upgrade(a + b, pinned, r, body)
  {
    hide Downgrade, Upgrade;
    DowngradeSplit(a + [t], b, pinned, r, body);
    DowngradeSplit(a, [t], pinned, r, Downgrade(b, pinned, r, body));
    OneChange(t, pinned, r, Downgrade(b, pinned, r, body));
    DowngradeSplit(a, b, pinned, r, body);
    UpgradeSplit(a + [t], b, pinned, r, body);
    UpgradeSplit(a, [t], pinned, r, body);
    OneChange(t, pinned, r, Upgrade(a, pinned, r, body));
    UpgradeSplit(a, b, pinned, r, body);
  }
}
