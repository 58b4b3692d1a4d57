/**
 The whole assignment of positions where 64 bits leave room: everything keeps the
 distance its metadata or its number asks for, and lies where it should.
 */
module OrderSpacing {
  import opened Prelude
  import opened Text
  import Sorting
  import opened Order

  // ── What is asked of a folder, and what is promised ──────────────────────

  ghost predicate Near(x: Option<I64>, v: int) {
    x.Some? ==> 0 - v <= x.value <= v
  }

  /** Positions, metadata and numbers in names are at most `v` away from 0. */
  ghost predicate Within(items: seq<Item>, v: int) {
    && v >= 0
    && (forall i :: 0 <= i < |items| ==> Near(items[i].existing, v) && Near(items[i].meta, v))
    && (forall i: nat :: NumsOf(items)(i) <= v)
  }

  /** Each item can be placed beyond all others without leaving 64 bits. */
  ghost predicate Headroom(items: seq<Item>) {
    exists v :: Within(items, v) && Roomy(|items|, v)
  }

  predicate Roomy(n: int, v: int) {
    (n + 4) * (v + 2) <= I64_MAX
  }

  /** The position of an item, as an unbounded integer. */
  ghost function Pos(placed: Placed, i: int): int {
    if 0 <= i < |placed| && placed[i].Some? then placed[i].value else 0
  }

  ghost function Meta(items: seq<Item>, i: int): int {
    if 0 <= i < |items| && items[i].meta.Some? then items[i].meta.value else 0
  }

  ghost function Number(items: seq<Item>, i: nat): int {
    NumsOf(items)(i)
  }

  /** Items placed by metadata differ as it does, above every position there was. */
  ghost predicate MetaSpaced(items: seq<Item>, t: Trace) {
    && (forall i: nat, j: nat :: ByMeta(items, Existing(items), i) && ByMeta(items, Existing(items), j) ==>
          Pos(t.placed, i) - Pos(t.placed, j) == Meta(items, i) - Meta(items, j))
    && (forall i: nat, j: nat :: ByMeta(items, Existing(items), i) && j < |items| && items[j].existing.Some? ==>
          Pos(t.placed, j) < Pos(t.placed, i))
  }

  /** New members of a cluster differ from its anchor as their numbers. */
  ghost predicate ClusterSpaced(items: seq<Item>, t: Trace, c: Cluster) {
    forall i :: i in c.members && i < |t.byMeta| && t.byMeta[i].None? ==>
      Pos(t.placed, i) - Pos(t.placed, c.anchor) == Number(items, i) - Number(items, c.anchor)
  }

  /** An unanchored cluster lies above everything placed before it. */
  ghost predicate ClusterAbove(t: Trace, k: nat)
    requires k < |t.clusters|
  {
    forall m, i: nat ::
      (!t.clusters[k].anchored && m in t.clusters[k].members && BeforeIn(t.byMeta, t.clusters, k, i)) ==>
      Pos(t.placed, i) < Pos(t.placed, m)
  }

  /** The item was placed before cluster `k`, by `before` or by an earlier one. */
  ghost predicate BeforeIn(before: Placed, clusters: seq<Cluster>, k: nat, i: nat)
    requires k <= |clusters|
  {
    i < |before| && (before[i].Some? || EarlierMember(clusters, k, i))
  }

  /** The leftovers follow each other above everything else. */
  ghost predicate LeftoversSpaced(items: seq<Item>, t: Trace) {
    && (forall k :: 0 <= k < |t.leftovers| ==> Pos(t.placed, t.leftovers[k]) == t.lastTop + 1 + k)
    && (forall i: nat :: i < |items| && i !in t.leftovers ==> Pos(t.placed, i) <= t.lastTop)
  }

  /** Metadata places every item that has it, a cluster every member, and only what
      neither places is left over. */
  ghost predicate AllFound(items: seq<Item>, t: Trace) {
    && |t.byMeta| == |items|
    && (forall i: nat :: i < |items| ==> (t.byMeta[i].Some? <==> items[i].existing.Some? || items[i].meta.Some?))
    && (forall i: nat :: i in t.leftovers <==> i < |items| && !BeforeIn(t.byMeta, t.clusters, |t.clusters|, i))
  }

  ghost predicate Spaced(items: seq<Item>, t: Trace) {
    && MetaSpaced(items, t)
    && (forall k :: 0 <= k < |t.clusters| ==> ClusterSpaced(items, t, t.clusters[k]) && ClusterAbove(t, k))
    && LeftoversSpaced(items, t)
    && AllFound(items, t)
  }

  // ── Bounds ───────────────────────────────────────────────────────────────

  /** No position passes this before cluster `k`. */
  function Ceiling(v: int, k: int): int
    decreases k
  {
    if k <= 0 then 3 * v + 1 else Ceiling(v, k - 1) + v + 1
  }

  lemma {:induction false} CeilingGrows(v: int, k: int, l: int)
    requires v >= 0 && 0 <= k <= l
    ensures 3 * v + 1 <= Ceiling(v, k) <= Ceiling(v, l)
    decreases l
  {
    if l > 0 {
      CeilingGrows(v, if k < l then k else l - 1, l - 1);
    }
  }

  lemma {:induction false} CeilingIs(v: int, k: int)
    requires k >= 0
    ensures Ceiling(v, k) == 3 * v + 1 + k * (v + 1)
  {
    if k > 0 {
      CeilingIs(v, k - 1);
      assert k * (v + 1) == (k - 1) * (v + 1) + (v + 1);
    }
  }

  lemma RoomyFits(v: int, n: int)
    requires v >= 0 && n >= 0 && Roomy(n, v)
    ensures Ceiling(v, n) + v + n + 2 <= I64_MAX && 4 * v + 8 <= I64_MAX
  {
    CeilingIs(v, n);
    assert (n + 4) * (v + 2) == n * (v + 1) + n + 4 * v + 8;
    assert n * (v + 1) >= 0;
  }

  /** Different numbers below `n` are at most `n`. */
  lemma {:induction false} Pigeonhole(s: seq<nat>, n: nat)
    requires Sorting.Distinct(s) && forall i :: 0 <= i < |s| ==> s[i] < n
    ensures |s| <= n
  {
    if s != [] {
      assert s[0] < n;
      if k :| 0 <= k < |s| && s[k] == n - 1 {
        var rest := s[..k] + s[k + 1..];
        forall i | 0 <= i < |rest| ensures rest[i] < n - 1 {
          assert rest[i] == if i < k then s[i] else s[i + 1];
        }
        Pigeonhole(rest, n - 1);
      } else {
        Pigeonhole(s, n - 1);
      }
    }
  }

  lemma ClustersAreFew(num: nat -> I64, placed: Placed, clusters: seq<Cluster>)
    requires Disjoint(clusters) && forall k :: 0 <= k < |clusters| ==> Anchors(num, placed, clusters[k])
    ensures |clusters| <= |placed|
  {
    var anchors := seq(|clusters|, i requires 0 <= i < |clusters| => clusters[i].anchor);
    forall i | 0 <= i < |clusters| ensures anchors[i] in clusters[i].members && anchors[i] < |placed| {
      assert Anchors(num, placed, clusters[i]);
    }
    forall i, j | 0 <= i < j < |anchors| ensures anchors[i] != anchors[j] {
      assert anchors[i] in clusters[i].members && anchors[j] in clusters[j].members;
    }
    Pigeonhole(anchors, |placed|);
  }

  ghost predicate Inside(placed: Placed, lo: int, hi: int) {
    forall i :: 0 <= i < |placed| && placed[i].Some? ==> lo <= placed[i].value <= hi
  }

  lemma HighestInside(placed: Placed, top: I64, lo: int, hi: int)
    requires IsHighest(placed, top) && lo <= 0 <= hi && Inside(placed, lo, hi)
    ensures lo <= top <= hi
  {
    if Some(top) in placed {
      var i :| 0 <= i < |placed| && placed[i] == Some(top);
    }
  }

  // ── Phase 1 ──────────────────────────────────────────────────────────────

  lemma MetaFits(items: seq<Item>, after: Placed, top: I64, lowest: I64, v: int)
    requires |after| == |items| && Within(items, v) && 4 * v + 8 <= I64_MAX
    requires IsHighest(Existing(items), top) && IsLowest(items, Existing(items), lowest)
    requires MetaPlaced(items, Existing(items), after, lowest, WrappedNext(top))
    ensures forall i: nat :: ByMeta(items, Existing(items), i) ==>
      after[i].Some? && top < after[i].value == top + 1 + (Meta(items, i) - lowest)
    ensures Inside(after, 0 - v, 3 * v + 1)
  {
    assert Inside(Existing(items), 0 - v, v) by {
      forall i | 0 <= i < |items| && Existing(items)[i].Some? ensures 0 - v <= Existing(items)[i].value <= v {
        assert Near(items[i].existing, v);
      }
    }
    HighestInside(Existing(items), top, 0 - v, v);
    forall i: nat | ByMeta(items, Existing(items), i)
      ensures after[i].Some? && top < after[i].value == top + 1 + (Meta(items, i) - lowest) <= 3 * v + 1
    {
      var l: nat :| ByMeta(items, Existing(items), l) && lowest == items[l].meta.value;
      assert Near(items[l].meta, v) && Near(items[i].meta, v);
    }
  }

  // ── Phase 2 ──────────────────────────────────────────────────────────────

  /** Before cluster `k`: the positions are within bounds, and the members of the
      clusters before all have one. */
  ghost predicate StageFits(before: Placed, after: Placed, clusters: seq<Cluster>, v: int, k: nat)
    requires |before| == |after| && k <= |clusters|
  {
    && Inside(Stage(before, after, clusters, k), -2 * v, Ceiling(v, k))
    && (forall i :: 0 <= i < |before| && EarlierMember(clusters, k, i) ==> after[i].Some?)
  }

  lemma StageStep(before: Placed, after: Placed, clusters: seq<Cluster>, k: nat, i: nat)
    requires |before| == |after| && k < |clusters| && i < |before|
    ensures EarlierMember(clusters, k + 1, i) <==> EarlierMember(clusters, k, i) || i in clusters[k].members
    ensures i !in clusters[k].members ==>
      Stage(before, after, clusters, k + 1)[i] == Stage(before, after, clusters, k)[i]
  {
    if EarlierMember(clusters, k + 1, i) {
      var j :| 0 <= j < k + 1 && i in clusters[j].members;
      assert j < k ==> EarlierMember(clusters, k, i);
    }
    if EarlierMember(clusters, k, i) {
      var j :| 0 <= j < k && i in clusters[j].members;
      assert j < k + 1;
    }
  }

  /** What phases 1 and 2 leave, with bounds on what they were given. */
  ghost predicate Bounds(
    num: nat -> I64, before: Placed, after: Placed, clusters: seq<Cluster>, tops: seq<I64>, v: int)
  {
    && |before| == |after| && |tops| == |clusters| <= |before|
    && NamesPlaced(num, before, after, clusters, tops)
    && (forall k {:trigger Anchors(num, before, clusters[k])} :: 0 <= k < |clusters| ==>
          Anchors(num, before, clusters[k]))
    && Inside(before, 0 - v, 3 * v + 1)
    && v >= 0 && (forall i: nat :: 0 <= num(i) <= v) && Ceiling(v, |before|) + v + |before| + 2 <= I64_MAX
  }

  /** The anchor of a cluster has a position within bounds. */
  lemma AnchorFits(
    num: nat -> I64, before: Placed, after: Placed, clusters: seq<Cluster>, tops: seq<I64>, v: int, k: nat)
    requires Bounds(num, before, after, clusters, tops, v) && k < |clusters| && StageFits(before, after, clusters, v, k)
    ensures clusters[k].anchor < |before| && -2 * v <= tops[k] <= Ceiling(v, k)
    ensures tops[k] < I64_MAX
    ensures Pos(after, clusters[k].anchor) <= (if clusters[k].anchored then 3 * v + 1 else tops[k] + 1)
    ensures Pos(after, clusters[k].anchor) >= (if clusters[k].anchored then 0 - v else tops[k] + 1)
  {
    var c := clusters[k];
    assert Anchors(num, before, c) && ClusterPlaced(num, before, after, c);
    assert StartsAbove(before, after, clusters, k, tops[k]);
    CeilingGrows(v, k, |before|);
    HighestInside(Stage(before, after, clusters, k), tops[k], -2 * v, Ceiling(v, k));
  }

  /** So has every member. */
  lemma MemberFits(
    num: nat -> I64, before: Placed, after: Placed, clusters: seq<Cluster>, tops: seq<I64>, v: int, k: nat, i: nat)
    requires Bounds(num, before, after, clusters, tops, v) && k < |clusters| && StageFits(before, after, clusters, v, k)
    requires i in clusters[k].members
    ensures i < |before| && after[i].Some? && -2 * v <= after[i].value <= Ceiling(v, k) + v + 1
    ensures before[i].None? ==> Pos(after, i) - Pos(after, clusters[k].anchor) == num(i) - num(clusters[k].anchor)
  {
    var c := clusters[k];
    assert Anchors(num, before, c) && ClusterPlaced(num, before, after, c);
    AnchorFits(num, before, after, clusters, tops, v, k);
    CeilingGrows(v, k, |before|);
    assert 0 <= num(i) <= v && 0 <= num(c.anchor) <= v;
    assert !c.anchored ==> num(c.anchor) <= num(i);
  }

  lemma {:induction false} StagesFit(
    num: nat -> I64, before: Placed, after: Placed, clusters: seq<Cluster>, tops: seq<I64>, v: int, k: nat)
    requires Bounds(num, before, after, clusters, tops, v) && k <= |clusters|
    ensures StageFits(before, after, clusters, v, k)
    decreases k
  {
    if k == 0 {
      StageFitsFirst(num, before, after, clusters, tops, v);
    } else {
      StagesFit(num, before, after, clusters, tops, v, k - 1);
      StageFitsNext(num, before, after, clusters, tops, v, k - 1);
    }
  }

  lemma StageFitsNext(
    num: nat -> I64, before: Placed, after: Placed, clusters: seq<Cluster>, tops: seq<I64>, v: int, k: nat)
    requires Bounds(num, before, after, clusters, tops, v) && k < |clusters| && StageFits(before, after, clusters, v, k)
    ensures StageFits(before, after, clusters, v, k + 1)
  {
    var stage := Stage(before, after, clusters, k + 1);
    forall i | 0 <= i < |before| ensures FitsAt(stage[i], v, k + 1) {
      StageFitsAt(num, before, after, clusters, tops, v, k, i);
    }
    InsideBy(stage, v, k + 1);
    forall i | 0 <= i < |before| && EarlierMember(clusters, k + 1, i) ensures after[i].Some? {
      StageFitsAt(num, before, after, clusters, tops, v, k, i);
    }
  }

  ghost predicate FitsAt(x: Option<I64>, v: int, k: int) {
    x.Some? ==> -2 * v <= x.value <= Ceiling(v, k)
  }

  lemma InsideBy(placed: Placed, v: int, k: int)
    requires forall i :: 0 <= i < |placed| ==> FitsAt(placed[i], v, k)
    ensures Inside(placed, -2 * v, Ceiling(v, k))
  {
    forall i | 0 <= i < |placed| && placed[i].Some? ensures -2 * v <= placed[i].value <= Ceiling(v, k) {
      assert FitsAt(placed[i], v, k);
    }
  }

  lemma StageFitsFirst(num: nat -> I64, before: Placed, after: Placed, clusters: seq<Cluster>, tops: seq<I64>, v: int)
    requires Bounds(num, before, after, clusters, tops, v)
    ensures StageFits(before, after, clusters, v, 0)
  {
    var stage := Stage(before, after, clusters, 0);
    forall i | 0 <= i < |before| ensures !EarlierMember(clusters, 0, i) && FitsAt(stage[i], v, 0) {
      assert !EarlierMember(clusters, 0, i);
      assert stage[i] == before[i];
    }
    InsideBy(stage, v, 0);
  }

  lemma StageFitsAt(
    num: nat -> I64, before: Placed, after: Placed, clusters: seq<Cluster>, tops: seq<I64>, v: int, k: nat, i: nat)
    requires Bounds(num, before, after, clusters, tops, v) && k < |clusters| && StageFits(before, after, clusters, v, k)
    requires i < |before|
    ensures FitsAt(Stage(before, after, clusters, k + 1)[i], v, k + 1)
    ensures EarlierMember(clusters, k + 1, i) ==> after[i].Some?
  {
    StageStep(before, after, clusters, k, i);
    CeilingGrows(v, k, k);
    if i in clusters[k].members {
      MemberFits(num, before, after, clusters, tops, v, k, i);
    }
  }

  // ── The theorem ──────────────────────────────────────────────────────────

  lemma TraceBounds(items: seq<Item>, threshold: int, t: Trace, v: int)
    requires Phases(items, threshold, t) && Within(items, v) && Roomy(|items|, v)
    ensures Bounds(NumsOf(items), t.byMeta, t.byName, t.clusters, t.tops, v)
  {
    RoomyFits(v, |items|);
    MetaFits(items, t.byMeta, t.maxpos, t.lowest, v);
    ClustersAreDisjoint(items, t.byMeta, t.clusters, threshold);
    ClustersAreFew(NumsOf(items), t.byMeta, t.clusters);
  }

  /** A position taken in phase 1 or 2 is kept. */
  lemma Kept(items: seq<Item>, threshold: int, t: Trace)
    requires Phases(items, threshold, t)
    ensures |t.byMeta| == |t.byName| == |t.placed| == |items|
    ensures forall i :: 0 <= i < |items| && t.byMeta[i].Some? ==> t.byName[i] == t.byMeta[i]
    ensures forall i :: 0 <= i < |items| && t.byName[i].Some? ==> t.placed[i] == t.byName[i]
    ensures forall i :: 0 <= i < |items| && items[i].existing.Some? ==> t.placed[i] == items[i].existing
  {
    EveryItemOnce(items, threshold, t);
  }

  lemma MetaIsSpaced(items: seq<Item>, threshold: int, t: Trace, v: int)
    requires Phases(items, threshold, t) && Within(items, v) && Roomy(|items|, v)
    ensures MetaSpaced(items, t)
  {
    RoomyFits(v, |items|);
    MetaFits(items, t.byMeta, t.maxpos, t.lowest, v);
    Kept(items, threshold, t);
    forall i: nat | ByMeta(items, Existing(items), i)
      ensures Pos(t.placed, i) == t.maxpos + 1 + (Meta(items, i) - t.lowest) > t.maxpos
    {
    }
    forall j: nat | j < |items| && items[j].existing.Some? ensures Pos(t.placed, j) <= t.maxpos {
      assert Existing(items)[j] == items[j].existing;
    }
  }

  /** Every member has its position at its distance from the anchor. */
  lemma MembersAreSpaced(
    num: nat -> I64, before: Placed, after: Placed, clusters: seq<Cluster>, tops: seq<I64>, v: int, k: nat)
    requires Bounds(num, before, after, clusters, tops, v) && k < |clusters| && StageFits(before, after, clusters, v, k)
    ensures forall i :: i in clusters[k].members ==>
      && i < |before| && after[i].Some?
      && (before[i].None? ==> Pos(after, i) - Pos(after, clusters[k].anchor) == num(i) - num(clusters[k].anchor))
  {
    forall i | i in clusters[k].members
      ensures i < |before| && after[i].Some?
      ensures before[i].None? ==> Pos(after, i) - Pos(after, clusters[k].anchor) == num(i) - num(clusters[k].anchor)
    {
      MemberFits(num, before, after, clusters, tops, v, k, i);
    }
  }

  lemma MembersAreAbove(
    num: nat -> I64, before: Placed, after: Placed, clusters: seq<Cluster>, tops: seq<I64>, v: int, k: nat,
    m: nat, i: nat)
    requires Bounds(num, before, after, clusters, tops, v) && k < |clusters| && StageFits(before, after, clusters, v, k)
    requires !clusters[k].anchored && m in clusters[k].members && i < |before|
    requires before[i].Some? || EarlierMember(clusters, k, i)
    ensures Pos(after, i) < Pos(after, m) && after[i].Some? && m < |before| && after[m].Some?
  {
    AnchorFits(num, before, after, clusters, tops, v, k);
    MemberFits(num, before, after, clusters, tops, v, k, m);
    assert Anchors(num, before, clusters[k]) && ClusterPlaced(num, before, after, clusters[k]);
    assert StartsAbove(before, after, clusters, k, tops[k]);
    UnanchoredLiesAbove(num, before, after, clusters, k, tops[k], m);
    assert Stage(before, after, clusters, k)[i] == after[i];
  }

  lemma ClusterIsSpaced(items: seq<Item>, t: Trace, v: int, k: nat)
    requires |t.byMeta| == |t.byName| == |t.placed| && k < |t.clusters|
    requires forall i :: 0 <= i < |t.byName| && t.byName[i].Some? ==> t.placed[i] == t.byName[i]
    requires Bounds(NumsOf(items), t.byMeta, t.byName, t.clusters, t.tops, v)
    ensures ClusterSpaced(items, t, t.clusters[k]) && ClusterAbove(t, k)
  {
    SpacedIn(NumsOf(items), t.byMeta, t.byName, t.placed, t.clusters, t.tops, v, k);
  }

  lemma SpacedIn(
    num: nat -> I64, before: Placed, after: Placed, placed: Placed, clusters: seq<Cluster>, tops: seq<I64>, v: int,
    k: nat)
    requires Bounds(num, before, after, clusters, tops, v) && k < |clusters| && |placed| == |after|
    requires forall i :: 0 <= i < |after| && after[i].Some? ==> placed[i] == after[i]
    ensures forall i :: i in clusters[k].members && i < |before| && before[i].None? ==>
      Pos(placed, i) - Pos(placed, clusters[k].anchor) == num(i) - num(clusters[k].anchor)
    ensures forall m, i: nat ::
      (!clusters[k].anchored && m in clusters[k].members && BeforeIn(before, clusters, k, i)) ==>
      Pos(placed, i) < Pos(placed, m)
  {
    StagesFit(num, before, after, clusters, tops, v, k);
    MembersAreSpaced(num, before, after, clusters, tops, v, k);
    AnchorFits(num, before, after, clusters, tops, v, k);
    assert clusters[k].anchor in clusters[k].members by {
      assert Anchors(num, before, clusters[k]);
    }
    forall m, i: nat | !clusters[k].anchored && m in clusters[k].members && BeforeIn(before, clusters, k, i)
      ensures Pos(placed, i) < Pos(placed, m)
    {
      MembersAreAbove(num, before, after, clusters, tops, v, k, m, i);
    }
  }

  lemma LastStage(items: seq<Item>, threshold: int, t: Trace)
    requires Phases(items, threshold, t)
    ensures Stage(t.byMeta, t.byName, t.clusters, |t.clusters|) == t.byName
    ensures forall i :: 0 <= i < |items| && !EarlierMember(t.clusters, |t.clusters|, i) ==> t.byName[i] == t.byMeta[i]
  {
  }

  lemma LeftoversAreSpaced(items: seq<Item>, threshold: int, t: Trace, v: int)
    requires Phases(items, threshold, t)
    requires Bounds(NumsOf(items), t.byMeta, t.byName, t.clusters, t.tops, v)
    ensures LeftoversSpaced(items, t)
  {
    var n := |t.clusters|;
    StagesFit(NumsOf(items), t.byMeta, t.byName, t.clusters, t.tops, v, n);
    LastStage(items, threshold, t);
    CeilingGrows(v, n, |items|);
    HighestInside(t.byName, t.lastTop, -2 * v, Ceiling(v, n));
    LeftoversFollow(items, t.byName, t.placed, t.leftovers, t.lastTop);
  }

  lemma LeftoversFollow(items: seq<Item>, before: Placed, after: Placed, leftovers: seq<nat>, top: I64)
    requires |before| == |after| == |items| && DatesPlaced(items, before, after, leftovers, top)
    requires IsHighest(before, top) && top + |items| + 1 <= I64_MAX
    ensures forall k :: 0 <= k < |leftovers| ==> Pos(after, leftovers[k]) == top + 1 + k
    ensures forall i: nat :: i < |items| && i !in leftovers ==> Pos(after, i) <= top
  {
    forall k | 0 <= k < |leftovers| ensures leftovers[k] < |items| {
      assert leftovers[k] in leftovers;
    }
    Pigeonhole(leftovers, |items|);
    forall i: nat | i < |items| && i !in leftovers ensures Pos(after, i) <= top {
      assert before[i].Some?;
    }
  }

  lemma AllAreFound(items: seq<Item>, threshold: int, t: Trace, v: int)
    requires Phases(items, threshold, t) && Within(items, v) && Roomy(|items|, v)
    requires Bounds(NumsOf(items), t.byMeta, t.byName, t.clusters, t.tops, v)
    ensures AllFound(items, t)
  {
    var n := |t.clusters|;
    MetaIsFound(items, t.byMeta, t.maxpos, t.lowest, v);
    StagesFit(NumsOf(items), t.byMeta, t.byName, t.clusters, t.tops, v, n);
    LastStage(items, threshold, t);
    Kept(items, threshold, t);
  }

  lemma MetaIsFound(items: seq<Item>, after: Placed, top: I64, lowest: I64, v: int)
    requires |after| == |items| && Within(items, v) && Roomy(|items|, v)
    requires IsHighest(Existing(items), top) && IsLowest(items, Existing(items), lowest)
    requires MetaPlaced(items, Existing(items), after, lowest, WrappedNext(top))
    ensures forall i: nat :: i < |items| ==> (after[i].Some? <==> items[i].existing.Some? || items[i].meta.Some?)
  {
    RoomyFits(v, |items|);
    MetaFits(items, after, top, lowest, v);
    forall i: nat | i < |items| ensures after[i].Some? <==> items[i].existing.Some? || items[i].meta.Some? {
      assert Existing(items)[i] == items[i].existing;
    }
  }

  /** Where there is headroom, everything the assignment promises holds of the
      positions it ends with. */
  lemma SpacedWithHeadroom(items: seq<Item>, threshold: int, t: Trace)
    requires Phases(items, threshold, t) && Headroom(items)
    ensures Spaced(items, t)
  {
    var v :| Within(items, v) && Roomy(|items|, v);
    TraceBounds(items, threshold, t, v);
    Kept(items, threshold, t);
    MetaIsSpaced(items, threshold, t, v);
    forall k | 0 <= k < |t.clusters| ensures ClusterSpaced(items, t, t.clusters[k]) && ClusterAbove(t, k) {
      ClusterIsSpaced(items, t, v, k);
    }
    LeftoversAreSpaced(items, threshold, t, v);
    AllAreFound(items, threshold, t, v);
  }

  /** Without headroom the first phase can wrap around: beside an item at the end of
      the range, one with metadata is placed at the other end, below it. */
  lemma LargestPositionWraps(threshold: int, t: Trace)
    requires Phases([Item("a", "a", None, None, Some(I64_MAX)), Item("b", "b", Some(5), None, None)], threshold, t)
    ensures t.placed == [Some(I64_MAX), Some(I64_MIN)]
  {
    var items := [Item("a", "a", None, None, Some(I64_MAX)), Item("b", "b", Some(5), None, None)];
    assert Existing(items)[0] == Some(I64_MAX);
    assert ByMeta(items, Existing(items), 1) && !ByMeta(items, Existing(items), 0);
    var i: nat :| ByMeta(items, Existing(items), i) && t.lowest == items[i].meta.value;
    assert i == 1;
    assert t.byMeta[1] == Some(I64_MIN);
    Kept(items, threshold, t);
  }

  /** Positions for the items that lack one, by position and then key. */
  method AssignPositions(items: seq<Item>, threshold: int) returns (out: seq<Assignment>, ghost t: Trace)
    ensures Phases(items, threshold, t)
    ensures forall i :: 0 <= i < |items| ==> t.placed[i].Some?
    ensures Headroom(items) ==> Spaced(items, t)
    ensures WritesEach(items, t.placed, |items|, out)
    ensures forall i, j :: 0 <= i < j < |out| ==>
      || out[i].position < out[j].position
      || (out[i].position == out[j].position && Sorting.Precedes(out[i].key, out[j].key))
  {
    var placed;
    placed, t := RunPhases(items, threshold);
    EveryItemOnce(items, threshold, t);
    if Headroom(items) {
      SpacedWithHeadroom(items, threshold, t);
    }
    var raw := Raw(items, placed);
    out := Sorting.SortBy(raw, AssignmentNoAfter);
    Sorting.SortKeeps(raw, AssignmentNoAfter);
    ToWriteIsEach(items, t.placed, |items|);
    WritesEachSorted(items, t.placed, raw, out);
    AssignmentsOrder(raw);
    Sorting.SortSorts(raw, AssignmentNoAfter);
  }
}
