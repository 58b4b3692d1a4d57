/**
 Positions for the children of a folder: by metadata, then by the numbers in
 their names, then by creation date. Integers are 64 bits wide.
 */
module Order {
  import opened Prelude
  import opened Text
  import opened Sorting

  datatype Item = Item(key: string, name: string, meta: Option<I64>, btime: Option<I64>, existing: Option<I64>)

  datatype Assignment = Assignment(key: string, position: I64)

  type Placed = seq<Option<I64>>

  // ── Arithmetic ───────────────────────────────────────────────────────────

  /** An addition of one that wraps around. */
  function WrappedNext(x: I64): I64 {
    if x == I64_MAX then I64_MIN else x + 1
  }

  /** An addition of one that stays at the end of the range. */
  function SaturatedNext(x: I64): I64 {
    if x == I64_MAX then I64_MAX else x + 1
  }

  function Max(a: I64, b: I64): I64 {
    if a >= b then a else b
  }

  /** `anchor + (value - from)`, where both steps fit. */
  function Offset(anchor: I64, value: I64, from: I64): (r: Option<I64>)
    ensures r.Some? <==>
      && -0x8000_0000_0000_0000 <= value - from <= 0x7FFF_FFFF_FFFF_FFFF
      && -0x8000_0000_0000_0000 <= anchor + value - from <= 0x7FFF_FFFF_FFFF_FFFF
    ensures r.Some? ==> r.value - anchor == value - from
  {
    if I64_MIN <= value - from <= I64_MAX && I64_MIN <= anchor + (value - from) <= I64_MAX
    then Some(anchor + (value - from))
    else None
  }

  // ── The number in a name ─────────────────────────────────────────────────

  /** What surrounds the number of a name. */
  datatype Skeleton = Skeleton(prefix: string, suffix: string)

  /** The last run of digits of a name. */
  ghost predicate NumberAt(name: string, start: nat, end: nat) {
    && start < end <= |name|
    && (forall i :: start <= i < end ==> IsDigit(name[i]))
    && (forall i :: end <= i < |name| ==> !IsDigit(name[i]))
    && (start > 0 ==> !IsDigit(name[start - 1]))
  }

  /** A name has one. */
  lemma NumberAtOnce(name: string, start: nat, end: nat, start': nat, end': nat)
    requires NumberAt(name, start, end) && NumberAt(name, start', end')
    ensures start == start' && end == end'
  {
    assert IsDigit(name[end - 1]) && IsDigit(name[end' - 1]);
  }

  function DigitsEnd(name: string): (r: nat)
    ensures r <= |name| && (r > 0 ==> IsDigit(name[r - 1]))
    ensures forall i :: r <= i < |name| ==> !IsDigit(name[i])
  {
    if name == "" then 0 else if IsDigit(name[|name| - 1]) then |name| else DigitsEnd(name[..|name| - 1])
  }

  function DigitsStart(name: string, end: nat): (r: nat)
    requires end <= |name|
    ensures r <= end && (forall i :: r <= i < end ==> IsDigit(name[i])) && AllDigits(name[r..end])
    ensures r > 0 ==> !IsDigit(name[r - 1])
    ensures end > 0 && IsDigit(name[end - 1]) ==> r < end
  {
    if end > 0 && IsDigit(name[end - 1]) then DigitsStart(name, end - 1) else end
  }

  /** The skeleton of a name and its number, `None` for a name without digits or
      with too large a number. */
  function NumberIn(name: string): Option<(Skeleton, I64)> {
    var end := DigitsEnd(name);
    var start := DigitsStart(name, end);
    if end == 0 || DigitsValue(name[start..end]) > I64_MAX then None
    else Some((Skeleton(name[..start], name[end..]), DigitsValue(name[start..end])))
  }

  /** The number is the last run of digits, and the skeleton what is around it. */
  lemma NumberIsLastRun(name: string)
    ensures NumberIn(name).Some? <==>
      exists start: nat, end: nat :: NumberAt(name, start, end) && DigitsValue(name[start..end]) <= I64_MAX
    ensures forall start: nat, end: nat :: NumberAt(name, start, end) && NumberIn(name).Some? ==>
      NumberIn(name).value == (Skeleton(name[..start], name[end..]), DigitsValue(name[start..end]))
  {
    var end := DigitsEnd(name);
    var start := DigitsStart(name, end);
    if end > 0 {
      assert NumberAt(name, start, end);
    }
    forall a: nat, b: nat | NumberAt(name, a, b) ensures end > 0 && a == start && b == end {
      assert IsDigit(name[b - 1]);
      NumberAtOnce(name, a, b, start, end);
    }
  }

  /** The scan of the source: the last digit, then the run around it. */
  method LastNumber(name: string) returns (r: Option<(Skeleton, I64)>)
    ensures r == NumberIn(name)
  {
    var end := |name|;
    while end > 0 && !IsDigit(name[end - 1])
      invariant 0 <= end <= |name| && forall i :: end <= i < |name| ==> !IsDigit(name[i])
    {
      end := end - 1;
    }
    assert end == DigitsEnd(name);
    if end == 0 {
      return None;
    }
    var start := end;
    while start > 0 && IsDigit(name[start - 1])
      invariant 0 <= start <= end && forall i :: start <= i < end ==> IsDigit(name[i])
    {
      start := start - 1;
    }
    NumberAtOnce(name, start, end, DigitsStart(name, end), end);
    var number := DigitsValue(name[start..end]);
    return if number > I64_MAX then None else Some((Skeleton(name[..start], name[end..]), number));
  }

  predicate Numbered(items: seq<Item>, i: nat) {
    i < |items| && NumberIn(items[i].name).Some?
  }

  function Num(items: seq<Item>, i: nat): I64
    requires Numbered(items, i)
  {
    NumberIn(items[i].name).value.1
  }

  function SkeletonOf(items: seq<Item>, i: nat): Skeleton
    requires Numbered(items, i)
  {
    NumberIn(items[i].name).value.0
  }

  // ── Phase 1: metadata ────────────────────────────────────────────────────

  /** No position is above the running maximum. */
  ghost predicate Bounded(placed: Placed, maxpos: I64) {
    forall i :: 0 <= i < |placed| && placed[i].Some? ==> placed[i].value <= maxpos
  }

  /** `top` is the highest position, 0 where there is none. */
  ghost predicate IsHighest(placed: Placed, top: I64) {
    && Bounded(placed, top)
    && (Some(top) in placed || (top == 0 && forall i :: 0 <= i < |placed| ==> placed[i].None?))
  }

  predicate ByMeta(items: seq<Item>, placed: Placed, i: nat)
    requires |placed| == |items|
  {
    i < |items| && placed[i].None? && items[i].meta.Some?
  }

  /** The items placed by metadata keep the distances of their metadata from the
      lowest, which is at `anchor`; no other item changes. */
  ghost predicate MetaPlaced(items: seq<Item>, placed: Placed, placed': Placed, lowest: I64, anchor: I64)
    requires |placed| == |placed'| == |items|
  {
    forall i :: 0 <= i < |items| ==>
      placed'[i] == if ByMeta(items, placed, i) then Offset(anchor, items[i].meta.value, lowest) else placed[i]
  }

  /** `lowest` is the lowest metadata of the items to place by it. */
  ghost predicate IsLowest(items: seq<Item>, placed: Placed, lowest: I64)
    requires |placed| == |items|
  {
    && (forall i: nat :: ByMeta(items, placed, i) ==> lowest <= items[i].meta.value)
    && ((exists i: nat :: ByMeta(items, placed, i)) ==>
          exists i: nat :: ByMeta(items, placed, i) && lowest == items[i].meta.value)
  }

  /** Two items placed by metadata differ as their metadata, and where there is
      room above the maximum both are above every earlier position. */
  lemma MetaSpacing(items: seq<Item>, placed: Placed, placed': Placed, lowest: I64, maxpos: I64, i: nat, j: nat)
    requires |placed| == |placed'| == |items|
    requires MetaPlaced(items, placed, placed', lowest, WrappedNext(maxpos))
    requires ByMeta(items, placed, i) && ByMeta(items, placed, j) && placed'[i].Some? && placed'[j].Some?
    requires lowest <= items[i].meta.value && lowest <= items[j].meta.value
    ensures placed'[i].value - placed'[j].value == items[i].meta.value - items[j].meta.value
    ensures placed'[i].value > maxpos <==> maxpos < I64_MAX
  {
  }

  /** By metadata, then name, then index. */
  predicate MetaNoAfter(items: seq<Item>, a: nat, b: nat) {
    && a < |items| && b < |items| && items[a].meta.Some? && items[b].meta.Some?
    && (|| items[a].meta.value < items[b].meta.value
        || (items[a].meta.value == items[b].meta.value
            && if items[a].name == items[b].name then a <= b else Precedes(items[a].name, items[b].name)))
  }

  lemma MetaOrders(items: seq<Item>, s: seq<nat>)
    requires forall i :: i in s ==> i < |items| && items[i].meta.Some?
    ensures Ordering(s, (a: nat, b: nat) => MetaNoAfter(items, a, b))
  {
    forall a, b | a in s && b in s ensures MetaNoAfter(items, a, b) || MetaNoAfter(items, b, a) {
      PrecedesTotal(items[a].name, items[b].name);
    }
    forall a, b, c | a in s && b in s && c in s && MetaNoAfter(items, a, b) && MetaNoAfter(items, b, c)
      ensures MetaNoAfter(items, a, c)
    {
      var (x, y, z) := (items[a].name, items[b].name, items[c].name);
      if Precedes(x, y) && Precedes(y, z) {
        PrecedesTransitive(x, y, z);
        if x == z {
          PrecedesAntisymmetric(x, y);
        }
      }
    }
  }

  method IndicesByMeta(items: seq<Item>, placed: Placed) returns (r: seq<nat>)
    requires |placed| == |items|
    ensures forall i: nat :: i in r <==> ByMeta(items, placed, i)
  {
    r := [];
    for i := 0 to |items|
      invariant forall k: nat :: k in r <==> k < i && ByMeta(items, placed, k)
    {
      if ByMeta(items, placed, i) {
        r := r + [i];
      }
    }
  }

  function MetaOrZero(items: seq<Item>, i: nat): I64 {
    if i < |items| && items[i].meta.Some? then items[i].meta.value else 0
  }

  /** The items to place by metadata, the lowest first. */
  method SortedByMeta(items: seq<Item>, placed: Placed) returns (idx: seq<nat>)
    requires |placed| == |items|
    ensures forall i: nat :: i in idx <==> ByMeta(items, placed, i)
    ensures forall i: nat :: ByMeta(items, placed, i) ==> idx != [] && MetaOrZero(items, idx[0]) <= items[i].meta.value
  {
    var found := IndicesByMeta(items, placed);
    var le := (a: nat, b: nat) => MetaNoAfter(items, a, b);
    idx := SortBy(found, le);
    MetaOrders(items, found);
    SortKeeps(found, le);
    SortSorts(found, le);
    forall i: nat | ByMeta(items, placed, i) ensures idx != [] && MetaOrZero(items, idx[0]) <= items[i].meta.value {
      assert i in idx;
      var k :| 0 <= k < |idx| && idx[k] == i;
      assert k > 0 ==> le(idx[0], idx[k]);
    }
  }

  /** Phase 1. */
  method PlaceByMeta(items: seq<Item>, before: Placed, top: I64)
    returns (placed: Placed, maxpos: I64, ghost lowest: I64)
    requires |before| == |items| && IsHighest(before, top)
    ensures |placed| == |items| && IsHighest(placed, maxpos) && top <= maxpos
    ensures MetaPlaced(items, before, placed, lowest, WrappedNext(top)) && IsLowest(items, before, lowest)
  {
    var idx := SortedByMeta(items, before);
    if idx == [] {
      return before, top, 0;
    }
    assert idx[0] in idx;
    var from := items[idx[0]].meta.value;
    lowest := from;
    placed, maxpos := PlaceMembers(before, top, idx, i => MetaOrZero(items, i), WrappedNext(top), from);
    assert placed[idx[0]] == Some(WrappedNext(top));
    StillHighest(before, top, placed, maxpos, idx[0]);
  }

  /** Where the maximum is the old one or attained, and either something was placed
      before or a position above 0 is there now, it is the highest. */
  lemma StillHighest(before: Placed, top: I64, after: Placed, maxpos: I64, i: nat)
    requires |before| == |after| && IsHighest(before, top) && Bounded(after, maxpos)
    requires maxpos == top || Some(maxpos) in after
    requires forall j :: 0 <= j < |before| && before[j].Some? ==> after[j] == before[j]
    requires i < |after| && after[i].Some?
    requires (forall j :: 0 <= j < |before| ==> before[j].None?) ==> after[i].value > top
    ensures IsHighest(after, maxpos)
  {
    if Some(top) in before {
      var j :| 0 <= j < |before| && before[j] == Some(top);
      assert after[j] == Some(top);
    }
  }

  // ── Phase 2: names ───────────────────────────────────────────────────────

  /** The numbers below `n` that pass, in order. */
  function Passing(n: nat, pass: nat -> bool): (r: seq<nat>)
    ensures forall i: nat :: i in r <==> i < n && pass(i)
  {
    if n == 0 then [] else Passing(n - 1, pass) + if pass(n - 1) then [n - 1] else []
  }

  ghost predicate InOrder(s: seq<nat>) {
    forall j, k :: 0 <= j < k < |s| ==> s[j] < s[k]
  }

  lemma {:induction false} PassingInOrder(n: nat, pass: nat -> bool)
    ensures InOrder(Passing(n, pass))
  {
    if n > 0 {
      PassingInOrder(n - 1, pass);
      if pass(n - 1) {
        LastInOrder(Passing(n - 1, pass), n - 1);
      }
    }
  }

  lemma LastInOrder(s: seq<nat>, x: nat)
    requires InOrder(s) && forall i :: i in s ==> i < x
    ensures InOrder(s + [x])
  {
    assert forall j :: 0 <= j < |s| ==> s[j] in s;
  }

  function HasKey(items: seq<Item>, key: Skeleton): nat -> bool {
    (i: nat) => Numbered(items, i) && SkeletonOf(items, i) == key
  }

  /** The items whose name has the skeleton `key`, in their order. */
  function Members(items: seq<Item>, key: Skeleton): (r: seq<nat>)
    ensures forall i: nat :: i in r <==> Numbered(items, i) && SkeletonOf(items, i) == key
  {
    Passing(|items|, HasKey(items, key))
  }

  /** Numbers that are identifiers, not an order: no two different ones are within
      the threshold. */
  ghost predicate Scattered(nums: seq<int>, threshold: int) {
    && (exists i, j :: 0 <= i < |nums| && 0 <= j < |nums| && nums[i] != nums[j])
    && forall i, j :: 0 <= i < |nums| && 0 <= j < |nums| && nums[i] < nums[j] ==> nums[j] - nums[i] > threshold
  }

  lemma ScatteredAlike(nums: seq<int>, other: seq<int>, threshold: int)
    requires forall x :: x in nums <==> x in other
    ensures Scattered(nums, threshold) ==> Scattered(other, threshold)
  {
    if Scattered(nums, threshold) {
      var i, j :| 0 <= i < |nums| && 0 <= j < |nums| && nums[i] != nums[j];
      assert nums[i] in other && nums[j] in other;
      forall i, j | 0 <= i < |other| && 0 <= j < |other| && other[i] < other[j]
        ensures other[j] - other[i] > threshold
      {
        assert other[i] in nums && other[j] in nums;
      }
    }
  }

  /** Numbers in order with repetitions left out. */
  method Dedup(sorted: seq<int>) returns (distinct: seq<int>)
    requires forall i, j :: 0 <= i < j < |sorted| ==> sorted[i] <= sorted[j]
    ensures forall x :: x in distinct <==> x in sorted
    ensures forall i, j :: 0 <= i < j < |distinct| ==> distinct[i] < distinct[j]
  {
    distinct := [];
    for k := 0 to |sorted|
      invariant forall x :: x in distinct <==> x in sorted[..k]
      invariant forall i, j :: 0 <= i < j < |distinct| ==> distinct[i] < distinct[j]
      invariant if k == 0 then distinct == [] else distinct != [] && distinct[|distinct| - 1] == sorted[k - 1]
    {
      assert sorted[..k + 1] == sorted[..k] + [sorted[k]];
      if k == 0 || distinct[|distinct| - 1] != sorted[k] {
        assert k > 0 ==> sorted[k - 1] < sorted[k];
        assert forall i :: 0 <= i < |distinct| ==> distinct[i] <= distinct[|distinct| - 1];
        distinct := distinct + [sorted[k]];
      }
    }
    assert sorted[..|sorted|] == sorted;
  }

  /** The smallest gap between different numbers next to each other in order is the
      smallest between any two. */
  method IsScattered(nums: seq<int>, threshold: int) returns (r: bool)
    ensures r == Scattered(nums, threshold)
  {
    var le := (a: int, b: int) => a <= b;
    var sorted := SortBy(nums, le);
    SortKeeps(nums, le);
    SortSorts(nums, le);
    assert forall i, j :: 0 <= i < j < |sorted| ==> le(sorted[i], sorted[j]);
    var distinct := Dedup(sorted);
    ScatteredAlike(nums, distinct, threshold);
    ScatteredAlike(distinct, nums, threshold);
    GapsBoundDistances(distinct, threshold);
    if |distinct| < 2 {
      return false;
    }
    r := true;
    for k := 1 to |distinct|
      invariant r == forall i :: 1 <= i < k ==> distinct[i] - distinct[i - 1] > threshold
    {
      if distinct[k] - distinct[k - 1] <= threshold {
        r := false;
      }
    }
  }

  lemma GapsBoundDistances(nums: seq<int>, threshold: int)
    requires forall i, j :: 0 <= i < j < |nums| ==> nums[i] < nums[j]
    ensures Scattered(nums, threshold)
      <==> (|nums| >= 2 && forall i :: 1 <= i < |nums| ==> nums[i] - nums[i - 1] > threshold)
  {
    if |nums| >= 2 {
      assert nums[0] != nums[1];
      if forall i :: 1 <= i < |nums| ==> nums[i] - nums[i - 1] > threshold {
        forall i, j | 0 <= i < |nums| && 0 <= j < |nums| && nums[i] < nums[j] ensures nums[j] - nums[i] > threshold {
          assert i < j && nums[j] - nums[j - 1] > threshold;
        }
      }
      if Scattered(nums, threshold) {
        forall i | 1 <= i < |nums| ensures nums[i] - nums[i - 1] > threshold {
          assert nums[i - 1] < nums[i];
        }
      }
    }
  }

  /** A group of items whose names differ by their number alone. */
  datatype Cluster = Cluster(key: Skeleton, members: seq<nat>, anchor: nat, anchored: bool, anchorPos: I64)

  /** The number of an item's name, 0 without one. */
  function NumOrZero(items: seq<Item>, i: nat): (r: I64)
    ensures r >= 0 && (Numbered(items, i) ==> r == Num(items, i))
  {
    if Numbered(items, i) then Num(items, i) else 0
  }

  function NumsOf(items: seq<Item>): nat -> I64 {
    (i: nat) => NumOrZero(items, i)
  }

  function Nums(items: seq<Item>, s: seq<nat>): (r: seq<int>)
    requires forall i :: i in s ==> Numbered(items, i)
    ensures |r| == |s| && forall k :: 0 <= k < |s| ==> r[k] == Num(items, s[k])
  {
    if s == [] then [] else
      assert forall i :: i in s[1..] ==> i in s;
      [Num(items, s[0])] + Nums(items, s[1..])
  }

  /** A skeleton whose items are placed together: at least two, some not placed
      yet, their numbers not scattered. */
  ghost predicate Eligible(items: seq<Item>, placed: Placed, key: Skeleton, threshold: int)
    requires |placed| == |items|
  {
    var members := Members(items, key);
    && |members| >= 2
    && !Scattered(Nums(items, members), threshold)
    && exists i :: i in members && placed[i].None?
  }

  /** The anchor is the lowest numbered of the members already placed or, where
      none is, of all. */
  ghost predicate Anchors(num: nat -> I64, placed: Placed, c: Cluster) {
    && c.anchor in c.members && (forall i :: i in c.members ==> i < |placed|)
    && (c.anchored <==> exists i :: i in c.members && placed[i].Some?)
    && (c.anchored ==> placed[c.anchor] == Some(c.anchorPos))
    && forall i :: i in c.members && (c.anchored ==> placed[i].Some?) ==> num(c.anchor) <= num(i)
  }

  method LowestOf(s: seq<nat>, num: nat -> I64) returns (r: nat)
    requires s != [] && InOrder(s)
    ensures r in s && forall i :: i in s ==> num(r) < num(i) || (num(r) == num(i) && r <= i)
  {
    r := s[0];
    for k := 1 to |s|
      invariant r in s && r <= s[k - 1]
      invariant forall j :: 0 <= j < k ==> num(r) < num(s[j]) || (num(r) == num(s[j]) && r <= s[j])
    {
      if num(s[k]) < num(r) {
        r := s[k];
      }
    }
  }

  /** The members already placed. */
  method PlacedOf(placed: Placed, s: seq<nat>) returns (r: seq<nat>)
    requires InOrder(s) && forall i :: i in s ==> i < |placed|
    ensures InOrder(r) && forall i :: i in r <==> i in s && placed[i].Some?
  {
    r := [];
    for k := 0 to |s|
      invariant InOrder(r)
      invariant forall i :: i in r <==> i in s && i in s[..k] && placed[i].Some?
    {
      assert s[k] in s;
      assert s[..k + 1] == s[..k] + [s[k]];
      if placed[s[k]].Some? {
        assert forall j :: 0 <= j < |r| ==> r[j] in r && r[j] in s[..k];
        r := r + [s[k]];
      }
    }
    assert s[..|s|] == s;
  }

  /** The cluster of a skeleton, if it makes one. */
  method ClusterOf(items: seq<Item>, placed: Placed, key: Skeleton, threshold: int) returns (r: Option<Cluster>)
    requires |placed| == |items|
    ensures r.Some? <==> Eligible(items, placed, key, threshold)
    ensures r.Some? ==> Fits(items, placed, r.value) && r.value.key == key
  {
    var members := Members(items, key);
    if |members| < 2 {
      return None;
    }
    var scattered := IsScattered(Nums(items, members), threshold);
    if scattered || forall i :: i in members ==> placed[i].Some? {
      return None;
    }
    var c := Anchored(items, placed, key);
    return Some(c);
  }

  /** A cluster as it is made: the members of its skeleton and their anchor. */
  ghost predicate Fits(items: seq<Item>, placed: Placed, c: Cluster) {
    && c.members == Members(items, c.key) && Anchors(NumsOf(items), placed, c)
    && FirstLowest(NumsOf(items), placed, c) && (!c.anchored ==> c.anchorPos == 0)
  }

  /** Of members as low as the anchor, the anchor comes first. */
  ghost predicate FirstLowest(num: nat -> I64, placed: Placed, c: Cluster)
    requires forall i :: i in c.members ==> i < |placed|
  {
    forall i :: i in c.members && (c.anchored ==> placed[i].Some?) && num(i) == num(c.anchor) ==> c.anchor <= i
  }

  /** The cluster of a skeleton with its anchor. */
  method Anchored(items: seq<Item>, placed: Placed, key: Skeleton) returns (c: Cluster)
    requires |placed| == |items| && Members(items, key) != []
    ensures c.key == key && Fits(items, placed, c)
  {
    var members := Members(items, key);
    PassingInOrder(|items|, HasKey(items, key));
    var pinned := PlacedOf(placed, members);
    if pinned == [] {
      var anchor := LowestOf(members, NumsOf(items));
      return Cluster(key, members, anchor, false, 0);
    }
    assert pinned[0] in pinned;
    var anchor := LowestOf(pinned, NumsOf(items));
    return Cluster(key, members, anchor, true, placed[anchor].value);
  }

  // ── Placing the clusters ─────────────────────────────────────────────────

  /** Every member that was not placed is as far from the anchor as its number,
      where that fits; the others stay. */
  ghost predicate ClusterPlaced(num: nat -> I64, before: Placed, after: Placed, c: Cluster)
    requires |before| == |after|
  {
    && c.anchor in c.members && (forall i :: i in c.members ==> i < |before|) && after[c.anchor].Some?
    && forall i :: i in c.members && before[i].None? ==>
         after[i] == Offset(after[c.anchor].value, num(i), num(c.anchor))
  }

  /** One cluster: an unanchored one starts above everything placed. */
  method PlaceCluster(num: nat -> I64, before: Placed, top: I64, c: Cluster) returns (placed: Placed, maxpos: I64)
    requires IsHighest(before, top) && Anchors(num, before, c)
    ensures |placed| == |before| && IsHighest(placed, maxpos) && top <= maxpos
    ensures ClusterPlaced(num, before, placed, c)
    ensures !c.anchored ==> placed[c.anchor] == Some(SaturatedNext(top))
    ensures forall i :: 0 <= i < |before| && (before[i].Some? || i !in c.members) ==> placed[i] == before[i]
  {
    placed, maxpos := before, top;
    var anchorPos := c.anchorPos;
    if !c.anchored {
      anchorPos := SaturatedNext(maxpos);
      placed, maxpos := placed[c.anchor := Some(anchorPos)], Max(maxpos, anchorPos);
    }
    placed, maxpos := PlaceMembers(placed, maxpos, c.members, num, anchorPos, num(c.anchor));
    StillHighest(before, top, placed, maxpos, c.anchor);
  }

  method PlaceMembers(before: Placed, top: I64, members: seq<nat>, num: nat -> I64, anchorPos: I64, anchorNum: I64)
    returns (placed: Placed, maxpos: I64)
    requires Bounded(before, top) && forall i :: i in members ==> i < |before|
    ensures |placed| == |before| && Bounded(placed, maxpos) && top <= maxpos
    ensures maxpos == top || Some(maxpos) in placed
    ensures forall i :: 0 <= i < |placed| ==>
      placed[i] == if before[i].None? && i in members then Offset(anchorPos, num(i), anchorNum) else before[i]
  {
    placed, maxpos := before, top;
    for k := 0 to |members|
      invariant |placed| == |before| && Bounded(placed, maxpos) && top <= maxpos
      invariant maxpos == top || exists j :: 0 <= j < |placed| && placed[j] == Some(maxpos)
      invariant forall i :: 0 <= i < |placed| ==>
        placed[i] == if before[i].None? && i in members[..k] then Offset(anchorPos, num(i), anchorNum) else before[i]
    {
      var i := members[k];
      assert i in members;
      assert members[..k + 1] == members[..k] + [i];
      if placed[i].None? {
        var pos := Offset(anchorPos, num(i), anchorNum);
        if pos.Some? {
          ghost var was := placed;
          placed, maxpos := placed[i := pos], Max(maxpos, pos.value);
          assert placed[i] == pos && forall j :: 0 <= j < |was| && j != i ==> placed[j] == was[j];
        }
      }
    }
    assert members[..|members|] == members;
  }

  // ── All clusters ─────────────────────────────────────────────────────────

  predicate SkeletonNoAfter(a: Skeleton, b: Skeleton) {
    if a.prefix == b.prefix then Precedes(a.suffix, b.suffix) else Precedes(a.prefix, b.prefix)
  }

  /** The skeletons of the names, each once, in order. */
  method Skeletons(items: seq<Item>) returns (keys: seq<Skeleton>)
    ensures Distinct(keys) && Sorted(keys, SkeletonNoAfter)
    ensures forall i: nat :: Numbered(items, i) ==> SkeletonOf(items, i) in keys
  {
    keys := [];
    for i := 0 to |items|
      invariant Distinct(keys)
      invariant forall k: nat :: k < i && Numbered(items, k) ==> SkeletonOf(items, k) in keys
    {
      var info := LastNumber(items[i].name);
      if info.Some? && info.value.0 !in keys {
        keys := keys + [info.value.0];
      }
    }
    SortKeeps(keys, SkeletonNoAfter);
    SortDistinct(keys, SkeletonNoAfter);
    SkeletonsOrder(keys);
    SortSorts(keys, SkeletonNoAfter);
    keys := SortBy(keys, SkeletonNoAfter);
  }

  lemma SkeletonsOrder(s: seq<Skeleton>)
    ensures Ordering(s, SkeletonNoAfter)
  {
    forall a, b | a in s && b in s ensures SkeletonNoAfter(a, b) || SkeletonNoAfter(b, a) {
      PrecedesTotal(a.prefix, b.prefix);
      PrecedesTotal(a.suffix, b.suffix);
    }
    forall a, b, c | a in s && b in s && c in s && SkeletonNoAfter(a, b) && SkeletonNoAfter(b, c)
      ensures SkeletonNoAfter(a, c)
    {
      if a.prefix == b.prefix == c.prefix {
        PrecedesTransitive(a.suffix, b.suffix, c.suffix);
      } else if a.prefix != b.prefix && b.prefix != c.prefix {
        PrecedesTransitive(a.prefix, b.prefix, c.prefix);
        if a.prefix == c.prefix {
          PrecedesAntisymmetric(a.prefix, b.prefix);
        }
      }
    }
  }

  predicate KeyNoAfter(a: Cluster, b: Cluster) {
    SkeletonNoAfter(a.key, b.key)
  }

  /** Anchored clusters first, by position. */
  predicate ClusterNoAfter(a: Cluster, b: Cluster) {
    if a.anchored == b.anchored then a.anchorPos <= b.anchorPos else a.anchored
  }

  /** One good cluster for each wanted skeleton of `keys`, and no other. */
  ghost predicate OneEach(
    clusters: seq<Cluster>, keys: set<Skeleton>, wanted: Skeleton -> bool, good: Cluster -> bool)
  {
    && (forall i, j :: 0 <= i < j < |clusters| ==> clusters[i].key != clusters[j].key)
    && (forall c :: c in clusters ==> c.key in keys && wanted(c.key) && good(c))
    && (forall key :: key in keys && wanted(key) ==> exists c :: c in clusters && c.key == key)
  }

  lemma OneMoreEach(
    found: seq<Cluster>, keys: set<Skeleton>, wanted: Skeleton -> bool, good: Cluster -> bool, key: Skeleton,
    c: Option<Cluster>)
    requires OneEach(found, keys, wanted, good) && key !in keys
    requires c.Some? <==> wanted(key)
    requires c.Some? ==> c.value.key == key && good(c.value)
    ensures OneEach(if c.Some? then found + [c.value] else found, keys + {key}, wanted, good)
  {
    var found' := if c.Some? then found + [c.value] else found;
    forall k | k in keys + {key} && wanted(k) ensures exists d :: d in found' && d.key == k {
      if k in keys {
        var d :| d in found && d.key == k;
        assert d in found';
      } else {
        assert c.value in found';
      }
    }
  }

  lemma SortedOneEach(found: seq<Cluster>, keys: set<Skeleton>, wanted: Skeleton -> bool, good: Cluster -> bool)
    requires OneEach(found, keys, wanted, good)
    ensures OneEach(SortBy(found, ClusterNoAfter), keys, wanted, good)
  {
    var sorted := SortBy(found, ClusterNoAfter);
    SortKeeps(found, ClusterNoAfter);
    SortDistinct(found, ClusterNoAfter);
    forall i, j | 0 <= i < j < |sorted| ensures sorted[i].key != sorted[j].key {
      assert sorted[i] in found && sorted[j] in found && sorted[i] != sorted[j];
    }
    forall key | key in keys && wanted(key) ensures exists c :: c in sorted && c.key == key {
      var c :| c in found && c.key == key;
      assert c in sorted;
    }
  }

  ghost function IsEligible(items: seq<Item>, placed: Placed, threshold: int): Skeleton -> bool
    requires |placed| == |items|
  {
    (key: Skeleton) => Eligible(items, placed, key, threshold)
  }

  ghost function IsFitting(items: seq<Item>, placed: Placed): Cluster -> bool
  {
    (c: Cluster) => Fits(items, placed, c)
  }

  /** The clusters of the eligible skeletons, one each. */
  ghost predicate AreClusters(items: seq<Item>, placed: Placed, clusters: seq<Cluster>, threshold: int)
    requires |placed| == |items|
  {
    && (forall i, j :: 0 <= i < j < |clusters| ==> clusters[i].key != clusters[j].key)
    && (forall c :: c in clusters ==> Eligible(items, placed, c.key, threshold) && Fits(items, placed, c))
    && (forall key :: Eligible(items, placed, key, threshold) ==> exists c :: c in clusters && c.key == key)
  }

  /** Anchored clusters first, by position; where that tells nothing apart, as
      among the unanchored, in the order of their skeletons. */
  ghost predicate AnchoredFirst(clusters: seq<Cluster>) {
    && Sorted(clusters, ClusterNoAfter)
    && Broken(clusters, ClusterNoAfter, KeyNoAfter)
    && forall c :: c in clusters && !c.anchored ==> c.anchorPos == 0
  }

  /** Spelled out: nothing unanchored comes before anything anchored, and unanchored
      clusters come in the order of their skeletons. */
  lemma InTurn(clusters: seq<Cluster>, i: nat, j: nat)
    requires AnchoredFirst(clusters) && i < j < |clusters|
    ensures clusters[j].anchored ==> clusters[i].anchored && clusters[i].anchorPos <= clusters[j].anchorPos
    ensures !clusters[i].anchored ==> !clusters[j].anchored && SkeletonNoAfter(clusters[i].key, clusters[j].key)
  {
    assert clusters[i] in clusters && clusters[j] in clusters;
    assert ClusterNoAfter(clusters[i], clusters[j]);
    assert !clusters[i].anchored && !clusters[j].anchored ==> ClusterNoAfter(clusters[j], clusters[i]);
    assert ClusterNoAfter(clusters[j], clusters[i]) ==> KeyNoAfter(clusters[i], clusters[j]);
  }

  method Clusters(items: seq<Item>, placed: Placed, threshold: int) returns (clusters: seq<Cluster>)
    requires |placed| == |items|
    ensures AreClusters(items, placed, clusters, threshold) && AnchoredFirst(clusters)
  {
    var keys := Skeletons(items);
    var found := FindClusters(items, placed, threshold, keys);
    clusters := SortBy(found, ClusterNoAfter);
    AnchoredComeFirst(found);
    SortedAreClusters(items, placed, threshold, keys, found);
  }

  /** The clusters of the eligible skeletons among `keys`, in their order. */
  method FindClusters(items: seq<Item>, placed: Placed, threshold: int, keys: seq<Skeleton>)
    returns (found: seq<Cluster>)
    requires |placed| == |items| && Distinct(keys) && Sorted(keys, SkeletonNoAfter)
    ensures OneEach(found, KeysTo(keys, |keys|), IsEligible(items, placed, threshold), IsFitting(items, placed))
    ensures Sorted(found, KeyNoAfter) && forall c :: c in found && !c.anchored ==> c.anchorPos == 0
  {
    found := [];
    ghost var wanted, good := IsEligible(items, placed, threshold), IsFitting(items, placed);
    for k := 0 to |keys|
      invariant OneEach(found, KeysTo(keys, k), wanted, good)
      invariant Sorted(found, KeyNoAfter) && forall c :: c in found && !c.anchored ==> c.anchorPos == 0
    {
      var c := ClusterOf(items, placed, keys[k], threshold);
      OneMoreEach(found, KeysTo(keys, k), wanted, good, keys[k], c);
      assert KeysTo(keys, k + 1) == KeysTo(keys, k) + {keys[k]};
      if c.Some? {
        assert good(c.value);
        KeyComesLast(found, keys, k, c.value);
        found := found + [c.value];
      }
    }
  }

  /** The first `k` skeletons. */
  ghost function KeysTo(keys: seq<Skeleton>, k: nat): set<Skeleton>
    requires k <= |keys|
  {
    set i | 0 <= i < k :: keys[i]
  }

  lemma SortedAreClusters(
    items: seq<Item>, placed: Placed, threshold: int, keys: seq<Skeleton>, found: seq<Cluster>)
    requires |placed| == |items|
    requires OneEach(found, KeysTo(keys, |keys|), IsEligible(items, placed, threshold), IsFitting(items, placed))
    requires forall i: nat :: Numbered(items, i) ==> SkeletonOf(items, i) in keys
    ensures AreClusters(items, placed, SortBy(found, ClusterNoAfter), threshold)
  {
    var wanted, good := IsEligible(items, placed, threshold), IsFitting(items, placed);
    var clusters, all := SortBy(found, ClusterNoAfter), KeysTo(keys, |keys|);
    SortedOneEach(found, all, wanted, good);
    forall key | Eligible(items, placed, key, threshold) ensures key in all && wanted(key) {
      EligibleIsASkeleton(items, placed, key, threshold, keys);
    }
    forall c | c in clusters ensures Eligible(items, placed, c.key, threshold) && Fits(items, placed, c) {
      assert wanted(c.key) && good(c);
    }
  }

  lemma KeyComesLast(found: seq<Cluster>, keys: seq<Skeleton>, k: nat, c: Cluster)
    requires k < |keys| && Sorted(keys, SkeletonNoAfter) && c.key == keys[k] && Sorted(found, KeyNoAfter)
    requires forall d :: d in found ==> exists i :: 0 <= i < k && keys[i] == d.key
    ensures Sorted(found + [c], KeyNoAfter)
  {
    forall j | 0 <= j < |found| ensures KeyNoAfter(found[j], c) {
      assert found[j] in found;
      var i :| 0 <= i < k && keys[i] == found[j].key;
    }
  }

  lemma EligibleIsASkeleton(items: seq<Item>, placed: Placed, key: Skeleton, threshold: int, keys: seq<Skeleton>)
    requires |placed| == |items| && Eligible(items, placed, key, threshold)
    requires forall i: nat :: Numbered(items, i) ==> SkeletonOf(items, i) in keys
    ensures key in keys
  {
    var i := Members(items, key)[0];
    assert i in Members(items, key);
  }

  lemma AnchoredComeFirst(found: seq<Cluster>)
    requires Sorted(found, KeyNoAfter) && forall c :: c in found && !c.anchored ==> c.anchorPos == 0
    ensures AnchoredFirst(SortBy(found, ClusterNoAfter))
  {
    SortSorts(found, ClusterNoAfter);
    SortStable(found, ClusterNoAfter, KeyNoAfter);
    SortKeeps(found, ClusterNoAfter);
  }

  // ── Placing all clusters, in turn ────────────────────────────────────────

  ghost predicate AgreeOn(a: Placed, b: Placed, s: seq<nat>) {
    forall i :: i in s ==> i < |a| && i < |b| && a[i] == b[i]
  }

  /** No item is in two clusters. */
  ghost predicate Disjoint(clusters: seq<Cluster>) {
    forall i, j, m :: 0 <= i < j < |clusters| && m in clusters[i].members ==> m !in clusters[j].members
  }

  lemma ClustersAreDisjoint(items: seq<Item>, placed: Placed, clusters: seq<Cluster>, threshold: int)
    requires |placed| == |items| && AreClusters(items, placed, clusters, threshold)
    ensures Disjoint(clusters) && forall k :: 0 <= k < |clusters| ==> Anchors(NumsOf(items), placed, clusters[k])
  {
    forall k | 0 <= k < |clusters| ensures Fits(items, placed, clusters[k]) {
      assert clusters[k] in clusters;
    }
  }

  lemma AnchorsAgree(num: nat -> I64, a: Placed, b: Placed, c: Cluster)
    requires |a| == |b| && Anchors(num, a, c) && AgreeOn(a, b, c.members)
    ensures Anchors(num, b, c)
  {
  }

  lemma ClusterPlacedAgree(
    num: nat -> I64, before: Placed, after: Placed, before': Placed, after': Placed, c: Cluster)
    requires |before| == |after| == |before'| == |after'|
    requires ClusterPlaced(num, before, after, c)
    requires AgreeOn(before, before', c.members) && AgreeOn(after, after', c.members)
    ensures ClusterPlaced(num, before', after', c)
  {
  }

  ghost predicate EarlierMember(clusters: seq<Cluster>, k: nat, i: nat)
    requires k <= |clusters|
  {
    exists j :: 0 <= j < k && i in clusters[j].members
  }

  /** What was placed when cluster `k` was reached. */
  ghost function Stage(before: Placed, after: Placed, clusters: seq<Cluster>, k: nat): (r: Placed)
    requires |before| == |after| && k <= |clusters|
  {
    seq(|before|, i requires 0 <= i < |before| =>
      if before[i].None? && !EarlierMember(clusters, k, i) then None else after[i])
  }

  /** `top` is the highest position placed before cluster `k`, and where that is
      unanchored it starts right above it. */
  ghost predicate StartsAbove(before: Placed, after: Placed, clusters: seq<Cluster>, k: nat, top: I64)
    requires |before| == |after| && k < |clusters|
  {
    && IsHighest(Stage(before, after, clusters, k), top)
    && (!clusters[k].anchored ==>
          clusters[k].anchor < |before| && after[clusters[k].anchor] == Some(SaturatedNext(top)))
  }

  /** Where there is room, every placed member of an unanchored cluster is above
      everything placed before the cluster. */
  lemma UnanchoredLiesAbove(
    num: nat -> I64, before: Placed, after: Placed, clusters: seq<Cluster>, k: nat, top: I64, m: nat)
    requires |before| == |after| && k < |clusters| && !clusters[k].anchored
    requires StartsAbove(before, after, clusters, k, top) && top < I64_MAX
    requires Anchors(num, before, clusters[k]) && ClusterPlaced(num, before, after, clusters[k])
    requires m in clusters[k].members && after[m].Some?
    ensures forall i :: 0 <= i < |before| && Stage(before, after, clusters, k)[i].Some? ==>
      Stage(before, after, clusters, k)[i].value < after[m].value
  {
    assert before[m].None?;
    assert num(clusters[k].anchor) <= num(m);
  }

  /** What phase 2 does. */
  ghost predicate NamesPlaced(
    num: nat -> I64, before: Placed, after: Placed, clusters: seq<Cluster>, tops: seq<I64>)
    requires |before| == |after| && |tops| <= |clusters|
  {
    && (forall i :: 0 <= i < |before| && before[i].Some? ==> after[i] == before[i])
    && (forall i :: 0 <= i < |before| && !EarlierMember(clusters, |tops|, i) ==> after[i] == before[i])
    && (forall j {:trigger ClusterPlaced(num, before, after, clusters[j])} :: 0 <= j < |tops| ==>
          ClusterPlaced(num, before, after, clusters[j]))
    && (forall j {:trigger StartsAbove(before, after, clusters, j, tops[j])} :: 0 <= j < |tops| ==>
          StartsAbove(before, after, clusters, j, tops[j]))
  }

  /** Phase 2. */
  method PlaceByName(items: seq<Item>, before: Placed, top: I64, threshold: int)
    returns (placed: Placed, maxpos: I64, ghost clusters: seq<Cluster>, ghost tops: seq<I64>)
    requires |before| == |items| && IsHighest(before, top)
    ensures |placed| == |items| && IsHighest(placed, maxpos) && top <= maxpos
    ensures AreClusters(items, before, clusters, threshold) && AnchoredFirst(clusters)
    ensures |tops| == |clusters| && NamesPlaced(NumsOf(items), before, placed, clusters, tops)
  {
    var cs := Clusters(items, before, threshold);
    ClustersAreDisjoint(items, before, cs, threshold);
    placed, maxpos, tops := PlaceClusters(NumsOf(items), before, top, cs);
    clusters := cs;
  }

  method PlaceClusters(num: nat -> I64, before: Placed, top: I64, clusters: seq<Cluster>)
    returns (placed: Placed, maxpos: I64, ghost tops: seq<I64>)
    requires IsHighest(before, top) && Disjoint(clusters)
    requires forall k :: 0 <= k < |clusters| ==> Anchors(num, before, clusters[k])
    ensures |placed| == |before| && IsHighest(placed, maxpos) && top <= maxpos
    ensures |tops| == |clusters| && NamesPlaced(num, before, placed, clusters, tops)
  {
    placed, maxpos, tops := before, top, [];
    for k := 0 to |clusters|
      invariant |placed| == |before| && IsHighest(placed, maxpos) && top <= maxpos
      invariant |tops| == k && NamesPlaced(num, before, placed, clusters, tops)
    {
      ghost var was, wasTop := placed, maxpos;
      NotReachedYet(num, before, was, clusters, tops);
      AnchorsAgree(num, before, was, clusters[k]);
      placed, maxpos := PlaceCluster(num, placed, maxpos, clusters[k]);
      NextCluster(num, before, was, placed, clusters, tops, wasTop);
      tops := tops + [wasTop];
    }
  }

  lemma NotReachedYet(num: nat -> I64, before: Placed, was: Placed, clusters: seq<Cluster>, tops: seq<I64>)
    requires |before| == |was| && |tops| < |clusters| && Disjoint(clusters)
    requires NamesPlaced(num, before, was, clusters, tops) && Anchors(num, before, clusters[|tops|])
    ensures AgreeOn(before, was, clusters[|tops|].members)
  {
    forall i | i in clusters[|tops|].members ensures was[i] == before[i] {
      assert !EarlierMember(clusters, |tops|, i);
    }
  }

  lemma NextCluster(
    num: nat -> I64, before: Placed, was: Placed, after: Placed, clusters: seq<Cluster>, tops: seq<I64>, top: I64)
    requires |before| == |was| == |after| && |tops| < |clusters| && Disjoint(clusters)
    requires NamesPlaced(num, before, was, clusters, tops) && IsHighest(was, top)
    requires var c := clusters[|tops|];
      && AgreeOn(before, was, c.members)
      && ClusterPlaced(num, was, after, c)
      && (!c.anchored ==> after[c.anchor] == Some(SaturatedNext(top)))
      && forall i :: 0 <= i < |was| && (was[i].Some? || i !in c.members) ==> after[i] == was[i]
    ensures NamesPlaced(num, before, after, clusters, tops + [top])
  {
    var n := |tops|;
    var c := clusters[n];
    forall j | 0 <= j < n ensures AgreeOn(was, after, clusters[j].members) {
      assert ClusterPlaced(num, before, was, clusters[j]);
    }
    forall j | 0 <= j < n ensures ClusterPlaced(num, before, after, clusters[j]) {
      ClusterPlacedAgree(num, before, was, before, after, clusters[j]);
    }
    ClusterPlacedAgree(num, was, after, before, after, c);
    StageIs(num, before, was, after, clusters, tops);
    StartsStay(num, before, was, after, clusters, tops);
    forall j | 0 <= j < n + 1 ensures StartsAbove(before, after, clusters, j, (tops + [top])[j]) {
      assert j < n ==> (tops + [top])[j] == tops[j];
    }
    forall i | 0 <= i < |before| && !EarlierMember(clusters, n + 1, i) ensures after[i] == before[i] {
      assert i !in c.members;
      assert EarlierMember(clusters, n, i) ==> EarlierMember(clusters, n + 1, i);
    }
  }

  /** The clusters placed so far still start where they did. */
  lemma StartsStay(
    num: nat -> I64, before: Placed, was: Placed, after: Placed, clusters: seq<Cluster>, tops: seq<I64>)
    requires |before| == |was| == |after| && |tops| <= |clusters|
    requires NamesPlaced(num, before, was, clusters, tops)
    requires forall j :: 0 <= j < |tops| ==> AgreeOn(was, after, clusters[j].members)
    requires forall i :: 0 <= i < |was| && was[i].Some? ==> after[i] == was[i]
    ensures forall j :: 0 <= j < |tops| ==> StartsAbove(before, after, clusters, j, tops[j])
  {
    forall j | 0 <= j < |tops| ensures StartsAbove(before, after, clusters, j, tops[j]) {
      assert ClusterPlaced(num, before, was, clusters[j]);
      StillAbove(before, was, after, clusters, j, tops[j]);
    }
  }

  /** What is placed when the next cluster is reached is its stage. */
  lemma StageIs(
    num: nat -> I64, before: Placed, was: Placed, after: Placed, clusters: seq<Cluster>, tops: seq<I64>)
    requires |before| == |was| == |after| && |tops| < |clusters|
    requires NamesPlaced(num, before, was, clusters, tops)
    requires forall j :: 0 <= j < |tops| ==> AgreeOn(was, after, clusters[j].members)
    requires forall i :: 0 <= i < |was| && was[i].Some? ==> after[i] == was[i]
    ensures Stage(before, after, clusters, |tops|) == was
  {
    forall i | 0 <= i < |before| ensures Stage(before, after, clusters, |tops|)[i] == was[i] {
      if before[i].None? && EarlierMember(clusters, |tops|, i) {
        var j :| 0 <= j < |tops| && i in clusters[j].members;
        assert AgreeOn(was, after, clusters[j].members);
      }
    }
  }

  lemma StillAbove(before: Placed, was: Placed, after: Placed, clusters: seq<Cluster>, j: nat, top: I64)
    requires |before| == |was| == |after| && j < |clusters|
    requires forall i :: 0 <= i <= j ==> AgreeOn(was, after, clusters[i].members)
    requires forall i :: 0 <= i < |before| && before[i].Some? ==> was[i] == after[i]
    requires clusters[j].anchor in clusters[j].members
    requires StartsAbove(before, was, clusters, j, top)
    ensures StartsAbove(before, after, clusters, j, top)
  {
    forall i | 0 <= i < |before| ensures Stage(before, was, clusters, j)[i] == Stage(before, after, clusters, j)[i] {
      if before[i].None? && EarlierMember(clusters, j, i) {
        var l :| 0 <= l < j && i in clusters[l].members;
        assert AgreeOn(was, after, clusters[l].members);
      }
    }
    assert Stage(before, was, clusters, j) == Stage(before, after, clusters, j);
    assert AgreeOn(was, after, clusters[j].members);
  }

  // ── Phase 3: creation date ───────────────────────────────────────────────

  /** By creation time, the missing ones last, then by name. */
  predicate DateNoAfter(items: seq<Item>, a: nat, b: nat) {
    && a < |items| && b < |items|
    && match (items[a].btime, items[b].btime)
       case (Some(_), None) => true
       case (None, Some(_)) => false
       case (Some(x), Some(y)) => x < y || (x == y && Precedes(items[a].name, items[b].name))
       case (None, None) => Precedes(items[a].name, items[b].name)
  }

  lemma DateOrders(items: seq<Item>, s: seq<nat>)
    requires forall i :: i in s ==> i < |items|
    ensures Ordering(s, (a: nat, b: nat) => DateNoAfter(items, a, b))
  {
    forall a, b | a in s && b in s ensures DateNoAfter(items, a, b) || DateNoAfter(items, b, a) {
      PrecedesTotal(items[a].name, items[b].name);
    }
    forall a, b, c | a in s && b in s && c in s && DateNoAfter(items, a, b) && DateNoAfter(items, b, c)
      ensures DateNoAfter(items, a, c)
    {
      var (x, y, z) := (items[a].name, items[b].name, items[c].name);
      if Precedes(x, y) && Precedes(y, z) {
        PrecedesTransitive(x, y, z);
      }
    }
  }

  /** Older first, those without a date last, and by name where dates do not tell. */
  ghost predicate ByBirth(a: Item, b: Item) {
    && (a.btime.None? ==> b.btime.None?)
    && (a.btime.Some? && b.btime.Some? ==> a.btime.value <= b.btime.value)
    && (a.btime == b.btime ==> Precedes(a.name, b.name))
  }

  ghost predicate AllByBirth(items: seq<Item>, idx: seq<nat>) {
    && (forall k :: 0 <= k < |idx| ==> idx[k] < |items|)
    && forall k, l :: 0 <= k < l < |idx| ==> ByBirth(items[idx[k]], items[idx[l]])
  }

  /** The leftovers, by date, take the positions above `top` one after the other. */
  ghost predicate DatesPlaced(items: seq<Item>, before: Placed, after: Placed, leftovers: seq<nat>, top: I64)
    requires |before| == |after| == |items|
  {
    && (forall i: nat :: i in leftovers <==> i < |items| && before[i].None?)
    && Distinct(leftovers)
    && AllByBirth(items, leftovers)
    && (forall i :: 0 <= i < |items| && before[i].Some? ==> after[i] == before[i])
    && (forall k :: 0 <= k < |leftovers| ==> leftovers[k] < |items| && after[leftovers[k]] == Some(AfterTop(top, k)))
  }

  method Unplaced(placed: Placed) returns (r: seq<nat>)
    ensures forall i: nat :: i in r <==> i < |placed| && placed[i].None?
    ensures Distinct(r)
  {
    r := [];
    for i := 0 to |placed|
      invariant forall k: nat :: k in r <==> k < i && placed[k].None?
      invariant Distinct(r)
    {
      if placed[i].None? {
        r := r + [i];
      }
    }
  }

  /** The items without a position, by date. */
  method Leftovers(items: seq<Item>, placed: Placed) returns (idx: seq<nat>)
    requires |placed| == |items|
    ensures forall i: nat :: i in idx <==> i < |items| && placed[i].None?
    ensures Distinct(idx)
    ensures AllByBirth(items, idx)
  {
    var found := Unplaced(placed);
    var le := (a: nat, b: nat) => DateNoAfter(items, a, b);
    DateOrders(items, found);
    SortKeeps(found, le);
    SortSorts(found, le);
    SortDistinct(found, le);
    idx := SortBy(found, le);
    assert forall k :: 0 <= k < |idx| ==> idx[k] in idx && idx[k] in found;
    forall k, l | 0 <= k < l < |idx| ensures ByBirth(items[idx[k]], items[idx[l]]) {
      assert le(idx[k], idx[l]);
    }
  }

  /** Phase 3. */
  method PlaceByDate(items: seq<Item>, before: Placed, top: I64) returns (placed: Placed, ghost leftovers: seq<nat>)
    requires |before| == |items| && IsHighest(before, top)
    ensures |placed| == |items| && DatesPlaced(items, before, placed, leftovers, top)
  {
    var idx := Leftovers(items, before);
    leftovers := idx;
    placed := PlaceInTurn(before, top, idx);
    assert forall k :: 0 <= k < |idx| ==> idx[k] in idx;
  }

  /** `top + 1 + k`, or the end of the range. */
  function AfterTop(top: I64, k: nat): I64 {
    if top + 1 + k <= I64_MAX then top + 1 + k else I64_MAX
  }

  method PlaceInTurn(before: Placed, top: I64, idx: seq<nat>) returns (placed: Placed)
    requires Distinct(idx) && forall i :: i in idx ==> i < |before|
    ensures |placed| == |before|
    ensures forall i :: 0 <= i < |before| && i !in idx ==> placed[i] == before[i]
    ensures forall k :: 0 <= k < |idx| ==> idx[k] < |before| && placed[idx[k]] == Some(AfterTop(top, k))
  {
    assert forall k :: 0 <= k < |idx| ==> idx[k] in idx;
    var maxpos := top;
    placed := before;
    for k := 0 to |idx|
      invariant |placed| == |before| && maxpos == if k == 0 then top else AfterTop(top, k - 1)
      invariant forall i :: 0 <= i < |before| && i !in idx ==> placed[i] == before[i]
      invariant forall l :: 0 <= l < k ==> placed[idx[l]] == Some(AfterTop(top, l))
    {
      maxpos := SaturatedNext(maxpos);
      placed := placed[idx[k] := Some(maxpos)];
    }
  }

  // ── The whole assignment ─────────────────────────────────────────────────

  function Existing(items: seq<Item>): (r: Placed)
    ensures |r| == |items| && forall i :: 0 <= i < |items| ==> r[i] == items[i].existing
  {
    seq(|items|, i requires 0 <= i < |items| => items[i].existing)
  }

  /** The largest position there is, or 0. */
  method Highest(placed: Placed) returns (r: I64)
    ensures IsHighest(placed, r)
  {
    var best: Option<I64> := None;
    for i := 0 to |placed|
      invariant best.Some? ==> best in placed
      invariant forall j :: 0 <= j < i && placed[j].Some? ==> best.Some? && placed[j].value <= best.value
    {
      if placed[i].Some? && (best.None? || placed[i].value > best.value) {
        best := placed[i];
      }
    }
    return if best.Some? then best.value else 0;
  }

  predicate AssignmentNoAfter(a: Assignment, b: Assignment) {
    a.position < b.position || (a.position == b.position && Precedes(a.key, b.key))
  }

  lemma AssignmentsOrder(s: seq<Assignment>)
    ensures Ordering(s, AssignmentNoAfter)
  {
    forall a, b | a in s && b in s ensures AssignmentNoAfter(a, b) || AssignmentNoAfter(b, a) {
      PrecedesTotal(a.key, b.key);
    }
    forall a, b, c | a in s && b in s && c in s && AssignmentNoAfter(a, b) && AssignmentNoAfter(b, c)
      ensures AssignmentNoAfter(a, c)
    {
      if Precedes(a.key, b.key) && Precedes(b.key, c.key) {
        PrecedesTransitive(a.key, b.key, c.key);
      }
    }
  }

  /** What there is to write: the items that had no position, with theirs. */
  function ToWrite(items: seq<Item>, placed: Placed, n: nat): seq<Assignment>
    requires n <= |items| == |placed| && forall i :: 0 <= i < n ==> placed[i].Some?
  {
    if n == 0 then []
    else if items[n - 1].existing.Some? then ToWrite(items, placed, n - 1)
    else ToWrite(items, placed, n - 1) + [Assignment(items[n - 1].key, placed[n - 1].value)]
  }

  /** The items that had no position. */
  ghost function Missing(items: seq<Item>, n: nat): set<nat>
    requires n <= |items|
  {
    set i: nat | i < n && items[i].existing.None?
  }

  /** One position is written for each item that had none, and no other. */
  ghost predicate WritesEach(items: seq<Item>, placed: Placed, n: nat, out: seq<Assignment>)
    requires n <= |items| == |placed| && forall i :: 0 <= i < n ==> placed[i].Some?
  {
    && |out| == |Missing(items, n)|
    && (forall i: nat :: i in Missing(items, n) ==> Assignment(items[i].key, placed[i].value) in out)
    && (forall a :: a in out ==> IsMissing(items, placed, n, a))
  }

  /** The write is that of an item that had none. */
  ghost predicate IsMissing(items: seq<Item>, placed: Placed, n: nat, a: Assignment)
    requires n <= |items| == |placed| && forall i :: 0 <= i < n ==> placed[i].Some?
  {
    exists i: nat :: i in Missing(items, n) && a == Assignment(items[i].key, placed[i].value)
  }

  lemma {:induction false} ToWriteIsEach(items: seq<Item>, placed: Placed, n: nat)
    requires n <= |items| == |placed| && forall i :: 0 <= i < n ==> placed[i].Some?
    ensures WritesEach(items, placed, n, ToWrite(items, placed, n))
  {
    if n > 0 {
      ToWriteIsEach(items, placed, n - 1);
      if items[n - 1].existing.Some? {
        assert Missing(items, n) == Missing(items, n - 1);
      } else {
        OneMoreWritten(items, placed, n, ToWrite(items, placed, n - 1));
      }
    }
  }

  lemma OneMoreWritten(items: seq<Item>, placed: Placed, n: nat, out: seq<Assignment>)
    requires 0 < n <= |items| == |placed| && forall i :: 0 <= i < n ==> placed[i].Some?
    requires items[n - 1].existing.None? && WritesEach(items, placed, n - 1, out)
    ensures WritesEach(items, placed, n, out + [Assignment(items[n - 1].key, placed[n - 1].value)])
  {
    var last := Assignment(items[n - 1].key, placed[n - 1].value);
    assert Missing(items, n) == Missing(items, n - 1) + {n - 1};
    forall i: nat | i in Missing(items, n) ensures Assignment(items[i].key, placed[i].value) in out + [last] {
      assert i < n - 1 ==> i in Missing(items, n - 1);
    }
    assert n - 1 in Missing(items, n);
    forall a | a in out + [last] ensures IsMissing(items, placed, n, a) {
      if a in out {
        StillMissing(items, placed, n, a);
      }
    }
  }

  lemma StillMissing(items: seq<Item>, placed: Placed, n: nat, a: Assignment)
    requires 0 < n <= |items| == |placed| && forall i :: 0 <= i < n ==> placed[i].Some?
    requires IsMissing(items, placed, n - 1, a)
    ensures IsMissing(items, placed, n, a)
  {
    var i: nat :| i in Missing(items, n - 1) && a == Assignment(items[i].key, placed[i].value);
    assert i in Missing(items, n);
  }

  lemma WritesEachSorted(
    items: seq<Item>, placed: Placed, out: seq<Assignment>, sorted: seq<Assignment>)
    requires |items| == |placed| && forall i :: 0 <= i < |items| ==> placed[i].Some?
    requires WritesEach(items, placed, |items|, out) && multiset(sorted) == multiset(out)
    ensures WritesEach(items, placed, |items|, sorted)
  {
    assert |sorted| == |multiset(sorted)| == |multiset(out)| == |out|;
    assert forall a :: a in sorted <==> a in multiset(sorted);
    assert forall a :: a in out <==> a in multiset(out);
  }

  /** A run of the three phases, with what each left. */
  datatype Trace = Trace(
    maxpos: I64,
    byMeta: Placed,
    lowest: I64,
    byName: Placed,
    clusters: seq<Cluster>,
    tops: seq<I64>,
    leftovers: seq<nat>,
    lastTop: I64,
    placed: Placed)

  ghost predicate Phases(items: seq<Item>, threshold: int, t: Trace) {
    && |t.byMeta| == |t.byName| == |t.placed| == |items|
    && IsHighest(Existing(items), t.maxpos)
    && MetaPlaced(items, Existing(items), t.byMeta, t.lowest, WrappedNext(t.maxpos))
    && IsLowest(items, Existing(items), t.lowest)
    && AreClusters(items, t.byMeta, t.clusters, threshold) && AnchoredFirst(t.clusters)
    && |t.tops| == |t.clusters| && NamesPlaced(NumsOf(items), t.byMeta, t.byName, t.clusters, t.tops)
    && IsHighest(t.byName, t.lastTop)
    && DatesPlaced(items, t.byName, t.placed, t.leftovers, t.lastTop)
  }

  /** Every item ends with a position, and one it had is never altered. */
  lemma EveryItemOnce(items: seq<Item>, threshold: int, t: Trace)
    requires Phases(items, threshold, t)
    ensures forall i :: 0 <= i < |items| ==> t.placed[i].Some?
    ensures forall i :: 0 <= i < |items| && items[i].existing.Some? ==> t.placed[i] == items[i].existing
  {
    forall i: nat | i < |items| ensures t.placed[i].Some? {
      if t.byName[i].None? {
        assert i in t.leftovers;
      }
    }
  }

  /** The three phases, one after the other. */
  method RunPhases(items: seq<Item>, threshold: int) returns (placed: Placed, ghost t: Trace)
    ensures Phases(items, threshold, t) && placed == t.placed
  {
    var existing := Existing(items);
    var maxpos := Highest(existing);
    var byMeta, top1, lowest := PlaceByMeta(items, existing, maxpos);
    var byName, top2, clusters, tops := PlaceByName(items, byMeta, top1, threshold);
    ghost var leftovers;
    placed, leftovers := PlaceByDate(items, byName, top2);
    t := Trace(maxpos, byMeta, lowest, byName, clusters, tops, leftovers, top2, placed);
  }

  method Raw(items: seq<Item>, placed: Placed) returns (raw: seq<Assignment>)
    requires |placed| == |items| && forall i :: 0 <= i < |items| ==> placed[i].Some?
    ensures raw == ToWrite(items, placed, |items|)
  {
    raw := [];
    for i := 0 to |items|
      invariant raw == ToWrite(items, placed, i)
    {
      if items[i].existing.None? {
        raw := raw + [Assignment(items[i].key, placed[i].value)];
      }
    }
  }
}
