/**
 The single changes a run makes to tree and trash, what a run of them leaves, and
 exactly what it adds to the contents: the copies a transfer that failed part-way
 left beside their sources.
 */
module DiskSteps {
  import opened Disk

  /** A rename inside the tree, the directories made above a path a blob is to go to,
      or a transfer between tree and trash of which `copies` were made and `removed`
      taken away. */
  datatype Step =
    | Renaming(from: Path, to: Path)
    | Making(id: nat, target: Path)
    | Sending(path: Path, id: nat, copies: map<Path, Node>, removed: set<Path>)
    | Returning(id: nat, target: Path, copies: map<Path, Node>, removed: set<Path>)

  function Parents(target: Path): set<Path> {
    set i | 0 <= i < |target| :: target[..i]
  }

  function After(d: Disk, s: Step): Disk {
    match s
    case Renaming(from, to) => Renamed(d, from, to)
    case Making(_, target) => WithDirs(d, Parents(target))
    case Sending(path, id, copies, removed) => Gone(d, path, id, copies, removed)
    case Returning(id, target, copies, removed) => Returned(d, id, target, copies, removed)
  }

  /** Copies of nodes of `part`, all as they were but for at most one, at which the
      copying stopped. */
  predicate CopyOf(copies: map<Path, Node>, part: map<Path, Node>) {
    && (forall a :: a in copies ==> a in part)
    && forall a, b :: a in copies && b in copies && a != b ==> copies[a] == part[a] || copies[b] == part[b]
  }

  /** A transfer into the trash, whole or failing part-way: nothing is removed before
      everything is copied. */
  predicate CanSend(d: Disk, path: Path, copies: map<Path, Node>, removed: set<Path>) {
    && path in d.tree && CanGo(d, path, copies, removed)
    && CopyOf(copies, Part(d.tree, path))
    && (removed != {} ==> copies == Part(d.tree, path))
  }

  /** A transfer out of it, the same but for a merge into a directory, which goes node
      by node. */
  predicate CanPutBack(d: Disk, id: nat, target: Path, copies: map<Path, Node>, removed: set<Path>) {
    && Fits(d, target, copies) && CanReturn(d, id, copies, removed)
    && CopyOf(copies, BlobNodes(d, id))
    && (target !in d.tree && removed != {} ==> copies == BlobNodes(d, id))
  }

  /** A step the operating system can make. */
  ghost predicate CanTake(d: Disk, s: Step) {
    match s
    case Renaming(from, to) => from in d.tree && !(from <= to) && Under(d.tree, to) == {}
    case Making(_, _) => true
    case Sending(path, id, copies, removed) => CanSend(d, path, copies, removed) && Unused(d, id)
    case Returning(id, target, copies, removed) => CanPutBack(d, id, target, copies, removed)
  }

  /** The copies a step leaves beside their sources. */
  function LeftBeside(s: Step): map<Path, Node> {
    match s
    case Renaming(_, _) => map[]
    case Making(_, _) => map[]
    case Sending(_, _, copies, removed) => copies - removed
    case Returning(_, _, copies, removed) => copies - removed
  }

  /** A transfer that removed whatever it copied, as a rename does at once. */
  predicate Whole(s: Step) {
    LeftBeside(s) == map[]
  }

  lemma StepKeeps(d: Disk, s: Step)
    requires CanTake(d, s)
    ensures Contents(After(d, s)) == Contents(d) + Bag(LeftBeside(s))
  {
    match s
    case Renaming(from, to) =>
      RenameKeeps(d, from, to);
      PlusNothing(Contents(d), Bag(LeftBeside(s)));
    case Making(_, target) =>
      DirsKeep(d, Parents(target));
      PlusNothing(Contents(d), Bag(LeftBeside(s)));
    case Sending(path, id, copies, removed) =>
      GoneKeeps(d, path, id, copies, removed);
    case Returning(id, target, copies, removed) =>
      ReturnKeeps(d, id, target, copies, removed);
  }

  // ── What a step keeps ────────────────────────────────────────────────────

  /** Only a transfer into the trash adds to it, and only to its own blob. */
  lemma KeysAfter(d: Disk, s: Step)
    ensures forall k :: k in After(d, s).trash ==> k in d.trash || (s.Sending? && k.0 == s.id)
  {
  }

  /** Nothing of `before` is gone or changed. */
  ghost predicate Extends(before: map<Path, Node>, after: map<Path, Node>) {
    forall p :: p in before ==> p in after && after[p] == before[p]
  }

  /** A transfer into the trash takes only from below `path` and adds only to `id`. */
  ghost predicate OnlyBelow(was: Disk, d: Disk, path: Path, id: nat) {
    && Extends(d.tree, was.tree)
    && (forall k :: k in d.trash ==> k in was.trash || k.0 == id)
    && (forall q :: q in was.tree && !(path <= q) ==> q in d.tree)
  }

  lemma GoneOnlyBelow(d: Disk, path: Path, id: nat, copies: map<Path, Node>, removed: set<Path>)
    ensures OnlyBelow(d, Gone(d, path, id, copies, removed), path, id)
  {
    PathsAtIs(path, removed);
  }

  /** A whole transfer of what is below `path` into a new blob. */
  lemma CanSendWhole(d: Disk, path: Path, id: nat)
    requires path in d.tree && Unused(d, id)
    ensures CanSend(d, path, Part(d.tree, path), Below(d.tree, path))
    ensures Part(d.tree, path) - Below(d.tree, path) == map[]
    ensures OnlyBelow(d, Trashed(d, path, id), path, id)
  {
    BelowIs(d.tree, path);
    GoneOnlyBelow(d, path, id, Part(d.tree, path), Below(d.tree, path));
  }

  /** The blob `id` of `before` left the trash, and every node of it is at its
      place below `target`. */
  ghost predicate Back(before: Disk, after: Disk, id: nat, target: Path) {
    && Unused(after, id)
    && forall rel :: (id, rel) in before.trash ==>
         target + rel in after.tree && after.tree[target + rel] == before.trash[(id, rel)]
  }

  /** Putting a blob back adds to the tree only, and takes from the trash only. */
  lemma ReturnedExtends(d: Disk, id: nat, target: Path, copies: map<Path, Node>, removed: set<Path>)
    requires Fits(d, target, copies)
    ensures Extends(d.tree, Returned(d, id, target, copies, removed).tree)
    ensures Returned(d, id, target, copies, removed).trash.Keys <= d.trash.Keys
  {
    MeetsDirs(d, target, copies);
    PathsAtIs(target, copies.Keys);
  }

  lemma FitsFree(d: Disk, target: Path, nodes: map<Path, Node>)
    requires Under(d.tree, target) == {}
    ensures Fits(d, target, nodes)
  {
    forall rel | rel in nodes ensures target + rel !in d.tree {
      assert target + rel in d.tree ==> target + rel in Under(d.tree, target);
    }
  }

  /** Making the directories above a path puts nothing at or below it. */
  lemma ParentsAreAbove(was: Disk, d: Disk, target: Path)
    requires Extends(was.tree, d.tree)
    requires forall q :: q in d.tree ==> q in was.tree || q in Parents(target)
    ensures Under(d.tree, target) == Under(was.tree, target)
  {
    forall q | q in Under(d.tree, target) ensures q in was.tree {
      assert q !in Parents(target);
    }
  }

  /** The blob can be put back at `target`: onto a free path whose parents are
      directories or can be made, or merged, a directory into a directory, where
      nothing is overwritten. */
  predicate CanRestore(d: Disk, id: nat, target: Path) {
    if target in d.tree then
      && d.tree[target].Dir? && (id, []) in d.trash && d.trash[(id, [])].Dir?
      && Fits(d, target, BlobNodes(d, id))
    else
      && (id, []) in d.trash && Under(d.tree, target) == {} && ParentsFit(d, target)
  }

  /** Nothing above the path is a file. */
  predicate ParentsFit(d: Disk, target: Path) {
    forall k :: 0 <= k < |target| && target[..k] in d.tree ==> d.tree[target[..k]].Dir?
  }

  /** A whole blob can be put back where it fits. */
  lemma CanReturnWhole(d: Disk, id: nat, target: Path, all: map<Path, Node>)
    requires all == BlobNodes(d, id) && Fits(d, target, all)
    ensures CanPutBack(d, id, target, all, all.Keys) && all - all.Keys == map[]
  {
    BlobIs(d, id);
    assert CopyOf(all, all);
  }

  lemma ReturnedBack(d: Disk, id: nat, target: Path, all: map<Path, Node>)
    requires all == BlobNodes(d, id)
    ensures Back(d, Returned(d, id, target, all, all.Keys), id, target)
  {
    var after := Returned(d, id, target, all, all.Keys);
    BlobIs(d, id);
    PathsAtIs(target, all.Keys);
    forall rel | (id, rel) in d.trash
      ensures target + rel in after.tree && after.tree[target + rel] == d.trash[(id, rel)]
    {
      assert (target + rel)[|target|..] == rel;
    }
    forall rel ensures (id, rel) !in after.trash {
      assert (id, rel) in d.trash ==> (id, rel) in KeysOf(id, all.Keys);
    }
  }

  // ── Runs ─────────────────────────────────────────────────────────────────

  /** The disk after the steps. */
  function Replay(first: Disk, steps: seq<Step>): Disk {
    if steps == [] then first
    else After(Replay(first, steps[..|steps| - 1]), steps[|steps| - 1])
  }

  /** The disk before step `k` of a run, or after its last. */
  function At(first: Disk, steps: seq<Step>, k: nat): Disk
    requires k <= |steps|
  {
    Replay(first, steps[..k])
  }

  /** The steps lead from `first` to `last`, each one possible where it is taken. */
  ghost predicate Leads(first: Disk, steps: seq<Step>, last: Disk) {
    && last == Replay(first, steps)
    && forall k :: 0 <= k < |steps| ==> CanTake(At(first, steps, k), steps[k])
  }

  /** The steps lead to the disk; on one filesystem every transfer is whole. */
  ghost predicate Traces(oneDevice: bool, first: Disk, steps: seq<Step>, last: Disk) {
    Leads(first, steps, last) && (oneDevice ==> Cleanly([], steps))
  }

  lemma TracesNothing(oneDevice: bool, first: Disk)
    ensures Traces(oneDevice, first, [], first)
  {
  }

  /** Blobs carry identifiers below `next`. */
  ghost predicate Drawn(d: Disk, next: nat) {
    forall k :: k in d.trash ==> k.0 < next
  }

  /** One more step of a run. */
  lemma TracesOn(oneDevice: bool, first: Disk, steps: seq<Step>, d: Disk, s: Step, next: nat)
    requires Traces(oneDevice, first, steps, d) && CanTake(d, s) && (oneDevice ==> Whole(s))
    requires Drawn(d, next) && (s.Sending? ==> s.id < next)
    ensures Traces(oneDevice, first, steps + [s], After(d, s)) && Drawn(After(d, s), next)
  {
    LeadsOn(first, steps, d, s);
    if oneDevice {
      CleanlyOn([], steps, s);
    }
    KeysAfter(d, s);
  }

  lemma AtEarlier(first: Disk, steps: seq<Step>, later: seq<Step>, k: nat)
    requires k <= |steps| && steps <= later
    ensures At(first, steps, k) == At(first, later, k)
  {
    assert steps[..k] == later[..k];
  }

  lemma LeadsOn(first: Disk, steps: seq<Step>, d: Disk, s: Step)
    requires Leads(first, steps, d) && CanTake(d, s)
    ensures Leads(first, steps + [s], After(d, s))
  {
    var more := steps + [s];
    assert more[..|steps|] == steps;
    forall k | 0 <= k < |more| ensures CanTake(At(first, more, k), more[k]) {
      if k < |steps| {
        AtEarlier(first, steps, more, k);
      }
    }
  }

  /** The contents of all the copies left by the steps. */
  ghost function Leftovers(steps: seq<Step>): multiset<Content> {
    if steps == [] then multiset{}
    else Leftovers(steps[..|steps| - 1]) + Bag(LeftBeside(steps[|steps| - 1]))
  }

  lemma Regroup(a: multiset<Content>, b: multiset<Content>, c: multiset<Content>)
    ensures a + b + c == a + (b + c)
  {
  }

  /** A run adds to the contents exactly the copies its steps left. */
  lemma {:induction false} RunKeeps(first: Disk, steps: seq<Step>, last: Disk)
    requires Leads(first, steps, last)
    ensures Contents(last) == Contents(first) + Leftovers(steps)
  {
    if steps == [] {
      PlusNothing(Contents(first), Leftovers(steps));
    } else {
      var n := |steps| - 1;
      var before, s := steps[..n], steps[n];
      LeadsBefore(first, steps, last, n);
      RunKeeps(first, before, At(first, steps, n));
      StepKeeps(At(first, steps, n), s);
      Regroup(Contents(first), Leftovers(before), Bag(LeftBeside(s)));
    }
  }

  lemma LeadsBefore(first: Disk, steps: seq<Step>, last: Disk, n: nat)
    requires Leads(first, steps, last) && n <= |steps|
    ensures Leads(first, steps[..n], At(first, steps, n))
  {
    forall k | 0 <= k < n ensures CanTake(At(first, steps[..n], k), steps[..n][k]) {
      AtEarlier(first, steps[..n], steps, k);
    }
  }

  /** Every step since `before` is whole. */
  ghost predicate Cleanly(before: seq<Step>, after: seq<Step>) {
    before <= after && forall k :: |before| <= k < |after| ==> Whole(after[k])
  }

  lemma CleanlyOn(before: seq<Step>, after: seq<Step>, s: Step)
    requires Cleanly(before, after) && Whole(s)
    ensures Cleanly(before, after + [s])
  {
  }

  /** At most one step was taken, a transfer of `path` into the blob `id`. */
  ghost predicate Sends(before: seq<Step>, after: seq<Step>, path: Path, id: nat) {
    || after == before
    || (|after| == |before| + 1 && before <= after && after[|before|].Sending?
        && after[|before|].path == path && after[|before|].id == id)
  }

  /** Every step since `before` is part of putting the blob `id` back at `target`. */
  ghost predicate Returns(before: seq<Step>, after: seq<Step>, id: nat, target: Path) {
    && before <= after
    && forall k :: |before| <= k < |after| ==>
         (after[k].Making? || after[k].Returning?) && after[k].id == id && after[k].target == target
  }

  /** Every step since `before` is part of moving `from` to `to`. */
  ghost predicate Moves(before: seq<Step>, after: seq<Step>, from: Path, to: Path) {
    && before <= after
    && forall k :: |before| <= k < |after| ==>
         after[k] == Renaming(from, to) || (after[k].Sending? && after[k].path == to)
  }

  lemma SendThenRename(before: seq<Step>, mid: seq<Step>, after: seq<Step>, from: Path, to: Path, id: nat)
    requires Sends(before, mid, to, id) && (after == mid || after == mid + [Renaming(from, to)])
    ensures Moves(before, after, from, to)
  {
  }

  // ── When nothing is added ────────────────────────────────────────────────

  /** The step left no copy of a file. */
  ghost predicate LeavesNoFile(s: Step) {
    forall rel :: rel in LeftBeside(s) ==> LeftBeside(s)[rel].Dir?
  }

  lemma EmptyBag(m: map<Path, Node>)
    ensures Bag(m) == multiset{} <==> forall rel :: rel in m ==> m[rel].Dir?
  {
    if forall rel :: rel in m ==> m[rel].Dir? {
      BagOfDirs(m);
    } else {
      var rel :| rel in m && m[rel].File?;
      BagRemove(m, rel);
      assert m[rel].content in Held(m[rel]);
      assert m[rel].content in Bag(m);
    }
  }

  lemma BothEmpty(a: multiset<Content>, b: multiset<Content>)
    ensures a + b == multiset{} <==> a == multiset{} && b == multiset{}
  {
    if a + b == multiset{} {
      forall c ensures a[c] == 0 && b[c] == 0 {
        assert (a + b)[c] == 0;
      }
    }
  }

  /** No step left a copy of a file. */
  ghost predicate LeaveNoFile(steps: seq<Step>) {
    forall k :: 0 <= k < |steps| ==> LeavesNoFile(steps[k])
  }

  lemma LeaveNoFileLast(steps: seq<Step>, s: Step)
    ensures LeaveNoFile(steps + [s]) <==> LeaveNoFile(steps) && LeavesNoFile(s)
  {
    var all := steps + [s];
    assert all[|steps|] == s;
    if LeaveNoFile(all) {
      forall k | 0 <= k < |steps| ensures LeavesNoFile(steps[k]) {
        assert all[k] == steps[k];
      }
    }
  }

  lemma {:induction false} NoLeftovers(steps: seq<Step>)
    ensures Leftovers(steps) == multiset{} <==> LeaveNoFile(steps)
  {
    if steps != [] {
      var n := |steps| - 1;
      var before, s := steps[..n], steps[n];
      NoLeftovers(before);
      EmptyBag(LeftBeside(s));
      BothEmpty(Leftovers(before), Bag(LeftBeside(s)));
      LeaveNoFileLast(before, s);
      assert steps == before + [s];
    }
  }

  lemma SameSum(a: multiset<Content>, b: multiset<Content>)
    ensures a + b == a <==> b == multiset{}
  {
    if a + b == a {
      forall c ensures b[c] == 0 {
        assert (a + b)[c] == a[c];
      }
    }
  }

  /** A run conserves the contents exactly when none of its transfers left a copy of
      a file; one whose transfers are all whole does. */
  lemma KeptExactly(first: Disk, steps: seq<Step>, last: Disk)
    requires Leads(first, steps, last)
    ensures Contents(last) == Contents(first) <==> LeaveNoFile(steps)
    ensures Cleanly([], steps) ==> LeaveNoFile(steps)
  {
    RunKeeps(first, steps, last);
    NoLeftovers(steps);
    SameSum(Contents(first), Leftovers(steps));
  }

  lemma OneFile<K>(k: K, c: Content)
    ensures Bag(map[k := File(c)]) == multiset{c}
  {
    var m := map[k := File(c)];
    BagRemove(m, k);
    assert m - {k} == map[];
  }

  lemma CanCopyOnly(d: Disk, p: Path, torn: Content)
    requires p in d.tree
    ensures CanSend(d, p, map[[] := File(torn)], {})
  {
    BelowIs(d.tree, p);
    assert p + [] == p;
  }

  lemma OneFileDisk(p: Path, c: Content)
    ensures Contents(Disk(map[p := File(c)], map[])) == multiset{c}
  {
    var d := Disk(map[p := File(c)], map[]);
    OneFile(p, c);
    PlusNothing(Bag(d.tree), Bag(d.trash));
  }

  /** Across filesystems a file can be copied into the trash and then not removed,
      or be copied in part: the disk holds it twice, or it and what was copied. */
  lemma CopyLeftBeside(p: Path, c: Content, torn: Content)
    ensures
      var d, s := Disk(map[p := File(c)], map[]), Sending(p, 0, map[[] := File(torn)], {});
      && CanTake(d, s) && Contents(d) == multiset{c} && Contents(After(d, s)) == multiset{c} + multiset{torn}
  {
    var d, s := Disk(map[p := File(c)], map[]), Sending(p, 0, map[[] := File(torn)], {});
    CanCopyOnly(d, p, torn);
    OneFileDisk(p, c);
    StepKeeps(d, s);
    assert LeftBeside(s) == map[[] := File(torn)];
    OneFile<Path>([], torn);
  }
}
