/** What a coordinated revert is asked to do, and what its decisions rest on. */
module RevertPlan {
  import opened Prelude
  import opened Disk
  import opened DiskSteps
  import Sorting

  datatype Policy = Apply | Skip | Abort | Ask

  datatype Policies = Policies(onAvailable: Policy, onUnavailable: Policy)

  /** What the policies say of a move whose file is there, or is not. */
  function PolicyFor(policies: Policies, available: bool): Policy {
    if available then policies.onAvailable else policies.onUnavailable
  }

  datatype TrashedNode = TrashedNode(uuid: string, trashed: bool)

  datatype TrashEntry = TrashEntry(
    id: nat,
    original: Path,
    metarecord: Option<string>,
    version: Option<nat>,
    subtree: seq<TrashedNode>)

  /** What undoing an operation requires on disk. */
  datatype Action = Move(from: Path, to: Path) | RestoreContent | TrashContent | NoAction

  datatype RevertOp = RevertOp(
    id: Option<int>,
    opType: string,
    action: Action,
    entity: string,
    versionBeforeLabel: Option<nat>,
    versionBefore: Option<nat>)

  predicate TakesAWholeMetarecord(op: RevertOp) {
    op.opType == "delete_metarecord" || op.opType == "create_metarecord"
  }

  // ── Trash entries ────────────────────────────────────────────────────────

  type Index = map<nat, TrashEntry>

  /** The nodes record the metarecord as taken, not only for context. */
  ghost predicate TookNode(nodes: seq<TrashedNode>, entity: string) {
    exists k :: 0 <= k < |nodes| && nodes[k].trashed && nodes[k].uuid == entity
  }

  /** The metarecords a subtree records as taken. */
  function Taken(nodes: seq<TrashedNode>): (r: set<string>)
    ensures forall x :: x in r <==> TookNode(nodes, x)
  {
    set i | 0 <= i < |nodes| && nodes[i].trashed :: nodes[i].uuid
  }

  /** The blob of `e` holds the content of the metarecord `entity`. */
  predicate Took(e: TrashEntry, entity: string) {
    e.metarecord == Some(entity) || entity in Taken(e.subtree)
  }

  /** The blob of `e` holds the content `op` wants back, by the fields of both: the
      entry of the metarecord itself, at the version before the label or, failing
      that, before the operation; or of another, whose subtree took it. */
  ghost predicate HoldsContent(e: TrashEntry, op: RevertOp, anyVersion: bool) {
    if e.metarecord == Some(op.entity) then
      || anyVersion
      || (op.versionBeforeLabel.Some? && e.version == op.versionBeforeLabel)
      || (op.versionBeforeLabel.None? && op.versionBefore.Some? && e.version == op.versionBefore)
    else TookBelow(e, op.entity)
  }

  ghost predicate TookBelow(e: TrashEntry, entity: string) {
    TookNode(e.subtree, entity)
  }

  /** The same for an operation of the plan: an operation on a whole metarecord takes
      any version. */
  ghost predicate WantedBy(e: TrashEntry, op: RevertOp) {
    && op.action.RestoreContent?
    && HoldsContent(e, op, op.opType == "delete_metarecord" || op.opType == "create_metarecord")
  }

  function VersionOf(op: RevertOp): Option<nat> {
    if op.versionBeforeLabel.Some? then op.versionBeforeLabel else op.versionBefore
  }

  /** The entry the step looks for: the record's own at the right version, or
      one whose subtree took it. */
  predicate Covers(e: TrashEntry, op: RevertOp, byMetarecordOnly: bool) {
    if e.metarecord == Some(op.entity)
    then byMetarecordOnly || (VersionOf(op).Some? && e.version == VersionOf(op))
    else op.entity in Taken(e.subtree)
  }

  function Position(entries: seq<TrashEntry>, op: RevertOp, byMetarecordOnly: bool): (r: Option<nat>)
    ensures r.Some? ==> r.value < |entries| && Covers(entries[r.value], op, byMetarecordOnly)
    ensures forall i :: 0 <= i < (if r.Some? then r.value else |entries|) ==>
      !Covers(entries[i], op, byMetarecordOnly)
  {
    if entries == [] then None
    else if Covers(entries[0], op, byMetarecordOnly) then Some(0)
    else match Position(entries[1..], op, byMetarecordOnly)
      case None => None
      case Some(i) => Some(i + 1)
  }

  ghost predicate DistinctIds(s: seq<TrashEntry>) {
    forall i, j :: 0 <= i < j < |s| ==> s[i].id != s[j].id
  }

  ghost predicate Apart(s: seq<TrashEntry>, t: seq<TrashEntry>) {
    forall i, j :: 0 <= i < |s| && 0 <= j < |t| ==> s[i].id != t[j].id
  }

  ghost predicate ReturnedFor(returned: seq<TrashEntry>, entity: string) {
    exists e :: e in returned && (e.metarecord == Some(entity) || TookBelow(e, entity))
  }

  lemma ReturnedLast(returned: seq<TrashEntry>, entry: TrashEntry, entity: string)
    requires Took(entry, entity)
    ensures ReturnedFor(returned + [entry], entity) && (returned + [entry])[|returned|] == entry
  {
    assert (returned + [entry])[|returned|] == entry;
    assert entry in returned + [entry];
  }

  /** The list holds exactly the entries of the index, each once. */
  ghost predicate Lists(listing: seq<TrashEntry>, index: Index) {
    && DistinctIds(listing)
    && (forall e :: e in listing ==> e.id in index && index[e.id] == e)
    && (forall id :: id in index ==> index[id] in listing)
  }

  /** What a run has put back and what it may still put back are different
      entries of those listed, all older than `mark`, and what counts as restored
      was in a blob put back. */
  ghost predicate Accounted(
    entries: seq<TrashEntry>, returned: seq<TrashEntry>, listed: seq<TrashEntry>, restored: set<string>, mark: nat)
  {
    && DistinctIds(entries) && DistinctIds(returned) && Apart(entries, returned)
    && (forall e :: e in entries || e in returned ==> e in listed)
    && (forall e :: e in listed ==> e.id < mark)
    && (forall e :: e in listed ==> e in entries || e in returned)
    && (forall m :: m in restored ==> ReturnedFor(returned, m))
    && (forall e, m :: e in returned && m in Taken(e.subtree) ==> m in restored)
  }

  /** Neither blob nor index entry of those put back is left in the trash. */
  ghost predicate OutOfTrash(returned: seq<TrashEntry>, d: Disk, index: Index) {
    forall e :: e in returned ==> e.id !in index && Unused(d, e.id)
  }

  /** Whatever is new in the trash is there under an identifier not drawn before. */
  ghost predicate OnlyNew(was: Disk, wasIndex: Index, d: Disk, index: Index, next: nat) {
    && (forall k :: k in d.trash ==> k in was.trash || k.0 >= next)
    && (forall id :: id in index ==> id in wasIndex || id >= next)
  }

  lemma OutOfTrashOn(returned: seq<TrashEntry>, was: Disk, wasIndex: Index, d: Disk, index: Index, next: nat)
    requires OutOfTrash(returned, was, wasIndex) && OnlyNew(was, wasIndex, d, index, next)
    requires forall e :: e in returned ==> e.id < next
    ensures OutOfTrash(returned, d, index)
  {
  }

  /** The entries made since `mark` are all still there. */
  ghost predicate Grown(index: Index, later: Index, mark: nat) {
    forall id :: id in index && id >= mark ==> id in later && later[id] == index[id]
  }

  /** One more entry is returned, and its blob is at the path it came from. */
  ghost predicate Brings(before: seq<TrashEntry>, after: seq<TrashEntry>, was: Disk, now: Disk) {
    && |after| == |before| + 1 && before <= after
    && Back(was, now, after[|before|].id, after[|before|].original)
  }

  /** The entries older than the run are as they were. */
  ghost predicate Untouched(was: Index, index: Index, mark: nat) {
    forall id :: id in index && id < mark ==> id in was && was[id] == index[id]
  }

  ghost predicate Known(listed: seq<TrashEntry>, was: Index) {
    forall e :: e in listed ==> e.id in was && was[e.id] == e
  }

  // ── What a step is taken for ─────────────────────────────────────────────

  /** The step is part of undoing `op` on disk: it renames the file or trashes what is
      in its way, trashes the file of a metarecord again, or puts an entry that took
      the metarecord back where it was. */
  ghost predicate Serves(op: RevertOp, s: Step, records: Records, root: Path, was: Index) {
    match op.action
    case Move(from, to) => s == Renaming(from, to) || (s.Sending? && s.path == to)
    case TrashContent =>
      s.Sending? && HasPath(records, op.entity) && s.path == root + records[op.entity].path.value
    case RestoreContent =>
      && (s.Making? || s.Returning?)
      && s.id in was && Took(was[s.id], op.entity) && s.target == was[s.id].original
    case NoAction => false
  }

  ghost predicate ServesSince(
    op: RevertOp, before: seq<Step>, after: seq<Step>, records: Records, root: Path, was: Index)
  {
    before <= after && forall k :: |before| <= k < |after| ==> Serves(op, after[k], records, root, was)
  }

  lemma SendingServes(
    op: RevertOp, before: seq<Step>, after: seq<Step>, id: nat, records: Records, root: Path, was: Index)
    requires op.action.TrashContent? && HasPath(records, op.entity)
    requires Sends(before, after, FileOf(records, root, op.entity), id)
    ensures ServesSince(op, before, after, records, root, was)
  {
  }

  ghost predicate Served(ops: seq<RevertOp>, s: Step, records: Records, root: Path, was: Index) {
    exists op :: op in ops && Serves(op, s, records, root, was)
  }

  /** Every step is part of undoing one of the operations. */
  ghost predicate AllServed(ops: seq<RevertOp>, steps: seq<Step>, records: Records, root: Path, was: Index) {
    forall k :: 0 <= k < |steps| ==> Served(ops, steps[k], records, root, was)
  }

  lemma AllServedOn(
    ops: seq<RevertOp>, op: RevertOp, before: seq<Step>, after: seq<Step>, records: Records, root: Path, was: Index)
    requires AllServed(ops, before, records, root, was) && op in ops
    requires ServesSince(op, before, after, records, root, was)
    ensures AllServed(ops, after, records, root, was)
  {
    forall k | 0 <= k < |after| ensures Served(ops, after[k], records, root, was) {
      if k < |before| {
        assert after[k] == before[k] && Served(ops, before[k], records, root, was);
      } else {
        assert Serves(op, after[k], records, root, was);
      }
    }
  }

  // ── The decisions ────────────────────────────────────────────────────────

  /** The identifiers of the operations kept, of those decided. */
  function KeptIds(ops: seq<RevertOp>, keep: seq<bool>): seq<int>
    requires |keep| <= |ops|
  {
    if keep == [] then []
    else
      var n := |keep| - 1;
      KeptIds(ops, keep[..n]) + if keep[n] && ops[n].id.Some? then [ops[n].id.value] else []
  }

  /** Exactly the operations kept are named. */
  ghost predicate NamesKept(ops: seq<RevertOp>, keep: seq<bool>, apply: seq<int>)
    requires |keep| <= |ops|
  {
    && (forall i :: 0 <= i < |keep| && keep[i] && ops[i].id.Some? ==> ops[i].id.value in apply)
    && (forall id :: id in apply ==> exists i :: 0 <= i < |keep| && keep[i] && ops[i].id == Some(id))
  }

  lemma {:induction false} KeptIdsName(ops: seq<RevertOp>, keep: seq<bool>)
    requires |keep| <= |ops|
    ensures NamesKept(ops, keep, KeptIds(ops, keep))
  {
    if keep != [] {
      var n := |keep| - 1;
      KeptIdsName(ops, keep[..n]);
      forall i | 0 <= i < |keep| && keep[i] && ops[i].id.Some? ensures ops[i].id.value in KeptIds(ops, keep) {
        assert i < n ==> keep[..n][i] == keep[i];
      }
      forall id | id in KeptIds(ops, keep) ensures exists i :: 0 <= i < |keep| && keep[i] && ops[i].id == Some(id) {
        if id in KeptIds(ops, keep[..n]) {
          var i :| 0 <= i < n && keep[..n][i] && ops[i].id == Some(id);
          assert keep[i];
        }
      }
    }
  }

  /** What was done in a run so far: the steps from the first disk, the entries listed
      at the start, those put back, and those whose putting back failed. */
  datatype Past = Past(
    first: Disk, steps: seq<Step>, listed: seq<TrashEntry>, returned: seq<TrashEntry>, failed: set<nat>)

  ghost predicate Later(h: Past, h': Past) {
    && h'.first == h.first && h'.listed == h.listed
    && h.steps <= h'.steps && h.returned <= h'.returned && h.failed <= h'.failed
  }

  /** At step `k` of the run the file was moved, or there was none to move, and the
      policies let that be done. */
  ghost predicate MovedAt(h: Past, from: Path, to: Path, policies: Policies, k: nat)
    requires k <= |h.steps|
  {
    if from in At(h.first, h.steps, k).tree then
      && (policies.onAvailable == Apply || policies.onAvailable == Ask)
      && k < |h.steps| && h.steps[k] == Renaming(from, to)
    else policies.onUnavailable == Apply || policies.onUnavailable == Ask
  }

  ghost predicate Moved(h: Past, from: Path, to: Path, policies: Policies) {
    exists k :: 0 <= k <= |h.steps| && MovedAt(h, from, to, policies, k)
  }

  /** At step `k` of the run the policies let the file be left, or a directory was in
      its way. */
  ghost predicate LeftAt(h: Past, from: Path, to: Path, policies: Policies, k: nat)
    requires k <= |h.steps|
  {
    var tree := At(h.first, h.steps, k).tree;
    if from in tree then
      || policies.onAvailable == Skip || policies.onAvailable == Ask
      || (policies.onAvailable == Apply && to in tree && tree[to].Dir?)
    else policies.onUnavailable == Skip || policies.onUnavailable == Ask
  }

  ghost predicate Left(h: Past, from: Path, to: Path, policies: Policies) {
    exists k :: 0 <= k <= |h.steps| && LeftAt(h, from, to, policies, k)
  }

  /** When `n` entries were back none of their subtrees had taken the metarecord, and
      of the others listed none held the content, or putting one back failed. */
  ghost predicate MissedAt(h: Past, op: RevertOp, n: nat)
    requires n <= |h.returned|
  {
    && (forall e :: e in h.returned[..n] ==> !TookBelow(e, op.entity))
    && ((forall e :: e in h.listed && WantedBy(e, op) ==> e in h.returned[..n])
        || exists e :: e in h.listed && WantedBy(e, op) && e.id in h.failed)
  }

  ghost predicate Missed(h: Past, op: RevertOp) {
    exists n :: 0 <= n <= |h.returned| && MissedAt(h, op, n)
  }

  lemma MovedOn(h: Past, h': Past, from: Path, to: Path, policies: Policies)
    requires Later(h, h')
    ensures Moved(h, from, to, policies) ==> Moved(h', from, to, policies)
    ensures Left(h, from, to, policies) ==> Left(h', from, to, policies)
  {
    if k :| 0 <= k <= |h.steps| && MovedAt(h, from, to, policies, k) {
      AtEarlier(h.first, h.steps, h'.steps, k);
      assert MovedAt(h', from, to, policies, k);
    }
    if k :| 0 <= k <= |h.steps| && LeftAt(h, from, to, policies, k) {
      AtEarlier(h.first, h.steps, h'.steps, k);
      assert LeftAt(h', from, to, policies, k);
    }
  }

  lemma MissedOn(h: Past, h': Past, op: RevertOp)
    requires Later(h, h') && Missed(h, op)
    ensures Missed(h', op)
  {
    var n :| 0 <= n <= |h.returned| && MissedAt(h, op, n);
    assert h'.returned[..n] == h.returned[..n];
    assert MissedAt(h', op, n);
  }

  /** One operation was decided with warrant. One that moves a file is kept only if it
      was moved or was not there, and left out only if a policy or a directory had it
      left; one needing content is kept only if a blob that took it is back, and left
      out only if it was missed; any other is kept. */
  ghost predicate Warranted(op: RevertOp, keep: bool, policies: Policies, h: Past) {
    match op.action
    case Move(from, to) =>
      (keep ==> Moved(h, from, to, policies)) && (!keep && op.id.Some? ==> Left(h, from, to, policies))
    case RestoreContent =>
      (keep ==> ReturnedFor(h.returned, op.entity)) && (!keep && op.id.Some? ==> Missed(h, op))
    case _ => keep || op.id.None?
  }

  lemma WarrantedOn(op: RevertOp, keep: bool, policies: Policies, h: Past, h': Past)
    requires Warranted(op, keep, policies, h) && Later(h, h')
    ensures Warranted(op, keep, policies, h')
  {
    match op.action
    case Move(from, to) =>
      MovedOn(h, h', from, to, policies);
    case RestoreContent =>
      if keep {
        var e :| e in h.returned && Took(e, op.entity);
        assert e in h'.returned;
      } else if op.id.Some? {
        MissedOn(h, h', op);
      }
    case _ =>
  }

  /** The operations decided so far were decided with warrant. */
  ghost predicate Judged(ops: seq<RevertOp>, keep: seq<bool>, policies: Policies, h: Past) {
    |keep| <= |ops| && forall i :: 0 <= i < |keep| ==> Warranted(ops[i], keep[i], policies, h)
  }

  lemma JudgedNext(ops: seq<RevertOp>, keep: seq<bool>, policies: Policies, h: Past, h': Past, kept: bool)
    requires Judged(ops, keep, policies, h) && Later(h, h') && |keep| < |ops|
    requires Warranted(ops[|keep|], kept, policies, h')
    ensures Judged(ops, keep + [kept], policies, h')
    ensures KeptIds(ops, keep + [kept])
      == KeptIds(ops, keep) + (if kept && ops[|keep|].id.Some? then [ops[|keep|].id.value] else [])
  {
    assert (keep + [kept])[..|keep|] == keep;
    forall i | 0 <= i < |keep| ensures Warranted(ops[i], keep[i], policies, h') {
      WarrantedOn(ops[i], keep[i], policies, h, h');
    }
  }

  /** Every entry put back was wanted by an operation of the plan. */
  ghost predicate AllWanted(ops: seq<RevertOp>, returned: seq<TrashEntry>) {
    forall e :: e in returned ==> Wanted(ops, e)
  }

  ghost predicate Wanted(ops: seq<RevertOp>, e: TrashEntry) {
    exists op :: op in ops && WantedBy(e, op)
  }

  /** What one more operation puts back it wants. */
  ghost predicate WantsNew(op: RevertOp, before: seq<TrashEntry>, after: seq<TrashEntry>) {
    after == before || (|after| == |before| + 1 && before <= after && WantedBy(after[|before|], op))
  }

  lemma AllWantedOn(ops: seq<RevertOp>, op: RevertOp, before: seq<TrashEntry>, after: seq<TrashEntry>)
    requires AllWanted(ops, before) && op in ops && WantsNew(op, before, after)
    ensures AllWanted(ops, after)
  {
    forall e | e in after ensures Wanted(ops, e) {
      if e in before {
        assert Wanted(ops, e);
      } else {
        assert e == after[|before|];
      }
    }
  }

  // ── The trashings to redo ────────────────────────────────────────────────

  /** A metarecord as the daemon answers it while it holds the lock: its version,
      the path of its file, and the nodes a capture of it lists. */
  datatype Record = Record(version: Option<nat>, path: Option<Path>, nodes: seq<TrashedNode>)

  type Records = map<string, Record>

  predicate HasPath(records: Records, entity: string) {
    entity in records && records[entity].path.Some?
  }

  function FileOf(records: Records, root: Path, entity: string): Path
    requires HasPath(records, entity)
  {
    root + records[entity].path.value
  }

  predicate HasFile(records: Records, root: Path, tree: map<Path, Node>, entity: string) {
    HasPath(records, entity) && FileOf(records, root, entity) in tree
  }

  /** The number of slashes in the path of a metarecord, one before each name
      below the root; 0 without a path. */
  function DepthOf(records: Records, entity: string): nat {
    if HasPath(records, entity) then |records[entity].path.value| else 0
  }

  type Trashing = (nat, RevertOp)

  predicate NoDeeper(a: Trashing, b: Trashing) {
    a.0 <= b.0
  }

  /** The trashings by depth, shallowest first. */
  function ByDepth(ops: seq<Trashing>): seq<Trashing> {
    Sorting.SortBy(ops, NoDeeper)
  }

  /** The same trashings, shallowest first. */
  lemma ByDepthSorts(ops: seq<Trashing>)
    ensures multiset(ByDepth(ops)) == multiset(ops) && Sorting.Sorted(ByDepth(ops), NoDeeper)
  {
    Sorting.SortKeeps(ops, NoDeeper);
    Sorting.SortSorts(ops, NoDeeper);
  }

  /** `s` lists `op` at the depth of its file. */
  ghost predicate Plans(s: seq<Trashing>, op: RevertOp) {
    exists k :: 0 <= k < |s| && s[k].1 == op
  }

  ghost predicate DepthsAre(s: seq<Trashing>, records: Records) {
    forall k :: 0 <= k < |s| ==> s[k].0 == DepthOf(records, s[k].1.entity)
  }

  lemma PlansSame(s: seq<Trashing>, t: seq<Trashing>, op: RevertOp)
    requires multiset(s) == multiset(t)
    ensures Plans(s, op) ==> Plans(t, op)
  {
    if k :| 0 <= k < |s| && s[k].1 == op {
      assert s[k] in multiset(t);
      var j :| 0 <= j < |t| && t[j] == s[k];
    }
  }

  lemma DepthsSame(s: seq<Trashing>, t: seq<Trashing>, records: Records)
    requires multiset(s) == multiset(t) && DepthsAre(s, records)
    ensures DepthsAre(t, records)
  {
    forall k | 0 <= k < |t| ensures t[k].0 == DepthOf(records, t[k].1.entity) {
      assert t[k] in multiset(s);
    }
  }

  lemma PlansMore(found: seq<Trashing>, x: Trashing)
    ensures forall op :: Plans(found + [x], op) <==> (Plans(found, op) || op == x.1)
  {
    var more := found + [x];
    assert more[|found|] == x;
    forall op | Plans(found, op) ensures Plans(more, op) {
      var k :| 0 <= k < |found| && found[k].1 == op;
      assert more[k].1 == op;
    }
  }

  /** An entry made since `mark` took the metarecord. */
  ghost predicate Recorded(index: Index, mark: nat, entity: string) {
    exists id :: id in index && id >= mark && Took(index[id], entity)
  }

  /** An entry made since `mark` took everything at or below a path above `q`. */
  ghost predicate Sent(index: Index, mark: nat, q: Path) {
    exists id :: id in index && id >= mark && index[id].original <= q
  }

  /** A trashing was redone: its file was not there in the first place, or it went
      into an entry of this run. */
  ghost predicate Redone(records: Records, root: Path, tree: map<Path, Node>, index: Index, mark: nat, entity: string) {
    HasFile(records, root, tree, entity) ==>
      Recorded(index, mark, entity) || Sent(index, mark, FileOf(records, root, entity))
  }

  lemma RedoneOn(
    records: Records, root: Path, tree: map<Path, Node>, index: Index, later: Index, mark: nat, entity: string)
    requires Redone(records, root, tree, index, mark, entity) && Grown(index, later, mark)
    ensures Redone(records, root, tree, later, mark, entity)
  {
    if HasFile(records, root, tree, entity) {
      if id :| id in index && id >= mark && Took(index[id], entity) {
        assert id in later && Took(later[id], entity);
      } else {
        var id :| id in index && id >= mark && index[id].original <= FileOf(records, root, entity);
        assert id in later && later[id].original <= FileOf(records, root, entity);
      }
    }
  }

  /** A capture lists exactly what lies at or below its metarecord's file. */
  ghost predicate Captures(records: Records) {
    forall d, e :: HasPath(records, d) && HasPath(records, e) ==>
      (e in Taken(records[d].nodes) <==> records[d].path.value <= records[e].path.value)
  }

  /** No entry made since `mark` lies inside another. */
  ghost predicate Unnested(index: Index, mark: nat) {
    forall a, b :: a in index && b in index && mark <= a && mark <= b && a != b ==>
      !(index[a].original <= index[b].original)
  }

  /** An entry as a redone trashing makes it. */
  ghost predicate MadeFor(records: Records, root: Path, covered: set<string>, entry: TrashEntry, deepest: nat) {
    && entry.metarecord.Some? && HasPath(records, entry.metarecord.value)
    && entry.original == FileOf(records, root, entry.metarecord.value)
    && entry.subtree == records[entry.metarecord.value].nodes
    && DepthOf(records, entry.metarecord.value) <= deepest
    && entry.metarecord.value in covered && Taken(entry.subtree) <= covered
  }

  ghost predicate AllRecorded(index: Index, mark: nat, covered: set<string>) {
    forall e :: e in covered ==> Recorded(index, mark, e)
  }

  ghost predicate AllSent(tree: map<Path, Node>, now: map<Path, Node>, index: Index, mark: nat) {
    forall q :: q in tree && q !in now ==> Sent(index, mark, q)
  }

  ghost predicate AllMade(records: Records, root: Path, index: Index, mark: nat, covered: set<string>, deepest: nat) {
    forall id :: id in index && id >= mark ==> MadeFor(records, root, covered, index[id], deepest)
  }

  /** Nothing is left at or below the path of an entry made since `mark`. */
  ghost predicate Cleared(now: map<Path, Node>, index: Index, mark: nat) {
    forall id, q :: id in index && id >= mark && q in now ==> !(index[id].original <= q)
  }

  /** The redone trashings so far: what they cover is in their entries, and only
      what lies below their paths is gone from the tree. */
  ghost predicate Sweep(
    records: Records, root: Path, tree: map<Path, Node>, now: map<Path, Node>, index: Index, mark: nat,
    covered: set<string>, deepest: nat)
  {
    && Extends(now, tree)
    && AllRecorded(index, mark, covered)
    && AllSent(tree, now, index, mark)
    && AllMade(records, root, index, mark, covered, deepest)
    && Cleared(now, index, mark)
    && (Captures(records) ==> Unnested(index, mark))
  }

  lemma MadeDeeper(
    records: Records, root: Path, index: Index, mark: nat, covered: set<string>, deepest: nat, deeper: nat)
    requires AllMade(records, root, index, mark, covered, deepest) && deepest <= deeper
    ensures AllMade(records, root, index, mark, covered, deeper)
  {
  }

  lemma PrefixUnderRoot(root: Path, p: Path, q: Path)
    ensures root + p <= root + q <==> p <= q
  {
    assert (root + p)[|root|..] == p && (root + q)[|root|..] == q;
    if p <= q {
      assert root + q == root + p + q[|p|..];
    }
  }

  /** A metarecord not covered yet lies below no entry made for another. */
  lemma NotBelow(records: Records, root: Path, covered: set<string>, entry: TrashEntry, deepest: nat, e: string)
    requires Captures(records) && HasPath(records, e) && DepthOf(records, e) >= deepest
    requires MadeFor(records, root, covered, entry, deepest)
    ensures entry.original <= FileOf(records, root, e) ==> e in covered
    ensures FileOf(records, root, e) <= entry.original ==> e in covered
  {
    var p, q := records[entry.metarecord.value].path.value, records[e].path.value;
    PrefixUnderRoot(root, p, q);
    PrefixUnderRoot(root, q, p);
    assert q <= p && |p| <= |q| ==> p == q;
  }

  function EntryFor(records: Records, root: Path, e: string, id: nat): TrashEntry
    requires HasPath(records, e)
  {
    TrashEntry(id, FileOf(records, root, e), Some(e), records[e].version, records[e].nodes)
  }

  lemma RecordedNext(index: Index, mark: nat, covered: set<string>, entry: TrashEntry, e: string)
    requires AllRecorded(index, mark, covered) && entry.id >= mark && entry.id !in index
    requires entry.metarecord == Some(e)
    ensures AllRecorded(index[entry.id := entry], mark, covered + {e} + Taken(entry.subtree))
  {
    var later := index[entry.id := entry];
    forall x | x in covered + {e} + Taken(entry.subtree) ensures Recorded(later, mark, x) {
      if x in covered {
        var a :| a in index && a >= mark && Took(index[a], x);
        assert a in later && Took(later[a], x);
      } else {
        assert entry.id in later && Took(later[entry.id], x);
      }
    }
  }

  lemma SentNext(tree: map<Path, Node>, now: map<Path, Node>, index: Index, mark: nat, entry: TrashEntry)
    requires AllSent(tree, now, index, mark) && entry.id >= mark && entry.id !in index
    ensures AllSent(tree, now - Under(now, entry.original), index[entry.id := entry], mark)
  {
    var later := index[entry.id := entry];
    forall q | q in tree && q !in now - Under(now, entry.original) ensures Sent(later, mark, q) {
      if q in now {
        assert entry.id in later && later[entry.id].original <= q;
      } else {
        var a :| a in index && a >= mark && index[a].original <= q;
        assert a in later && later[a].original <= q;
      }
    }
  }

  lemma UnnestedNext(
    records: Records, root: Path, index: Index, mark: nat, covered: set<string>, deepest: nat, e: string,
    entry: TrashEntry)
    requires AllMade(records, root, index, mark, covered, deepest) && Captures(records) && Unnested(index, mark)
    requires HasPath(records, e) && DepthOf(records, e) >= deepest && e !in covered
    requires entry.original == FileOf(records, root, e)
    ensures Unnested(index[entry.id := entry], mark)
  {
    forall a | a in index && a >= mark
      ensures !(index[a].original <= entry.original) && !(entry.original <= index[a].original)
    {
      NotBelow(records, root, covered, index[a], deepest, e);
    }
  }

  lemma MadeNext(
    records: Records, root: Path, index: Index, mark: nat, covered: set<string>, deepest: nat, e: string, id: nat)
    requires AllMade(records, root, index, mark, covered, deepest)
    requires HasPath(records, e) && DepthOf(records, e) >= deepest
    ensures AllMade(records, root, index[id := EntryFor(records, root, e, id)], mark,
                    covered + {e} + Taken(records[e].nodes), DepthOf(records, e))
  {
    var all := covered + {e} + Taken(records[e].nodes);
    forall a | a in index && a >= mark ensures MadeFor(records, root, all, index[a], DepthOf(records, e)) {
      assert MadeFor(records, root, covered, index[a], deepest);
    }
    assert MadeFor(records, root, all, EntryFor(records, root, e, id), DepthOf(records, e));
  }

  lemma ClearedNext(tree: map<Path, Node>, now: map<Path, Node>, index: Index, mark: nat, id: nat, entry: TrashEntry)
    requires Cleared(now, index, mark) && Extends(now, tree)
    ensures Cleared(now - Under(now, entry.original), index[id := entry], mark)
    ensures Extends(now - Under(now, entry.original), tree)
  {
  }

  lemma SweepNext(
    records: Records, root: Path, tree: map<Path, Node>, now: map<Path, Node>, index: Index, mark: nat,
    covered: set<string>, deepest: nat, e: string, id: nat)
    requires Sweep(records, root, tree, now, index, mark, covered, deepest)
    requires HasPath(records, e) && DepthOf(records, e) >= deepest && e !in covered
    requires id >= mark && id !in index
    ensures
      var entry := EntryFor(records, root, e, id);
      Sweep(records, root, tree, now - Under(now, entry.original), index[id := entry], mark,
            covered + {e} + Taken(records[e].nodes), DepthOf(records, e))
  {
    var entry := EntryFor(records, root, e, id);
    RecordedNext(index, mark, covered, entry, e);
    SentNext(tree, now, index, mark, entry);
    MadeNext(records, root, index, mark, covered, deepest, e, id);
    ClearedNext(tree, now, index, mark, id, entry);
    if Captures(records) {
      UnnestedNext(records, root, index, mark, covered, deepest, e, entry);
    }
  }

  /** Where captures are exact, nothing covered has a file left. */
  lemma CoveredIsGone(
    records: Records, root: Path, now: map<Path, Node>, index: Index, mark: nat, covered: set<string>, deepest: nat,
    e: string)
    requires AllRecorded(index, mark, covered) && AllMade(records, root, index, mark, covered, deepest)
    requires Cleared(now, index, mark) && Captures(records) && e in covered
    ensures !HasFile(records, root, now, e)
  {
    if HasFile(records, root, now, e) {
      assert Recorded(index, mark, e);
      var id :| id in index && id >= mark && Took(index[id], e);
      TookIsBelow(records, root, covered, index[id], deepest, e);
    }
  }

  /** Where captures are exact, what an entry took lies below its path. */
  lemma TookIsBelow(records: Records, root: Path, covered: set<string>, entry: TrashEntry, deepest: nat, e: string)
    requires MadeFor(records, root, covered, entry, deepest) && Took(entry, e)
    requires Captures(records) && HasPath(records, e)
    ensures entry.original <= FileOf(records, root, e)
  {
    var m := entry.metarecord.value;
    assert e == m || e in Taken(records[m].nodes);
    PrefixUnderRoot(root, records[m].path.value, records[e].path.value);
  }

  /** What a commit may ask for: every decision is warranted by what was done; the
      entries put back were in the trash at the start, each was put back once and for
      an operation that wanted it, and every trashing was redone. */
  ghost predicate Deserved(
    ops: seq<RevertOp>, keep: seq<bool>, apply: seq<int>, policies: Policies, h: Past, was: Index,
    records: Records, root: Path, index: Index, mark: nat)
  {
    && |keep| == |ops| && apply == KeptIds(ops, keep) && NamesKept(ops, keep, apply)
    && Judged(ops, keep, policies, h)
    && DistinctIds(h.returned)
    && (forall e :: e in h.returned ==> e.id in was && was[e.id] == e)
    && AllWanted(ops, h.returned)
    && AllRedone(ops, records, root, h.first.tree, index, mark)
  }

  lemma ListedWere(returned: seq<TrashEntry>, listed: seq<TrashEntry>, was: Index)
    requires forall e :: e in returned ==> e in listed
    requires Known(listed, was)
    ensures forall e :: e in returned ==> e.id in was && was[e.id] == e
  {
  }

  ghost predicate AllRedone(
    ops: seq<RevertOp>, records: Records, root: Path, tree: map<Path, Node>, index: Index, mark: nat)
  {
    forall op :: op in ops && op.action.TrashContent? ==> Redone(records, root, tree, index, mark, op.entity)
  }

  lemma AllRedoneOn(
    ops: seq<RevertOp>, records: Records, root: Path, tree: map<Path, Node>, index: Index, later: Index, mark: nat)
    requires AllRedone(ops, records, root, tree, index, mark) && Grown(index, later, mark)
    ensures AllRedone(ops, records, root, tree, later, mark)
  {
    forall op | op in ops && op.action.TrashContent? ensures Redone(records, root, tree, later, mark, op.entity) {
      RedoneOn(records, root, tree, index, later, mark, op.entity);
    }
  }

  // ── Small facts about the disk ───────────────────────────────────────────

  /** What was at `to` is in the trash, and what was at `from` is at `to`. */
  ghost predicate Overwrites(was: Disk, next: nat, from: Path, to: Path, d: Disk, index: Index) {
    && d == Renamed(if to in was.tree then Trashed(was, to, next) else was, from, to)
    && (to in was.tree ==> next in index && index[next].original == to)
  }

  lemma TrashedTree(d: Disk, p: Path, id: nat)
    ensures Trashed(d, p, id).tree == d.tree - Under(d.tree, p)
  {
    PartIsUnder(d.tree, p);
  }

  /** What is looked for is what holds the content. */
  lemma CoversHolds(e: TrashEntry, op: RevertOp, byMetarecordOnly: bool)
    ensures Covers(e, op, byMetarecordOnly) <==> HoldsContent(e, op, byMetarecordOnly)
  {
  }

  /** The entry is in the index and its blob can be put back where it was. */
  ghost predicate Restorable(d: Disk, index: Index, e: TrashEntry) {
    e.id in index && CanRestore(d, e.id, e.original)
  }

  /** A file can be moved once what is at its destination is in the trash. */
  predicate CanMove(d: Disk, from: Path, to: Path) {
    && from in d.tree && !(to <= from) && !(from <= to)
    && (to in d.tree || Under(d.tree, to) == {})
  }

  /** What stops a move where nothing is faulty: the policy, the user, or a file that
      cannot be renamed. */
  predicate MoveRefused(d: Disk, from: Path, to: Path, policies: Policies) {
    if from in d.tree then policies.onAvailable == Abort || policies.onAvailable == Ask || !CanMove(d, from, to)
    else policies.onUnavailable == Abort || policies.onUnavailable == Ask
  }

  /** Some move of the plan was refused when it was decided. */
  ghost predicate SomeRefused(ops: seq<RevertOp>, policies: Policies, h: Past) {
    exists op, k :: op in ops && op.action.Move? && 0 <= k <= |h.steps|
      && MoveRefused(At(h.first, h.steps, k), op.action.from, op.action.to, policies)
  }

  lemma TrashedFrees(d: Disk, from: Path, to: Path, id: nat)
    ensures Under(Trashed(d, to, id).tree, to) == {}
    ensures from in Trashed(d, to, id).tree <==> from in d.tree && !(to <= from)
  {
    TrashedTree(d, to, id);
  }

  /** The first of the entries that holds the content. */
  ghost predicate FirstHolding(entries: seq<TrashEntry>, op: RevertOp, anyVersion: bool, pos: nat) {
    && pos < |entries| && HoldsContent(entries[pos], op, anyVersion)
    && forall i :: 0 <= i < pos ==> !HoldsContent(entries[i], op, anyVersion)
  }

  lemma PositionHolds(entries: seq<TrashEntry>, op: RevertOp, byMetarecordOnly: bool)
    ensures
      match Position(entries, op, byMetarecordOnly)
      case Some(pos) => FirstHolding(entries, op, byMetarecordOnly, pos)
      case None => forall e :: e in entries ==> !HoldsContent(e, op, byMetarecordOnly)
  {
    forall i | 0 <= i < |entries|
      ensures Covers(entries[i], op, byMetarecordOnly) <==> HoldsContent(entries[i], op, byMetarecordOnly)
    {
      CoversHolds(entries[i], op, byMetarecordOnly);
    }
  }

  lemma AccountedNext(
    entries: seq<TrashEntry>, returned: seq<TrashEntry>, listed: seq<TrashEntry>, restored: set<string>, mark: nat,
    pos: nat, entity: string)
    requires Accounted(entries, returned, listed, restored, mark) && pos < |entries| && Took(entries[pos], entity)
    ensures Accounted(entries[..pos] + entries[pos + 1..], returned + [entries[pos]], listed,
                      restored + Taken(entries[pos].subtree) + {entity}, mark)
  {
    var more := returned + [entries[pos]];
    forall e | e in listed ensures e in entries[..pos] + entries[pos + 1..] || e in more {
      assert e in entries ==> e in entries[..pos] || e == entries[pos] || e in entries[pos + 1..];
    }
    forall m | m in restored + Taken(entries[pos].subtree) + {entity} ensures ReturnedFor(more, m) {
      if m in restored {
        var e :| e in returned && Took(e, m);
        assert e in more;
      } else {
        assert entries[pos] in more && Took(entries[pos], m);
      }
    }
  }

  /** What a sweep covers, or has no file for any more, was redone. */
  lemma SweptIsRedone(
    records: Records, root: Path, tree: map<Path, Node>, now: map<Path, Node>, index: Index, mark: nat,
    covered: set<string>, deepest: nat, e: string)
    requires Sweep(records, root, tree, now, index, mark, covered, deepest)
    requires e in covered || !HasFile(records, root, now, e)
    ensures Redone(records, root, tree, index, mark, e)
    ensures Captures(records) ==> !HasFile(records, root, now, e)
  {
    if e in covered && Captures(records) {
      CoveredIsGone(records, root, now, index, mark, covered, deepest, e);
    }
  }

  /** The trashing was redone, and where captures are exact its file is gone. */
  ghost predicate Done(
    records: Records, root: Path, tree: map<Path, Node>, now: map<Path, Node>, index: Index, mark: nat, e: string)
  {
    && Redone(records, root, tree, index, mark, e)
    && (Captures(records) ==> !HasFile(records, root, now, e))
  }

  lemma DoneOn(
    records: Records, root: Path, tree: map<Path, Node>, was: map<Path, Node>, now: map<Path, Node>,
    index: Index, later: Index, mark: nat, e: string)
    requires Done(records, root, tree, was, index, mark, e) && Grown(index, later, mark) && Extends(now, was)
    ensures Done(records, root, tree, now, later, mark, e)
  {
    RedoneOn(records, root, tree, index, later, mark, e);
  }

  /** The first `n` trashings are done. */
  ghost predicate DoneFor(
    s: seq<Trashing>, n: nat, records: Records, root: Path, tree: map<Path, Node>, now: map<Path, Node>, index: Index,
    mark: nat)
  {
    n <= |s| && forall k :: 0 <= k < n ==> Done(records, root, tree, now, index, mark, s[k].1.entity)
  }

  lemma DoneForNext(
    s: seq<Trashing>, n: nat, records: Records, root: Path, tree: map<Path, Node>, was: map<Path, Node>,
    now: map<Path, Node>, index: Index, later: Index, mark: nat)
    requires DoneFor(s, n, records, root, tree, was, index, mark) && Grown(index, later, mark) && Extends(now, was)
    requires n < |s| && Done(records, root, tree, now, later, mark, s[n].1.entity)
    ensures DoneFor(s, n + 1, records, root, tree, now, later, mark)
  {
    forall k | 0 <= k < n ensures Done(records, root, tree, now, later, mark, s[k].1.entity) {
      DoneOn(records, root, tree, was, now, index, later, mark, s[k].1.entity);
    }
  }

  /** A sweep over all trashings of the operations redoes each of them. */
  lemma DoneForAll(
    ops: seq<RevertOp>, s: seq<Trashing>, records: Records, root: Path, tree: map<Path, Node>, now: map<Path, Node>,
    index: Index, mark: nat)
    requires DoneFor(s, |s|, records, root, tree, now, index, mark)
    requires forall op :: op in ops && op.action.TrashContent? ==> Plans(s, op)
    ensures AllRedone(ops, records, root, tree, index, mark)
    ensures Captures(records) ==>
      forall op :: op in ops && op.action.TrashContent? ==> !HasFile(records, root, now, op.entity)
  {
    forall op | op in ops && op.action.TrashContent? ensures Done(records, root, tree, now, index, mark, op.entity) {
      var k :| 0 <= k < |s| && s[k].1 == op;
    }
  }

  /** A trashing of a sweep that changed nothing: it was covered or had no file. */
  lemma SweepStays(
    records: Records, root: Path, tree: map<Path, Node>, now: map<Path, Node>, index: Index, mark: nat,
    covered: set<string>, deepest: nat, e: string)
    requires Sweep(records, root, tree, now, index, mark, covered, deepest) && deepest <= DepthOf(records, e)
    requires e in covered || !HasFile(records, root, now, e)
    ensures Sweep(records, root, tree, now, index, mark, covered, DepthOf(records, e))
    ensures Done(records, root, tree, now, index, mark, e)
  {
    MadeDeeper(records, root, index, mark, covered, deepest, DepthOf(records, e));
    SweptIsRedone(records, root, tree, now, index, mark, covered, DepthOf(records, e), e);
  }

  /** A trashing of a sweep that sent its file. */
  lemma SweepSends(
    records: Records, root: Path, tree: map<Path, Node>, was: map<Path, Node>, now: map<Path, Node>, index: Index,
    mark: nat, covered: set<string>, deepest: nat, e: string, id: nat)
    requires Sweep(records, root, tree, was, index, mark, covered, deepest) && deepest <= DepthOf(records, e)
    requires HasPath(records, e) && e !in covered && id >= mark && id !in index
    requires now == was - Under(was, FileOf(records, root, e))
    ensures
      var later, all := index[id := EntryFor(records, root, e, id)], covered + {e} + Taken(records[e].nodes);
      && Sweep(records, root, tree, now, later, mark, all, DepthOf(records, e))
      && Done(records, root, tree, now, later, mark, e)
  {
    var later, all := index[id := EntryFor(records, root, e, id)], covered + {e} + Taken(records[e].nodes);
    SweepNext(records, root, tree, was, index, mark, covered, deepest, e, id);
    SweptIsRedone(records, root, tree, now, later, mark, all, DepthOf(records, e), e);
  }

  lemma EntryAdded(index: Index, mark: nat, id: nat, entry: TrashEntry)
    requires id !in index
    ensures Grown(index, index[id := entry], mark)
  {
  }

  lemma EntryReplaced(index: Index, id: nat, a: TrashEntry, b: TrashEntry)
    ensures index[id := a][id := b] == index[id := b]
  {
  }

  lemma TrashOnlyNew(was: Disk, d: Disk, path: Path, id: nat, index: Index, entry: TrashEntry)
    requires OnlyBelow(was, d, path, id)
    ensures OnlyNew(was, index, d, index, id) && OnlyNew(was, index, d, index[id := entry], id)
  {
  }

  /** At the start of a run everything listed may still be put back. */
  lemma AccountedFresh(listing: seq<TrashEntry>, index: Index, next: nat)
    requires DistinctIds(listing) && (forall e :: e in listing ==> e.id in index && index[e.id] == e)
    requires forall id :: id in index ==> id < next
    ensures Accounted(listing, [], listing, {}, next)
  {
  }
}
