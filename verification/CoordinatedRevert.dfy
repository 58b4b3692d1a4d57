/**
 The client half of a coordinated revert: files moved between the tree and the
 trash between a `start` and a `commit` or an `abort`. What the disk, the daemon
 and the user answer is chosen freely at each step.
 */
module CoordinatedRevert {
  import opened Prelude
  import opened Disk
  import opened DiskSteps
  import Sorting
  import opened RevertProtocol
  import opened RevertPlan

  datatype Failure = Failure

  class Session {
    /** Tree and trash are on one filesystem: a move is a rename. */
    const oneDevice: bool
    /** The operating system, the index or the daemon may fail where nothing stands in
        the way. */
    const faulty: bool
    const root: Path
    /** The metarecords as the daemon holds them during the revert. */
    const records: Records

    var disk: Disk
    var index: Index
    var next: nat
    var entries: seq<TrashEntry>
    var restored: set<string>
    var covered: set<string>
    /** The daemon's lock. */
    var locked: bool
    /** Tree and trash at the start of the run, and each change made to them since. */
    ghost var first: Disk
    ghost var steps: seq<Step>
    /** The index at the start, the entries listed of it, the first identifier not drawn
        then, the entries put back so far, those whose putting back failed, and the calls
        made. */
    ghost var was: Index
    ghost var listed: seq<TrashEntry>
    ghost var mark: nat
    ghost var returned: seq<TrashEntry>
    ghost var failed: set<nat>
    ghost var calls: seq<Call>

    constructor (
      device: bool, faults: bool, base: Path, held: Records, d: Disk, indexed: Index, unused: nat, lock: bool)
      requires forall k :: k in d.trash ==> k.0 < unused
      requires forall id :: id in indexed ==> indexed[id].id == id && id < unused
      ensures Valid() && disk == d && index == indexed && next == unused && locked == lock
      ensures oneDevice == device && faulty == faults && root == base && records == held
      ensures calls == [] && returned == []
      ensures first == d && steps == []
    {
      oneDevice, faulty, root, records := device, faults, base, held;
      disk, index, next, locked := d, indexed, unused, lock;
      entries, restored, covered := [], {}, {};
      first, steps, was, listed, mark, returned, failed, calls := d, [], indexed, [], unused, [], {}, [];
      TracesNothing(device, d);
    }

    /** The steps taken account for the disk, and entries and blobs carry identifiers
        already drawn. */
    ghost predicate Files()
      reads this`disk, this`first, this`steps, this`index, this`next, this`mark, this`was
    {
      && Traces(oneDevice, first, steps, disk) && Drawn(disk, next) && Untouched(was, index, mark)
      && mark <= next && forall id :: id in index ==> index[id].id == id && id < next
    }

    ghost predicate Booked()
      reads this`entries, this`returned, this`listed, this`restored, this`mark, this`disk, this`index, this`was
    {
      && Accounted(entries, returned, listed, restored, mark) && OutOfTrash(returned, disk, index)
      && Known(listed, was)
    }

    ghost predicate Valid()
      reads this
    {
      Files() && Booked()
    }

    /** What was done in the run so far. */
    ghost function SoFar(): Past
      reads this
    {
      Past(first, steps, listed, returned, failed)
    }

    lemma KeepsValid(wasDisk: Disk, wasIndex: Index, wasNext: nat)
      requires Files() && OnlyNew(wasDisk, wasIndex, disk, index, wasNext) && mark <= wasNext
      requires Accounted(entries, returned, listed, restored, mark) && OutOfTrash(returned, wasDisk, wasIndex)
      requires Known(listed, was)
      ensures Valid()
    {
      OutOfTrashOn(returned, wasDisk, wasIndex, disk, index, wasNext);
    }

    /** Whether the operating system, the index or the daemon does as asked. */
    method Works() returns (ok: bool)
      ensures !faulty ==> ok
    {
      ok := *;
      if !faulty {
        ok := true;
      }
    }

    // ── Single file operations ─────────────────────────────────────────────

    /** Makes one change to tree and trash. */
    method Take(s: Step)
      requires Files() && CanTake(disk, s) && (s.Sending? ==> s.id < next) && (oneDevice ==> Whole(s))
      modifies this`disk, this`steps
      ensures Files() && disk == After(old(disk), s) && steps == old(steps) + [s]
    {
      TracesOn(oneDevice, first, steps, disk, s, next);
      disk, steps := After(disk, s), steps + [s];
    }

    /** Moves `path` to the blob `id`: a rename or, across filesystems, a copy and a
        removal, either of which can fail part-way. */
    method MoveOut(path: Path, id: nat) returns (ok: bool)
      requires Files() && Unused(disk, id) && id < next && path in disk.tree
      modifies this`disk, this`steps
      ensures Files() && OnlyBelow(old(disk), disk, path, id) && Sends(old(steps), steps, path, id)
      ensures ok ==> disk == Trashed(old(disk), path, id) && Cleanly(old(steps), steps)
      ensures !faulty ==> ok
    {
      ok := Works();
      if ok {
        CanSendWhole(disk, path, id);
        Take(Sending(path, id, Part(disk.tree, path), Below(disk.tree, path)));
      } else if !oneDevice {
        PartOut(path, id);
      }
    }

    /** A transfer into the trash that fails part-way. */
    method PartOut(path: Path, id: nat)
      requires Files() && Unused(disk, id) && id < next && path in disk.tree && !oneDevice
      modifies this`disk, this`steps
      ensures Files() && OnlyBelow(old(disk), disk, path, id) && Sends(old(steps), steps, path, id)
    {
      assert CanSend(disk, path, map[], {});
      var copies: map<Path, Node>, removed: set<Path> :| CanSend(disk, path, copies, removed);
      GoneOnlyBelow(disk, path, id, copies, removed);
      Take(Sending(path, id, copies, removed));
    }

    /** Moves `path` into a new trash entry; the blob is moved before the entry
        is recorded, so a failure to record only leaves it unlisted. */
    method TrashPath(path: Path, metarecord: Option<string>, version: Option<nat>)
      returns (r: Result<TrashEntry, Failure>)
      requires Files()
      modifies this`disk, this`index, this`next, this`steps
      ensures Files() && next >= old(next)
      ensures OnlyNew(old(disk), old(index), disk, index, old(next)) && Grown(old(index), index, mark)
      ensures OnlyBelow(old(disk), disk, path, old(next)) && Sends(old(steps), steps, path, old(next))
      ensures r.Ok? ==>
        && path in old(disk.tree) && disk == Trashed(old(disk), path, old(next))
        && r.value == TrashEntry(old(next), path, metarecord, version, [])
        && index == old(index)[old(next) := r.value]
      ensures r.Err? ==> index == old(index)
      ensures r.Ok? ==> Cleanly(old(steps), steps)
      ensures !faulty ==> (r.Ok? <==> path in old(disk.tree))
    {
      if path !in disk.tree {
        return Err(Failure);
      }
      var id := DrawId();
      var entry := TrashEntry(id, path, metarecord, version, []);
      var moved := MoveOut(path, id);
      TrashOnlyNew(old(disk), disk, path, id, index, entry);
      var recorded := Works();
      if !moved || !recorded {
        return Err(Failure);
      }
      Enter(entry);
      return Ok(entry);
    }

    /** Records an entry in the index. */
    method Enter(entry: TrashEntry)
      requires Files() && mark <= entry.id < next
      modifies this`index
      ensures Files() && index == old(index)[entry.id := entry]
    {
      index := index[entry.id := entry];
    }

    method DrawId() returns (id: nat)
      requires Files()
      modifies this`next
      ensures Files() && id == old(next) && next == id + 1 && Unused(disk, id) && id !in index
    {
      id := next;
      next := id + 1;
    }

    method TrashSafely(path: Path, metarecord: Option<string>, version: Option<nat>)
      returns (r: Result<TrashEntry, Failure>)
      requires Valid()
      modifies this`disk, this`index, this`next, this`steps
      ensures Valid() && Grown(old(index), index, mark)
      ensures r.Ok? ==>
        && path in old(disk.tree) && disk == Trashed(old(disk), path, old(next))
        && r.value == TrashEntry(old(next), path, metarecord, version, [])
        && index == old(index)[old(next) := r.value]
      ensures Sends(old(steps), steps, path, old(next))
      ensures r.Ok? ==> Cleanly(old(steps), steps)
      ensures !faulty ==> (r.Ok? <==> path in old(disk.tree))
    {
      r := TrashPath(path, metarecord, version);
      KeepsValid(old(disk), old(index), old(next));
    }

    // ── A move step ────────────────────────────────────────────────────────

    /** Frees the destination of a move: a file there goes to the trash. */
    method MakeWay(to: Path) returns (ok: bool)
      requires Valid()
      modifies this`disk, this`index, this`next, this`steps
      ensures Valid() && Grown(old(index), index, mark)
      ensures to !in old(disk.tree) ==> ok && disk == old(disk) && index == old(index)
      ensures ok && to in old(disk.tree) ==>
        disk == Trashed(old(disk), to, old(next)) && old(next) in index && index[old(next)].original == to
      ensures Sends(old(steps), steps, to, old(next))
      ensures ok ==> Cleanly(old(steps), steps)
      ensures !faulty ==> ok
    {
      if to !in disk.tree {
        return true;
      }
      var entry := TrashSafely(to, None, None);
      return entry.Ok?;
    }

    /** Renames a file onto a free path. */
    method RenameFree(from: Path, to: Path) returns (ok: bool)
      requires Valid() && Under(disk.tree, to) == {}
      modifies this`disk, this`steps
      ensures Valid()
      ensures !ok ==> disk == old(disk) && steps == old(steps)
      ensures ok ==> disk == Renamed(old(disk), from, to) && steps == old(steps) + [Renaming(from, to)]
      ensures !faulty ==> (ok <==> from in old(disk.tree) && !(from <= to))
    {
      var works := Works();
      if !works || from !in disk.tree || from <= to {
        return false;
      }
      Take(Renaming(from, to));
      KeepsValid(old(disk), index, next);
      return true;
    }

    /** Moves a file, trashing first what is at its destination; where that is not
        occupied, nothing is below it either. */
    method MoveFile(from: Path, to: Path, ghost policies: Policies) returns (ok: bool)
      requires Valid() && (policies.onAvailable == Apply || policies.onAvailable == Ask)
      modifies this`disk, this`index, this`next, this`steps
      ensures Valid() && Grown(old(index), index, mark)
      ensures ok ==> Overwrites(old(disk), old(next), from, to, disk, index) && Moved(SoFar(), from, to, policies)
      ensures Moves(old(steps), steps, from, to)
      ensures ok ==> Cleanly(old(steps), steps)
      ensures !faulty ==> (ok <==> CanMove(old(disk), from, to))
    {
      ok := MakeWay(to);
      ghost var made := steps;
      TrashedFrees(old(disk), from, to, old(next));
      if !ok || Under(disk.tree, to) != {} {
        SendThenRename(old(steps), made, steps, from, to, old(next));
        return false;
      }
      ok := MoveFree(from, to, policies);
      SendThenRename(old(steps), made, steps, from, to, old(next));
      if ok {
        CleanlyOn(old(steps), made, Renaming(from, to));
      }
    }

    /** The rename of a move, with its warrant. */
    method MoveFree(from: Path, to: Path, ghost policies: Policies) returns (ok: bool)
      requires Valid() && Under(disk.tree, to) == {}
      requires policies.onAvailable == Apply || policies.onAvailable == Ask
      modifies this`disk, this`steps
      ensures Valid()
      ensures !ok ==> disk == old(disk) && steps == old(steps)
      ensures ok ==> disk == Renamed(old(disk), from, to) && steps == old(steps) + [Renaming(from, to)]
      ensures ok ==> Moved(SoFar(), from, to, policies)
      ensures !faulty ==> (ok <==> from in old(disk.tree) && !(from <= to))
    {
      AtNow();
      ok := RenameFree(from, to);
      if ok {
        AtEarlier(first, old(steps), steps, |old(steps)|);
        assert MovedAt(SoFar(), from, to, policies, |old(steps)|);
      }
    }

    /** The disk is where the steps so far lead. */
    lemma AtNow()
      requires Valid()
      ensures At(first, steps, |steps|) == disk
    {
      assert steps[..|steps|] == steps;
    }

    lemma NoneToMove(from: Path, to: Path, policies: Policies)
      requires Valid() && from !in disk.tree
      requires policies.onUnavailable == Apply || policies.onUnavailable == Ask
      ensures Moved(SoFar(), from, to, policies)
    {
      AtNow();
      assert MovedAt(SoFar(), from, to, policies, |steps|);
    }

    lemma LeftNow(from: Path, to: Path, policies: Policies)
      requires Valid()
      requires
        if from in disk.tree then
          || policies.onAvailable == Skip || policies.onAvailable == Ask
          || (policies.onAvailable == Apply && to in disk.tree && disk.tree[to].Dir?)
        else policies.onUnavailable == Skip || policies.onUnavailable == Ask
      ensures Left(SoFar(), from, to, policies)
    {
      AtNow();
      assert LeftAt(SoFar(), from, to, policies, |steps|);
    }

    /** Asks the user where the policies leave a move to them. */
    method Settle(policy: Policy) returns (r: Result<Policy, Failure>)
      ensures policy != Ask ==> r == Ok(policy)
    {
      if policy != Ask {
        return Ok(policy);
      }
      var answers: bool, answer: Policy := *, *;
      return if answers then Ok(answer) else Err(Failure);
    }

    /** Decides a `move` step; the answer is whether to leave the operation out. */
    method DecideMove(from: Path, to: Path, policies: Policies) returns (r: Result<bool, Failure>)
      requires Valid()
      modifies this`disk, this`index, this`next, this`steps
      ensures Valid() && Grown(old(index), index, mark)
      ensures from in old(disk.tree) && policies.onAvailable == Skip ==> r == Ok(true)
      ensures from !in old(disk.tree) && policies.onUnavailable == Skip ==> r == Ok(true)
      ensures from in old(disk.tree) && policies.onAvailable == Abort ==> r.Err? && disk == old(disk)
      ensures from !in old(disk.tree) && policies.onUnavailable == Abort ==> r.Err? && disk == old(disk)
      ensures from !in old(disk.tree) && policies.onUnavailable == Apply ==> r == Ok(false)
      ensures from in old(disk.tree) && policies.onAvailable == Apply && r == Ok(true) ==>
        to in old(disk.tree) && old(disk.tree)[to].Dir?
      ensures to in old(disk.tree) && old(disk.tree)[to].Dir? ==> disk == old(disk)
      ensures r == Ok(true) ==> disk == old(disk)
      ensures r == Ok(false) && from !in old(disk.tree) ==> disk == old(disk)
      ensures r == Ok(false) && from in old(disk.tree) ==> Overwrites(old(disk), old(next), from, to, disk, index)
      ensures r == Ok(false) ==> Moved(SoFar(), from, to, policies)
      ensures r == Ok(true) ==> Left(SoFar(), from, to, policies)
      ensures Moves(old(steps), steps, from, to)
      ensures r.Ok? ==> Cleanly(old(steps), steps)
      ensures !faulty && from in old(disk.tree) && policies.onAvailable == Apply && CanMove(old(disk), from, to)
              && !(to in old(disk.tree) && old(disk.tree)[to].Dir?) ==>
        r == Ok(false)
      ensures !faulty && r.Err? ==> MoveRefused(old(disk), from, to, policies)
    {
      var available := from in disk.tree;
      var settled := Settle(PolicyFor(policies, available));
      if settled.Err? {
        return Err(Failure);
      }
      match settled.value {
        case Apply =>
          if !available {
            NoneToMove(from, to, policies);
            return Ok(false);
          }
          if to in disk.tree && disk.tree[to].Dir? {
            LeftNow(from, to, policies);
            return Ok(true);
          }
          var moved := MoveFile(from, to, policies);
          return if moved then Ok(false) else Err(Failure);
        case Skip =>
          LeftNow(from, to, policies);
          return Ok(true);
        case Abort =>
          return Err(Failure);
        case Ask =>
          return Err(Failure);
      }
    }

    // ── A step whose content is in the trash ───────────────────────────────

    /** Puts `copies` of a blob below `target` and takes `removed` out of it. */
    method PutBack(id: nat, target: Path, copies: map<Path, Node>, removed: set<Path>)
      requires Files() && CanPutBack(disk, id, target, copies, removed)
      requires oneDevice ==> copies - removed == map[]
      modifies this`disk, this`steps
      ensures Files() && disk == Returned(old(disk), id, target, copies, removed)
      ensures Extends(old(disk.tree), disk.tree) && disk.trash.Keys <= old(disk.trash.Keys)
      ensures steps == old(steps) + [Returning(id, target, copies, removed)]
      ensures copies - removed == map[] ==> Cleanly(old(steps), steps)
    {
      ReturnedExtends(disk, id, target, copies, removed);
      Take(Returning(id, target, copies, removed));
    }

    /** Moves a whole blob below `target`, or fails part-way: what was moved then is
        on one side or, across filesystems, on both. */
    method MoveBack(id: nat, target: Path) returns (ok: bool)
      requires Files() && Fits(disk, target, BlobNodes(disk, id))
      modifies this`disk, this`steps
      ensures Files()
      ensures Extends(old(disk.tree), disk.tree) && disk.trash.Keys <= old(disk.trash.Keys)
      ensures ok ==> Back(old(disk), disk, id, target)
      ensures Returns(old(steps), steps, id, target)
      ensures ok ==> Cleanly(old(steps), steps)
      ensures !faulty ==> ok
    {
      ok := Works();
      if ok {
        WholeBack(id, target, BlobNodes(disk, id));
      } else {
        PartBack(id, target);
      }
    }

    method WholeBack(id: nat, target: Path, all: map<Path, Node>)
      requires Files() && all == BlobNodes(disk, id) && Fits(disk, target, all)
      modifies this`disk, this`steps
      ensures Files() && Cleanly(old(steps), steps) && Returns(old(steps), steps, id, target)
      ensures Extends(old(disk.tree), disk.tree) && disk.trash.Keys <= old(disk.trash.Keys)
      ensures Back(old(disk), disk, id, target)
    {
      CanReturnWhole(disk, id, target, all);
      ReturnedBack(disk, id, target, all);
      PutBack(id, target, all, all.Keys);
    }

    /** A transfer out of the trash that fails part-way. */
    method PartBack(id: nat, target: Path)
      requires Files()
      modifies this`disk, this`steps
      ensures Files() && Returns(old(steps), steps, id, target)
      ensures Extends(old(disk.tree), disk.tree) && disk.trash.Keys <= old(disk.trash.Keys)
    {
      assert CanPutBack(disk, id, target, map[], {});
      var copies: map<Path, Node>, removed: set<Path> :|
        CanPutBack(disk, id, target, copies, removed) && (oneDevice ==> copies - removed == map[]);
      PutBack(id, target, copies, removed);
    }

    /** The blob is moved whole onto a free path, whose parents are made first. */
    method RestoreFresh(id: nat, target: Path) returns (ok: bool)
      requires Files() && target !in disk.tree
      modifies this`disk, this`steps
      ensures Files()
      ensures Extends(old(disk.tree), disk.tree) && disk.trash.Keys <= old(disk.trash.Keys)
      ensures ok ==> Back(old(disk), disk, id, target)
      ensures Returns(old(steps), steps, id, target)
      ensures ok ==> Cleanly(old(steps), steps)
      ensures !faulty ==> (ok <==> CanRestore(old(disk), id, target))
    {
      var made := MakeParents(id, target);
      ParentsAreAbove(old(disk), disk, target);
      if !made || (id, []) !in disk.trash || Under(disk.tree, target) != {} {
        return false;
      }
      FitsFree(disk, target, BlobNodes(disk, id));
      ok := MoveBack(id, target);
    }

    method MakeParents(id: nat, target: Path) returns (ok: bool)
      requires Files()
      modifies this`disk, this`steps
      ensures Files() && disk.trash == old(disk.trash) && Extends(old(disk.tree), disk.tree)
      ensures Cleanly(old(steps), steps) && Returns(old(steps), steps, id, target)
      ensures !ok ==> disk == old(disk)
      ensures forall q :: q in disk.tree ==> q in old(disk.tree) || q in Parents(target)
      ensures !faulty ==> (ok <==> ParentsFit(old(disk), target))
    {
      ok := Works();
      if !ok || !ParentsFit(disk, target) {
        return false;
      }
      Take(Making(id, target));
      return true;
    }

    /** A directory's blob is merged into the directory at its path, unless some
        file of either would be overwritten. */
    method RestoreMerge(id: nat, target: Path) returns (ok: bool)
      requires Files() && target in disk.tree
      modifies this`disk, this`steps
      ensures Files()
      ensures Extends(old(disk.tree), disk.tree) && disk.trash.Keys <= old(disk.trash.Keys)
      ensures !old(disk).tree[target].Dir? || !Fits(old(disk), target, BlobNodes(old(disk), id)) ==>
        !ok && disk == old(disk)
      ensures ok ==> Back(old(disk), disk, id, target)
      ensures Returns(old(steps), steps, id, target)
      ensures ok ==> Cleanly(old(steps), steps)
      ensures !faulty ==> (ok <==> CanRestore(old(disk), id, target))
    {
      var all := BlobNodes(disk, id);
      if !(disk.tree[target].Dir? && [] in all && all[[]].Dir? && Fits(disk, target, all)) {
        return false;
      }
      ok := MoveBack(id, target);
    }

    /** Onto a free path, or merged into what is there. */
    method RestoreAt(id: nat, target: Path) returns (ok: bool)
      requires Files()
      modifies this`disk, this`steps
      ensures Files()
      ensures Extends(old(disk.tree), disk.tree) && disk.trash.Keys <= old(disk.trash.Keys)
      ensures ok ==> Back(old(disk), disk, id, target)
      ensures Returns(old(steps), steps, id, target)
      ensures ok ==> Cleanly(old(steps), steps)
      ensures !faulty ==> (ok <==> CanRestore(old(disk), id, target))
    {
      if target !in disk.tree {
        ok := RestoreFresh(id, target);
      } else {
        ok := RestoreMerge(id, target);
      }
    }

    /** Puts the blob of an entry back at its original path: onto a free path,
        or merged into a directory there, never over a file. */
    method Restore(id: nat) returns (r: Result<(), Failure>)
      requires Valid()
      modifies this`disk, this`index, this`steps
      ensures Valid()
      ensures Extends(old(disk.tree), disk.tree)
      ensures r.Err? ==> index == old(index)
      ensures r.Ok? ==>
        id in old(index) && index == old(index) - {id} && Back(old(disk), disk, id, old(index)[id].original)
      ensures if id in old(index) then Returns(old(steps), steps, id, old(index)[id].original) else steps == old(steps)
      ensures r.Ok? ==> Cleanly(old(steps), steps)
      ensures !faulty ==> (r.Ok? <==> id in old(index) && CanRestore(old(disk), id, old(index)[id].original))
    {
      if id !in index {
        return Err(Failure);
      }
      var back := RestoreAt(id, index[id].original);
      KeepsValid(old(disk), index, next);
      var deleted := Works();
      if !back || !deleted {
        return Err(Failure);
      }
      index := index - {id};
      KeepsValid(old(disk), old(index), next);
      return Ok(());
    }

    /** Decides a `restore_content` step; the answer is whether to leave it out. */
    method DecideDeleted(op: RevertOp, byMetarecordOnly: bool) returns (leaveOut: bool)
      requires Valid()
      modifies this`disk, this`index, this`entries, this`restored, this`returned, this`steps, this`failed
      ensures Valid() && Grown(old(index), index, mark)
      ensures old(returned) <= returned && old(failed) <= failed
      ensures !leaveOut ==> ReturnedFor(returned, op.entity)
      ensures returned == old(returned) || Brings(old(returned), returned, old(disk), disk)
      ensures op.entity in old(restored) ==> !leaveOut && disk == old(disk)
      ensures returned != old(returned) ==>
        !leaveOut && exists pos: nat :: FirstHolding(old(entries), op, byMetarecordOnly, pos)
                                   && returned == old(returned) + [old(entries)[pos]]
      ensures leaveOut ==> entries == old(entries) && restored == old(restored) && returned == old(returned)
      ensures leaveOut ==>
        || (forall e :: e in old(entries) ==> !HoldsContent(e, op, byMetarecordOnly))
        || exists pos: nat :: FirstHolding(old(entries), op, byMetarecordOnly, pos) && old(entries)[pos].id in failed
                                 && (!faulty ==> !Restorable(old(disk), old(index), old(entries)[pos]))
      ensures op.action.RestoreContent? ==> ServesSince(op, old(steps), steps, records, root, was)
      ensures !leaveOut ==> Cleanly(old(steps), steps)
    {
      if op.entity in restored {
        return false;
      }
      var pos := Position(entries, op, byMetarecordOnly);
      PositionHolds(entries, op, byMetarecordOnly);
      if pos.None? {
        return true;
      }
      var back := BringBack(pos.value, op.entity);
      return !back;
    }

    /** Restores the entry at `pos`. */
    method BringBack(pos: nat, entity: string) returns (ok: bool)
      requires Valid() && pos < |entries| && Took(entries[pos], entity)
      modifies this`disk, this`index, this`entries, this`restored, this`returned, this`steps, this`failed
      ensures Valid() && Grown(old(index), index, mark)
      ensures returned == old(returned) + if ok then [old(entries)[pos]] else []
      ensures !ok ==> entries == old(entries) && restored == old(restored)
      ensures failed == old(failed) + if ok then {} else {old(entries)[pos].id}
      ensures ok ==> Brings(old(returned), returned, old(disk), disk) && ReturnedFor(returned, entity)
      ensures Returns(old(steps), steps, old(entries)[pos].id, old(entries)[pos].original)
      ensures ok ==> Cleanly(old(steps), steps)
      ensures !faulty ==> (ok <==> Restorable(old(disk), old(index), old(entries)[pos]))
    {
      var entry := entries[pos];
      var back := RestoreEntry(pos);
      if back.Err? {
        failed := failed + {entry.id};
        return false;
      }
      NoteReturned(pos, entity);
      ReturnedLast(old(returned), entry, entity);
      return true;
    }

    /** Puts back an entry listed at the start, where it was trashed from. */
    method RestoreEntry(pos: nat) returns (r: Result<(), Failure>)
      requires Valid() && pos < |entries|
      modifies this`disk, this`index, this`steps
      ensures Valid() && Grown(old(index), index, mark)
      ensures Returns(old(steps), steps, entries[pos].id, entries[pos].original)
      ensures r.Ok? ==> OutOfTrash([entries[pos]], disk, index) && Cleanly(old(steps), steps)
      ensures r.Ok? ==> Back(old(disk), disk, entries[pos].id, entries[pos].original)
      ensures !faulty ==> (r.Ok? <==> Restorable(old(disk), old(index), entries[pos]))
    {
      EntryIsOld(pos);
      r := Restore(entries[pos].id);
    }

    /** What may be put back is older than the run and, while it is in the index, as it
        was listed. */
    lemma EntryIsOld(pos: nat)
      requires Valid() && pos < |entries|
      ensures entries[pos].id < mark && (entries[pos].id in index ==> index[entries[pos].id] == entries[pos])
    {
      assert entries[pos] in entries;
    }

    /** The entry at `pos` is back: it is not looked at again, and everything
        its blob held counts as restored. */
    method NoteReturned(pos: nat, entity: string)
      requires Valid() && pos < |entries| && Took(entries[pos], entity) && OutOfTrash([entries[pos]], disk, index)
      modifies this`entries, this`restored, this`returned
      ensures Valid()
      ensures returned == old(returned) + [old(entries)[pos]]
      ensures restored == old(restored) + Taken(old(entries)[pos].subtree) + {entity}
    {
      var entry := entries[pos];
      AccountedNext(entries, returned, listed, restored, mark, pos, entity);
      entries, restored, returned :=
        entries[..pos] + entries[pos + 1..], restored + Taken(entry.subtree) + {entity}, returned + [entry];
    }

    // ── A step that sends content back to the trash ────────────────────────

    /** Trashes again what an operation of the run took; `false` where there is no
        file to send. */
    method Retrash(op: RevertOp) returns (r: Result<bool, Failure>)
      requires Valid()
      modifies this`disk, this`index, this`next, this`covered, this`steps
      ensures Valid()
      ensures r == Ok(false) ==> !HasFile(records, root, old(disk.tree), op.entity)
      ensures r == Ok(false) || op.entity in old(covered) ==>
        r.Ok? && disk == old(disk) && index == old(index) && covered == old(covered)
      ensures r == Ok(true) && op.entity !in old(covered) ==>
        && HasFile(records, root, old(disk.tree), op.entity)
        && disk == Trashed(old(disk), FileOf(records, root, op.entity), old(next))
        && index == old(index)[old(next) := EntryFor(records, root, op.entity, old(next))]
        && covered == old(covered) + {op.entity} + Taken(records[op.entity].nodes)
      ensures op.action.TrashContent? ==> ServesSince(op, old(steps), steps, records, root, was)
      ensures r.Ok? ==> Cleanly(old(steps), steps)
      ensures !faulty ==> r.Ok?
    {
      if op.entity in covered {
        return Ok(true);
      }
      var answers := Works();
      if !answers {
        return Err(Failure);
      }
      if !HasFile(records, root, disk.tree, op.entity) {
        return Ok(false);
      }
      var sent := SendBack(op.entity);
      if op.action.TrashContent? {
        SendingServes(op, old(steps), steps, old(next), records, root, was);
      }
      return if sent then Ok(true) else Err(Failure);
    }

    /** Captures a metarecord and trashes its file, as a trashing does. */
    method SendBack(e: string) returns (ok: bool)
      requires Valid() && HasFile(records, root, disk.tree, e)
      modifies this`disk, this`index, this`next, this`covered, this`steps
      ensures Valid()
      ensures ok ==>
        && disk == Trashed(old(disk), FileOf(records, root, e), old(next))
        && index == old(index)[old(next) := EntryFor(records, root, e, old(next))]
        && covered == old(covered) + {e} + Taken(records[e].nodes)
      ensures Sends(old(steps), steps, FileOf(records, root, e), old(next))
      ensures ok ==> Cleanly(old(steps), steps)
      ensures !faulty ==> ok
    {
      var record := records[e];
      var answers := Works();
      if !answers {
        return false;
      }
      var trashed := TrashSafely(FileOf(records, root, e), Some(e), record.version);
      if trashed.Err? {
        return false;
      }
      Cover(e, record.nodes);
      ok := Works();
      if ok {
        Attach(trashed.value, record.nodes);
        EntryReplaced(old(index), old(next), trashed.value, EntryFor(records, root, e, old(next)));
      }
    }

    method Cover(e: string, nodes: seq<TrashedNode>)
      requires Valid()
      modifies this`covered
      ensures Valid() && covered == old(covered) + {e} + Taken(nodes)
    {
      covered := covered + {e} + Taken(nodes);
    }

    /** Adds what was captured to an entry of the index. */
    method Attach(entry: TrashEntry, nodes: seq<TrashedNode>)
      requires Valid() && mark <= entry.id && entry.id in index && index[entry.id] == entry
      modifies this`index
      ensures Valid() && index == old(index)[entry.id := entry.(subtree := nodes)]
    {
      index := index[entry.id := entry.(subtree := nodes)];
    }

    /** The trashings to redo with the depths of their paths, shallowest first. */
    method ToRetrash(ops: seq<RevertOp>) returns (r: Result<seq<Trashing>, Failure>)
      ensures r.Ok? ==> Sorting.Sorted(r.value, NoDeeper) && DepthsAre(r.value, records)
      ensures r.Ok? ==> forall op :: (op in ops && op.action.TrashContent?) <==> Plans(r.value, op)
      ensures !faulty ==> r.Ok?
    {
      var found: seq<Trashing> := [];
      for i := 0 to |ops|
        invariant forall op :: (op in ops[..i] && op.action.TrashContent?) <==> Plans(found, op)
        invariant DepthsAre(found, records)
      {
        assert ops[..i + 1] == ops[..i] + [ops[i]];
        if ops[i].action.TrashContent? {
          var answers := Works();
          if !answers {
            return Err(Failure);
          }
          PlansMore(found, (DepthOf(records, ops[i].entity), ops[i]));
          found := found + [(DepthOf(records, ops[i].entity), ops[i])];
        }
      }
      assert ops[..|ops|] == ops;
      ByDepthSorts(found);
      DepthsSame(found, ByDepth(found), records);
      forall op ensures Plans(found, op) <==> Plans(ByDepth(found), op) {
        PlansSame(found, ByDepth(found), op);
        PlansSame(ByDepth(found), found, op);
      }
      return Ok(ByDepth(found));
    }

    /** The trashings redone so far of a sweep that began with `tree`. */
    ghost predicate Sweeping(tree: map<Path, Node>, deepest: nat)
      reads this
    {
      Sweep(records, root, tree, disk.tree, index, mark, covered, deepest)
    }

    /** One trashing of the sweep. */
    method RetrashNext(op: RevertOp, ghost tree: map<Path, Node>, ghost deepest: nat) returns (r: Result<(), Failure>)
      requires Valid() && Sweeping(tree, deepest) && deepest <= DepthOf(records, op.entity)
      modifies this`disk, this`index, this`next, this`covered, this`steps
      ensures Valid()
      ensures op.action.TrashContent? ==> ServesSince(op, old(steps), steps, records, root, was)
      ensures r.Ok? ==>
        && Sweeping(tree, DepthOf(records, op.entity))
        && Done(records, root, tree, disk.tree, index, mark, op.entity)
        && Grown(old(index), index, mark) && Extends(disk.tree, old(disk.tree))
      ensures !faulty ==> r.Ok?
    {
      ghost var d, x, c, id := disk, index, covered, next;
      assert id !in index && id >= mark;
      var sent := Retrash(op);
      if sent.Err? {
        return Err(Failure);
      }
      if sent.value && op.entity !in c {
        TrashedTree(d, FileOf(records, root, op.entity), id);
        SweepSends(records, root, tree, d.tree, disk.tree, x, mark, c, deepest, op.entity, id);
        EntryAdded(x, mark, id, EntryFor(records, root, op.entity, id));
      } else {
        SweepStays(records, root, tree, d.tree, x, mark, c, deepest, op.entity);
      }
      return Ok(());
    }

    /** The same, of a sweep for the operations `ops`. */
    method RetrashOne(op: RevertOp, ghost ops: seq<RevertOp>, ghost tree: map<Path, Node>, ghost deepest: nat)
      returns (r: Result<(), Failure>)
      requires Valid() && Sweeping(tree, deepest) && deepest <= DepthOf(records, op.entity)
      requires op in ops && op.action.TrashContent? && AllServed(ops, steps, records, root, was)
      modifies this`disk, this`index, this`next, this`covered, this`steps
      ensures Valid() && AllServed(ops, steps, records, root, was)
      ensures r.Ok? ==>
        && Sweeping(tree, DepthOf(records, op.entity))
        && Done(records, root, tree, disk.tree, index, mark, op.entity)
        && Grown(old(index), index, mark) && Extends(disk.tree, old(disk.tree))
      ensures !faulty ==> r.Ok?
    {
      r := RetrashNext(op, tree, deepest);
      AllServedOn(ops, op, old(steps), steps, records, root, was);
    }

    /** The sweep over trashings sorted by depth. */
    method RetrashSorted(sorted: seq<Trashing>, ghost ops: seq<RevertOp>) returns (r: Result<(), Failure>)
      requires Valid() && covered == {} && mark == next && AllServed(ops, steps, records, root, was)
      requires Sorting.Sorted(sorted, NoDeeper) && DepthsAre(sorted, records)
      requires forall k :: 0 <= k < |sorted| ==> sorted[k].1 in ops && sorted[k].1.action.TrashContent?
      modifies this`disk, this`index, this`next, this`covered, this`steps
      ensures Valid() && AllServed(ops, steps, records, root, was)
      ensures r.Ok? ==> DoneFor(sorted, |sorted|, records, root, old(disk.tree), disk.tree, index, mark)
      ensures r.Ok? && Captures(records) ==> Unnested(index, mark)
      ensures !faulty ==> r.Ok?
    {
      ghost var tree := disk.tree;
      ghost var deepest: nat := 0;
      for i := 0 to |sorted|
        invariant Valid() && Sweeping(tree, deepest) && AllServed(ops, steps, records, root, was)
        invariant forall k :: i <= k < |sorted| ==> deepest <= sorted[k].0
        invariant DoneFor(sorted, i, records, root, tree, disk.tree, index, mark)
      {
        ghost var d, x := disk, index;
        r := RetrashOne(sorted[i].1, ops, tree, deepest);
        if r.Err? {
          return;
        }
        DoneForNext(sorted, i, records, root, tree, d.tree, disk.tree, x, index, mark);
        deepest := sorted[i].0;
      }
      return Ok(());
    }

    /** Redoes the trashings, shallowest first. Each file that was there went into
        an entry of this run; where captures are exact none of them is left, and
        no entry lies inside another. */
    method RetrashAll(ops: seq<RevertOp>) returns (r: Result<(), Failure>)
      requires Valid() && covered == {} && mark == next && AllServed(ops, steps, records, root, was)
      modifies this`disk, this`index, this`next, this`covered, this`steps
      ensures Valid() && AllServed(ops, steps, records, root, was)
      ensures r.Ok? ==> AllRedone(ops, records, root, old(disk.tree), index, mark)
      ensures r.Ok? && Captures(records) ==>
        && Unnested(index, mark)
        && forall op :: op in ops && op.action.TrashContent? ==> !HasFile(records, root, disk.tree, op.entity)
      ensures !faulty ==> r.Ok?
    {
      var planned := ToRetrash(ops);
      if planned.Err? {
        return Err(Failure);
      }
      assert forall k :: 0 <= k < |planned.value| ==> Plans(planned.value, planned.value[k].1);
      r := RetrashSorted(planned.value, ops);
      if r.Ok? {
        DoneForAll(ops, planned.value, records, root, old(disk.tree), disk.tree, index, mark);
      }
    }

    // ── The whole revert ───────────────────────────────────────────────────

    /** Leaving out a step whose content was missed is warranted. */
    lemma MissedNow(op: RevertOp)
      requires Valid() && op.action.RestoreContent? && op.entity !in restored
      requires
        var anyVersion := TakesAWholeMetarecord(op);
        || (forall e :: e in entries ==> !HoldsContent(e, op, anyVersion))
        || exists pos: nat :: FirstHolding(entries, op, anyVersion, pos) && entries[pos].id in failed
      ensures Missed(SoFar(), op)
    {
      assert returned[..|returned|] == returned;
      forall e | e in returned ensures !TookBelow(e, op.entity) {
        assert TookBelow(e, op.entity) ==> op.entity in Taken(e.subtree);
      }
      if pos: nat :| FirstHolding(entries, op, TakesAWholeMetarecord(op), pos) && entries[pos].id in failed {
        assert entries[pos] in entries;
      }
      assert MissedAt(SoFar(), op, |returned|);
    }

    /** Decides a step whose content is in the trash, with its warrant. */
    method DecideContent(op: RevertOp, policies: Policies) returns (kept: bool)
      requires Valid() && op.action.RestoreContent?
      modifies this`disk, this`index, this`entries, this`restored, this`returned, this`steps, this`failed
      ensures Valid() && Grown(old(index), index, mark)
      ensures Later(old(SoFar()), SoFar()) && ServesSince(op, old(steps), steps, records, root, was)
      ensures Warranted(op, kept, policies, SoFar()) && WantsNew(op, old(returned), returned)
    {
      var left := DecideDeleted(op, TakesAWholeMetarecord(op));
      kept := !left;
      if left {
        MissedNow(op);
      }
    }

    /** Decides one operation; the answer is whether it is kept. */
    method Decide(op: RevertOp, policies: Policies) returns (r: Result<bool, Failure>)
      requires Valid()
      modifies this`disk, this`index, this`next, this`entries, this`restored, this`returned, this`steps, this`failed
      ensures Valid() && Grown(old(index), index, mark)
      ensures Later(old(SoFar()), SoFar()) && ServesSince(op, old(steps), steps, records, root, was)
      ensures WantsNew(op, old(returned), returned)
      ensures r.Ok? ==> Warranted(op, r.value, policies, SoFar())
      ensures !faulty && r.Err? ==>
        op.action.Move? && MoveRefused(old(disk), op.action.from, op.action.to, policies)
    {
      match op.action {
        case Move(from, to) =>
          var left := DecideMove(from, to, policies);
          return if left.Err? then Err(Failure) else Ok(!left.value);
        case RestoreContent =>
          var kept := DecideContent(op, policies);
          return Ok(kept);
        case _ =>
          return Ok(true);
      }
    }

    /** The same, after the trashings of the operations `ops` were redone. */
    method DecideOne(op: RevertOp, policies: Policies, ghost ops: seq<RevertOp>, ghost tree: map<Path, Node>)
      returns (r: Result<bool, Failure>)
      requires Valid() && op in ops && AllServed(ops, steps, records, root, was) && AllWanted(ops, returned)
      requires AllRedone(ops, records, root, tree, index, mark)
      modifies this`disk, this`index, this`next, this`entries, this`restored, this`returned, this`steps, this`failed
      ensures Valid() && AllServed(ops, steps, records, root, was) && AllWanted(ops, returned)
      ensures AllRedone(ops, records, root, tree, index, mark)
      ensures Later(old(SoFar()), SoFar())
      ensures r.Ok? ==> Warranted(op, r.value, policies, SoFar())
      ensures !faulty && r.Err? ==> SomeRefused(ops, policies, SoFar())
    {
      AtNow();
      ghost var k := |steps|;
      r := Decide(op, policies);
      if !faulty && r.Err? {
        AtEarlier(first, old(steps), steps, k);
        assert MoveRefused(At(first, steps, k), op.action.from, op.action.to, policies);
      }
      AllRedoneOn(ops, records, root, tree, old(index), index, mark);
      AllServedOn(ops, op, old(steps), steps, records, root, was);
      AllWantedOn(ops, op, old(returned), returned);
    }

    /** Performs the file actions of the operations; the answer is what to apply. */
    method Act(ops: seq<RevertOp>, policies: Policies) returns (r: Result<seq<int>, Failure>, ghost keep: seq<bool>)
      requires Valid() && covered == {} && mark == next && AllServed(ops, steps, records, root, was)
      requires returned == []
      modifies this`disk, this`index, this`next, this`entries, this`restored, this`covered
      modifies this`returned, this`steps, this`failed
      ensures Valid() && AllServed(ops, steps, records, root, was) && AllWanted(ops, returned)
      ensures r.Ok? ==> |keep| == |ops| && r.value == KeptIds(ops, keep) && Judged(ops, keep, policies, SoFar())
      ensures r.Ok? ==> AllRedone(ops, records, root, old(disk.tree), index, mark)
      ensures !faulty && r.Err? ==> SomeRefused(ops, policies, SoFar())
    {
      keep := [];
      var redone := RetrashAll(ops);
      if redone.Err? {
        return Err(Failure), [];
      }
      var apply: seq<int> := [];
      for i := 0 to |ops|
        invariant Valid() && AllServed(ops, steps, records, root, was) && AllWanted(ops, returned)
        invariant |keep| == i && apply == KeptIds(ops, keep) && Judged(ops, keep, policies, SoFar())
        invariant AllRedone(ops, records, root, old(disk.tree), index, mark)
      {
        ghost var before := SoFar();
        var kept := false;
        if ops[i].id.Some? {
          var decided := DecideOne(ops[i], policies, ops, old(disk.tree));
          if decided.Err? {
            return Err(Failure), [];
          }
          kept := decided.value;
          if kept {
            apply := apply + [ops[i].id.value];
          }
        }
        JudgedNext(ops, keep, policies, before, SoFar(), kept);
        keep := keep + [kept];
      }
      return Ok(apply), keep;
    }

    /** The trash's entries, in some order. */
    method ListEntries() returns (listing: seq<TrashEntry>)
      requires Files()
      ensures Lists(listing, index)
    {
      listing := [];
      var left := index.Keys;
      while left != {}
        invariant left <= index.Keys
        invariant DistinctIds(listing)
        invariant forall e :: e in listing ==> e.id in index && index[e.id] == e && e.id !in left
        invariant forall id :: id in index && id !in left ==> index[id] in listing
        decreases left
      {
        var id :| id in left;
        ghost var before := listing;
        listing := listing + [index[id]];
        left := left - {id};
        assert forall e :: e in listing <==> e in before || e == index[id];
      }
    }

    /** Starts afresh on what the trash holds; a trash that cannot be read counts
        as empty. */
    method Begin()
      requires Files()
      modifies this`entries, this`restored, this`covered, this`returned, this`failed, this`listed
      modifies this`mark, this`was
      ensures Valid() && returned == [] && restored == {} && covered == {} && mark == next
      ensures was == index
      ensures !faulty ==> Lists(listed, index)
    {
      var readable := Works();
      var listing: seq<TrashEntry> := [];
      if readable {
        listing := ListEntries();
      }
      Reset(listing);
    }

    method Reset(listing: seq<TrashEntry>)
      requires Files() && DistinctIds(listing) && forall e :: e in listing ==> e.id in index && index[e.id] == e
      modifies this`entries, this`restored, this`covered, this`returned, this`failed, this`listed
      modifies this`mark, this`was
      ensures Valid() && returned == [] && restored == {} && covered == {} && mark == next && was == index
      ensures listed == listing
    {
      AccountedFresh(listing, index, next);
      entries, restored, covered, listed, returned, failed, mark, was :=
        listing, {}, {}, listing, [], {}, next, index;
    }

    /** Asks the daemon; it refuses what its lock does not allow. */
    method Answer(allowed: bool) returns (reply: Reply)
      ensures !allowed ==> reply == Refused
    {
      reply := *;
      if !allowed {
        reply := Refused;
      }
    }

    /** No step is taken yet. */
    ghost method Anew()
      requires Valid()
      modifies this`first, this`steps
      ensures Valid() && first == disk && steps == []
    {
      TracesNothing(oneDevice, disk);
      first, steps := disk, [];
    }

    /** Between a start and a commit or an abort: the calls made are `run`, the changes
        made to the disk `steps`, none where the start is not accepted. */
    method Coordinate(ops: seq<RevertOp>, policies: Policies)
      returns (written: bool, ghost run: seq<Call>, ghost apply: seq<int>, ghost keep: seq<bool>)
      requires Valid()
      modifies this
      ensures Valid() && calls == old(calls)
      ensures Concludes(run, apply, written) && locked == HeldAfter(old(locked), run)
      ensures old(locked) ==> run == [Start(Refused)]
      ensures |run| > 1 && run[1].Commit? ==>
        Deserved(ops, keep, apply, policies, SoFar(), old(index), records, root, index, mark)
      ensures first == old(disk) && (|run| <= 1 ==> steps == [] && disk == old(disk) && index == old(index))
      ensures !faulty && |run| == 2 && run[1].AbortCall? ==> SomeRefused(ops, policies, SoFar())
      ensures AllServed(ops, steps, records, root, old(index))
    {
      Anew();
      var reply := TakeLock();
      run, apply, keep, written := [Start(reply)], [], [], false;
      if reply != Accepted {
        return;
      }
      var acted: Result<seq<int>, Failure>;
      acted, keep := BeginAndAct(ops, policies);
      if acted.Ok? {
        apply := acted.value;
      }
      written, run := Conclude(acted, old(locked));
    }

    /** Asks for the lock. */
    method TakeLock() returns (reply: Reply)
      modifies this`locked
      ensures locked == HeldAfter(old(locked), [Start(reply)]) && (old(locked) ==> reply == Refused)
    {
      reply := Answer(!locked);
      HeldAfterMore(locked, [], Start(reply));
      assert [] + [Start(reply)] == [Start(reply)];
      locked := locked || reply != Refused;
    }

    lemma ReturnedWereListed()
      requires Valid()
      ensures DistinctIds(returned) && forall e :: e in returned ==> e in listed
    {
    }

    method BeginAndAct(ops: seq<RevertOp>, policies: Policies)
      returns (r: Result<seq<int>, Failure>, ghost keep: seq<bool>)
      requires Valid() && first == disk && steps == []
      modifies this
      ensures Valid() && calls == old(calls) && locked == old(locked) && first == old(disk)
      ensures AllServed(ops, steps, records, root, old(index))
      ensures r.Ok? ==>
        Deserved(ops, keep, r.value, policies, SoFar(), old(index), records, root, index, mark)
      ensures !faulty && r.Err? ==> SomeRefused(ops, policies, SoFar())
    {
      Begin();
      r, keep := Act(ops, policies);
      if r.Ok? {
        KeptIdsName(ops, keep);
      }
      ReturnedWereListed();
      ListedWere(returned, listed, was);
    }

    /** Commits what was done or, where that fails or is refused, aborts; `run` are
        the calls since the start that took the lock. */
    method Conclude(acted: Result<seq<int>, Failure>, ghost was: bool) returns (written: bool, ghost run: seq<Call>)
      requires locked == HeldAfter(was, [Start(Accepted)])
      modifies this`locked
      ensures locked == HeldAfter(was, run)
      ensures Concludes(run, if acted.Ok? then acted.value else [], written)
      ensures |run| > 1 && (run[1].Commit? <==> acted.Ok?)
    {
      run, written := [Start(Accepted)], false;
      if acted.Ok? {
        var reply := Answer(locked);
        HeldAfterMore(was, run, Commit(acted.value, reply));
        run := run + [Commit(acted.value, reply)];
        locked, written := locked && reply == Refused, reply == Accepted;
      }
      if !written {
        var reply := Answer(locked);
        HeldAfterMore(was, run, AbortCall(reply));
        run := run + [AbortCall(reply)];
        locked := locked && reply == Refused;
      }
    }

    /** The contents are those at the start and the copies the steps left. */
    lemma Conserves()
      requires Valid()
      ensures Contents(disk) == Contents(first) + Leftovers(steps)
      ensures Contents(disk) == Contents(first) <==> LeaveNoFile(steps)
      ensures oneDevice ==> LeaveNoFile(steps)
    {
      RunKeeps(first, steps, disk);
      KeptExactly(first, steps, disk);
    }

    /** Writes a revert: at once when no file action is needed, otherwise between
        a start and a commit or an abort. A lock that was free is free again
        unless the run is stranded. */
    method Revert(ops: seq<RevertOp>, needsFiles: bool, policies: Policies)
      returns (written: bool, ghost run: seq<Call>, ghost apply: seq<int>, ghost keep: seq<bool>)
      requires Valid()
      modifies this
      ensures Valid() && calls == old(calls) + run
      ensures locked == HeldAfter(old(locked), run)
      ensures !old(locked) ==> (locked <==> needsFiles && Stranded(run))
      ensures !needsFiles ==> disk == old(disk) && |run| == 1 && run[0].Direct? && written == (run[0].reply == Accepted)
      ensures needsFiles ==> Concludes(run, apply, written)
      ensures |run| > 1 && run[1].Commit? ==>
        Deserved(ops, keep, apply, policies, SoFar(), old(index), records, root, index, mark)
      ensures first == old(disk) && (|run| <= 1 ==> steps == [] && disk == old(disk) && index == old(index))
      ensures !faulty && |run| == 2 && run[1].AbortCall? ==> SomeRefused(ops, policies, SoFar())
      ensures AllServed(ops, steps, records, root, old(index))
      ensures Contents(disk) == Contents(old(disk)) + Leftovers(steps)
      ensures Contents(disk) == Contents(old(disk)) <==> LeaveNoFile(steps)
      ensures oneDevice ==> LeaveNoFile(steps)
    {
      Anew();
      if !needsFiles {
        written, run := AtOnce();
        apply, keep := [], [];
      } else {
        written, run, apply, keep := Coordinate(ops, policies);
        ConclusionReleases(run, apply, written);
      }
      Conserves();
      NoteCalls(run);
    }

    /** A revert that needs no file action. */
    method AtOnce() returns (written: bool, ghost run: seq<Call>)
      ensures |run| == 1 && run[0].Direct? && written == (run[0].reply == Accepted)
      ensures locked == HeldAfter(locked, run)
    {
      var reply := Answer(!locked);
      written, run := reply == Accepted, [Direct(reply)];
      HeldAfterMore(locked, [], Direct(reply));
      assert [] + [Direct(reply)] == [Direct(reply)];
    }

    ghost method NoteCalls(run: seq<Call>)
      requires Valid()
      modifies this`calls
      ensures Valid() && calls == old(calls) + run
    {
      calls := calls + run;
    }

    /** Asks for the revert at once and coordinates it only when the daemon
        refuses it because a file action is needed: `conflict` is its reason. */
    method RevertUnplanned(
      ops: seq<RevertOp>, requiresLock: bool, metadataOnly: bool, conflict: bool, policies: Policies)
      returns (written: bool, ghost asked: Reply, ghost run: seq<Call>, ghost apply: seq<int>, ghost keep: seq<bool>)
      requires Valid()
      modifies this
      ensures Valid() && calls == old(calls) + [Direct(asked)] + run
      ensures locked == HeldAfter(old(locked), run)
      ensures asked != Refused || old(locked) ==> run == [] && disk == old(disk) && written == (asked == Accepted)
      ensures run == [] ==> disk == old(disk) && written == (asked == Accepted)
      ensures asked == Refused && !old(locked) && conflict && !faulty ==> run != []
      ensures run != [] && requiresLock && !metadataOnly ==> Concludes(run, apply, written)
      ensures run != [] && (!requiresLock || metadataOnly) ==>
        |run| == 1 && run[0].Direct? && written == (run[0].reply == Accepted)
      ensures |run| > 1 && run[1].Commit? ==>
        Deserved(ops, keep, apply, policies, SoFar(), old(index), records, root, index, mark)
      ensures first == old(disk) && (|run| <= 1 ==> steps == [] && disk == old(disk) && index == old(index))
      ensures !faulty && |run| == 2 && run[1].AbortCall? ==> SomeRefused(ops, policies, SoFar())
      ensures AllServed(ops, steps, records, root, old(index))
      ensures Contents(disk) == Contents(old(disk)) + Leftovers(steps)
      ensures Contents(disk) == Contents(old(disk)) <==> LeaveNoFile(steps)
      ensures oneDevice ==> LeaveNoFile(steps)
    {
      Anew();
      var reply := Answer(!locked);
      asked, run, apply, keep, written := reply, [], [], [], reply == Accepted;
      calls := calls + [Direct(reply)];
      var planned := Works();
      if reply != Refused || locked || !conflict || !planned {
        assert old(calls) + [Direct(asked)] + run == calls;
        Conserves();
        return;
      }
      written, run, apply, keep := Revert(ops, requiresLock && !metadataOnly, policies);
    }
  }
}
