/**
 The configuration repository: a `default` branch that holds what is shipped, a
 `main` branch that holds the user's files, and the update that merges the first
 into the second. The content merge is a parameter.
 */
module ConfigSync {
  import opened Prelude

  type Tree = map<string, string>

  datatype Commit = Commit(tree: Tree, parents: seq<nat>)

  /** What a three-way merge of two commits gives. */
  datatype Merge = Clean(tree: Tree) | Conflict(paths: seq<string>)

  type Merger = (seq<Commit>, nat, nat) -> Merge

  /** `main` and `shipped` are the tips of the two branches; `settled` is false
      while a merge is unfinished. */
  datatype Repo = Repo(
    commits: seq<Commit>,
    main: nat,
    shipped: nat,
    work: Tree,
    onMain: bool,
    settled: bool)

  datatype Outcome = Outcome(initialized: bool, updated: bool, editsCommitted: bool, conflict: Option<seq<string>>)

  const NOTHING_DONE := Outcome(false, false, false, None)

  datatype Refusal = Refused | Failed

  // ── Ancestry ─────────────────────────────────────────────────────────────

  predicate Rooted(commits: seq<Commit>) {
    forall i, k :: 0 <= i < |commits| && 0 <= k < |commits[i].parents| ==> commits[i].parents[k] < i
  }

  predicate WellFormed(r: Repo) {
    Rooted(r.commits) && r.main < |r.commits| && r.shipped < |r.commits|
  }

  /** `a` is `b` or is reached from it through parents. */
  predicate Ancestor(commits: seq<Commit>, a: nat, b: nat)
    requires Rooted(commits) && b < |commits|
    decreases b
  {
    a == b || exists k :: 0 <= k < |commits[b].parents| && Ancestor(commits, a, commits[b].parents[k])
  }

  lemma {:induction false} AncestorTransitive(commits: seq<Commit>, a: nat, b: nat, c: nat)
    requires Rooted(commits) && c < |commits| && b < |commits|
    requires Ancestor(commits, a, b) && Ancestor(commits, b, c)
    ensures Ancestor(commits, a, c)
    decreases c
  {
    if b != c {
      var k :| 0 <= k < |commits[c].parents| && Ancestor(commits, b, commits[c].parents[k]);
      AncestorTransitive(commits, a, b, commits[c].parents[k]);
    }
  }

  /** New commits change nothing among the old ones. */
  lemma {:induction false} AncestorStays(commits: seq<Commit>, later: seq<Commit>, a: nat, b: nat)
    requires Rooted(commits) && Rooted(later) && commits <= later && b < |commits|
    ensures Ancestor(commits, a, b) <==> Ancestor(later, a, b)
    decreases b
  {
    forall k | 0 <= k < |commits[b].parents|
      ensures Ancestor(commits, a, commits[b].parents[k]) <==> Ancestor(later, a, later[b].parents[k])
    {
      AncestorStays(commits, later, a, commits[b].parents[k]);
    }
  }

  // ── The steps of an update ───────────────────────────────────────────────

  /** A new commit, its index the number of those before. */
  function WithCommit(r: Repo, tree: Tree, parents: seq<nat>): Repo {
    r.(commits := r.commits + [Commit(tree, parents)])
  }

  /** The shipped branch holds `files`: advanced only where they changed. */
  function Shipped(r: Repo, files: Tree): (r': Repo)
    requires WellFormed(r)
    ensures WellFormed(r')
  {
    if r.commits[r.shipped].tree == files then r
    else WithCommit(r, files, [r.shipped]).(shipped := |r.commits|)
  }

  function Dirty(r: Repo): bool
    requires WellFormed(r)
  {
    r.work != r.commits[r.main].tree
  }

  /** The working tree committed on `main`, where it differs from it. */
  function EditsKept(r: Repo): (r': Repo)
    requires WellFormed(r)
    ensures WellFormed(r')
  {
    if Dirty(r) then WithCommit(r, r.work, [r.main]).(main := |r.commits|) else r
  }

  /** A forced checkout of `main`; other files may be `left` lying. */
  function CheckedOut(r: Repo, left: Tree): Repo
    requires WellFormed(r)
  {
    r.(work := left + r.commits[r.main].tree)
  }

  predicate UpToDate(r: Repo)
    requires WellFormed(r)
  {
    Ancestor(r.commits, r.shipped, r.main)
  }

  predicate FastForward(r: Repo)
    requires WellFormed(r)
  {
    Ancestor(r.commits, r.main, r.shipped)
  }

  /** What an update with nothing going wrong makes of the repository. */
  function Updated(r: Repo, files: Tree, merge: Merger, left: Tree): (Repo, Outcome)
    requires WellFormed(r)
  {
    var advanced := Shipped(r, files);
    if UpToDate(advanced) then (advanced, NOTHING_DONE)
    else
      var kept := EditsKept(advanced);
      var edits := Dirty(advanced);
      Integrated(kept, merge, left, edits)
  }

  /** The shipped commit brought into `main`: a fast-forward, a merge commit, or
      nothing where the merge conflicts. */
  function Integrated(r: Repo, merge: Merger, left: Tree, edits: bool): (Repo, Outcome)
    requires WellFormed(r)
  {
    if FastForward(r) then (CheckedOut(r.(main := r.shipped), left), Outcome(false, true, edits, None))
    else match merge(r.commits, r.main, r.shipped)
      case Conflict(paths) => (r, Outcome(false, false, edits, Some(paths)))
      case Clean(tree) => (CheckedOut(Merged(r, tree), left), Outcome(false, true, edits, None))
  }

  /** The merge commit. */
  function Merged(r: Repo, tree: Tree): (r': Repo)
    requires WellFormed(r)
    ensures WellFormed(r')
  {
    WithCommit(r, tree, [r.main, r.shipped]).(main := |r.commits|)
  }

  /** Where a failing call to git cuts an update short. Once the merge or the
      checkout has begun, the working tree is whatever it got to; `settled` tells
      whether git still sees the merge as unfinished, which it does not once its
      state was cleaned up: after a conflict, or after the merge commit. */
  datatype Cut =
    | AtStart
    | AfterShipping
    | AfterEdits
    | InFastForward(work: Tree)
    | InMerge(work: Tree, settled: bool)
    | AfterMerge(work: Tree, settled: bool)

  /** The cut is after the working tree was first written to. */
  predicate Late(cut: Cut) {
    cut.InFastForward? || cut.InMerge? || cut.AfterMerge?
  }

  /** The update gets as far as the cut. */
  predicate Reaches(r: Repo, files: Tree, merge: Merger, cut: Cut)
    requires WellFormed(r)
  {
    var advanced := Shipped(r, files);
    match cut
    case AtStart => true
    case AfterShipping => true
    case AfterEdits => !UpToDate(advanced)
    case InFastForward(_) => !UpToDate(advanced) && FastForward(EditsKept(advanced))
    case InMerge(_, settled) =>
      var kept := EditsKept(advanced);
      && !UpToDate(advanced) && !FastForward(kept)
      && (settled ==> merge(kept.commits, kept.main, kept.shipped).Conflict?)
    case AfterMerge(_, _) =>
      var kept := EditsKept(advanced);
      !UpToDate(advanced) && !FastForward(kept) && merge(kept.commits, kept.main, kept.shipped).Clean?
  }

  /** What is left of an update cut there. */
  function CutAt(r: Repo, files: Tree, merge: Merger, cut: Cut): Repo
    requires WellFormed(r) && Reaches(r, files, merge, cut)
  {
    var advanced := Shipped(r, files);
    match cut
    case AtStart => r
    case AfterShipping => advanced
    case AfterEdits => EditsKept(advanced)
    case InFastForward(work) => EditsKept(advanced).(main := advanced.shipped, work := work)
    case InMerge(work, settled) => EditsKept(advanced).(work := work, settled := settled)
    case AfterMerge(work, settled) =>
      var kept := EditsKept(advanced);
      Merged(kept, merge(kept.commits, kept.main, kept.shipped).tree).(work := work, settled := settled)
  }

  // ── What every step keeps ────────────────────────────────────────────────

  /** Nothing committed is lost: commits are only added, and the old tip of
      `main` is in the history of the new one. */
  ghost predicate Continues(r: Repo, r': Repo) {
    && WellFormed(r) && WellFormed(r') && r.commits <= r'.commits
    && Ancestor(r'.commits, r.main, r'.main) && Ancestor(r'.commits, r.shipped, r'.shipped)
  }

  /** The files `work` are those of a commit in the history of `main`. */
  ghost predicate Saved(r: Repo, work: Tree)
    requires WellFormed(r)
  {
    exists c :: 0 <= c < |r.commits| && r.commits[c].tree == work && Ancestor(r.commits, c, r.main)
  }

  lemma ContinuesTransitive(r: Repo, s: Repo, t: Repo)
    requires Continues(r, s) && Continues(s, t)
    ensures Continues(r, t)
  {
    AncestorStays(s.commits, t.commits, r.main, s.main);
    AncestorStays(s.commits, t.commits, r.shipped, s.shipped);
    AncestorTransitive(t.commits, r.main, s.main, t.main);
    AncestorTransitive(t.commits, r.shipped, s.shipped, t.shipped);
  }

  lemma SavedStays(r: Repo, r': Repo, work: Tree)
    requires Continues(r, r') && Saved(r, work)
    ensures Saved(r', work)
  {
    var c :| 0 <= c < |r.commits| && r.commits[c].tree == work && Ancestor(r.commits, c, r.main);
    AncestorStays(r.commits, r'.commits, c, r.main);
    AncestorTransitive(r'.commits, c, r.main, r'.main);
  }

  lemma CommitRooted(r: Repo, tree: Tree, parents: seq<nat>)
    requires WellFormed(r) && forall k :: 0 <= k < |parents| ==> parents[k] < |r.commits|
    ensures WellFormed(WithCommit(r, tree, parents))
    ensures forall k :: 0 <= k < |parents| ==> Ancestor(WithCommit(r, tree, parents).commits, parents[k], |r.commits|)
  {
    var commits := WithCommit(r, tree, parents).commits;
    forall k | 0 <= k < |parents| ensures Ancestor(commits, parents[k], |r.commits|) {
      assert commits[|r.commits|].parents[k] == parents[k];
      assert Ancestor(commits, parents[k], parents[k]);
    }
  }

  lemma ShippedContinues(r: Repo, files: Tree)
    requires WellFormed(r)
    ensures Continues(r, Shipped(r, files))
    ensures Shipped(r, files).commits[Shipped(r, files).shipped].tree == files
    ensures Shipped(r, files).main == r.main && Shipped(r, files).work == r.work
    ensures Shipped(Shipped(r, files), files) == Shipped(r, files)
  {
    if r.commits[r.shipped].tree != files {
      CommitRooted(r, files, [r.shipped]);
      assert [r.shipped][0] == r.shipped;
    }
  }

  lemma EditsKeptContinues(r: Repo)
    requires WellFormed(r)
    ensures Continues(r, EditsKept(r)) && EditsKept(r).shipped == r.shipped
    ensures !Dirty(EditsKept(r)) && Saved(EditsKept(r), r.work) && EditsKept(r).work == r.work
    ensures !UpToDate(r) ==> !UpToDate(EditsKept(r))
  {
    if Dirty(r) {
      var r' := EditsKept(r);
      CommitRooted(r, r.work, [r.main]);
      assert [r.main][0] == r.main;
      AncestorStays(r.commits, r'.commits, r.shipped, r.main);
      assert r'.commits[r'.main].parents == [r.main];
    }
  }

  lemma MergedContinues(r: Repo, tree: Tree)
    requires WellFormed(r)
    ensures Continues(r, Merged(r, tree)) && UpToDate(Merged(r, tree))
  {
    var parents := [r.main, r.shipped];
    CommitRooted(r, tree, parents);
    assert parents[0] == r.main && parents[1] == r.shipped;
  }

  lemma IntegratedContinues(r: Repo, merge: Merger, left: Tree, edits: bool)
    requires WellFormed(r) && !Dirty(r) && !UpToDate(r)
    ensures
      var (r', outcome) := Integrated(r, merge, left, edits);
      && Continues(r, r') && r'.shipped == r.shipped
      && Saved(r', r.work)
      && (outcome.conflict.None? <==> UpToDate(r'))
  {
    assert Saved(r, r.work);
    if FastForward(r) {
      SavedStays(r, r.(main := r.shipped), r.work);
    } else if merge(r.commits, r.main, r.shipped).Clean? {
      var merged := Merged(r, merge(r.commits, r.main, r.shipped).tree);
      MergedContinues(r, merge(r.commits, r.main, r.shipped).tree);
      SavedStays(r, merged, r.work);
    }
  }

  /** What was shipped is in: `main`, of which `kept` was the tip with the edits
      committed, holds `files` where it had nothing of its own and otherwise what the
      merge of the two tips gave, and the working tree holds every file of it. */
  ghost predicate BroughtIn(kept: Repo, files: Tree, merge: Merger, r': Repo)
    requires WellFormed(kept) && WellFormed(r')
  {
    var tip := r'.commits[r'.main].tree;
    && (if Ancestor(kept.commits, kept.main, kept.shipped) then tip == files
        else merge(kept.commits, kept.main, kept.shipped) == Clean(tip))
    && forall p :: p in tip ==> p in r'.work && r'.work[p] == tip[p]
  }

  /** What an update reports: that it brought something in, that it committed edits, or
      the paths the merge could not settle. */
  ghost predicate Reports(r: Repo, files: Tree, merge: Merger, outcome: Outcome)
    requires WellFormed(r)
  {
    var advanced := Shipped(r, files);
    var kept := EditsKept(advanced);
    var behind := !Ancestor(advanced.commits, advanced.shipped, advanced.main);
    && !outcome.initialized
    && (outcome.editsCommitted <==> behind && r.work != r.commits[r.main].tree)
    && (outcome.updated <==> behind && outcome.conflict.None?)
    && (outcome.conflict.Some? <==>
          behind && !Ancestor(kept.commits, kept.main, kept.shipped)
          && merge(kept.commits, kept.main, kept.shipped).Conflict?)
    && (outcome.conflict.Some? ==>
          merge(kept.commits, kept.main, kept.shipped) == Conflict(outcome.conflict.value))
  }

  lemma UpdateReports(r: Repo, files: Tree, merge: Merger, left: Tree)
    requires WellFormed(r)
    ensures Reports(r, files, merge, Updated(r, files, merge, left).1)
  {
    ShippedContinues(r, files);
  }

  lemma IntegratedBringsIn(r: Repo, files: Tree, merge: Merger, left: Tree, edits: bool)
    requires WellFormed(r) && !Dirty(r) && !UpToDate(r) && r.commits[r.shipped].tree == files
    ensures
      var (r', outcome) := Integrated(r, merge, left, edits);
      WellFormed(r') && if outcome.updated then BroughtIn(r, files, merge, r') else r'.work == r.work
  {
  }

  /** An update continues the history, keeps the files it found in it, and leaves
      on `default` what was shipped. */
  lemma UpdateContinues(r: Repo, files: Tree, merge: Merger, left: Tree)
    requires WellFormed(r)
    ensures
      var (r', outcome) := Updated(r, files, merge, left);
      && Continues(r, r')
      && r'.commits[r'.shipped].tree == files
      && (r'.work == r.work || Saved(r', r.work))
      && (outcome.conflict.None? <==> UpToDate(r'))
      && (if outcome.updated then BroughtIn(EditsKept(Shipped(r, files)), files, merge, r')
          else r'.work == r.work)
  {
    var advanced := Shipped(r, files);
    ShippedContinues(r, files);
    if !UpToDate(advanced) {
      var kept := EditsKept(advanced);
      EditsKeptContinues(advanced);
      ContinuesTransitive(r, advanced, kept);
      IntegratedContinues(kept, merge, left, Dirty(advanced));
      IntegratedBringsIn(kept, files, merge, left, Dirty(advanced));
      ContinuesTransitive(r, kept, Integrated(kept, merge, left, Dirty(advanced)).0);
    }
  }

  /** Neither does an update that fails part-way lose anything. */
  lemma CutContinues(r: Repo, files: Tree, merge: Merger, cut: Cut)
    requires WellFormed(r) && Reaches(r, files, merge, cut)
    ensures
      var r' := CutAt(r, files, merge, cut);
      && Continues(r, r') && (r'.work == r.work || Saved(r', r.work))
      && (!Late(cut) ==> r'.work == r.work)
      && (r'.shipped == r.shipped || r'.commits[r'.shipped].tree == files)
  {
    var r', advanced := CutAt(r, files, merge, cut), Shipped(r, files);
    ShippedContinues(r, files);
    if !cut.AtStart? && !cut.AfterShipping? {
      var kept := EditsKept(advanced);
      EditsKeptContinues(advanced);
      ContinuesTransitive(r, advanced, kept);
      if cut.AfterMerge? {
        MergedContinues(kept, merge(kept.commits, kept.main, kept.shipped).tree);
      }
      assert Continues(kept, r');
      ContinuesTransitive(r, kept, r');
      SavedStays(kept, r', r.work);
    }
  }

  /** After an update that did not conflict, the same update does nothing,
      whatever the user edits in between. */
  lemma SecondUpdateIsNoop(r: Repo, files: Tree, merge: Merger, left: Tree, edited: Tree, left': Tree)
    requires WellFormed(r) && Updated(r, files, merge, left).1.conflict.None?
    ensures WellFormed(Updated(r, files, merge, left).0)
    ensures
      var r' := Updated(r, files, merge, left).0.(work := edited);
      Updated(r', files, merge, left') == (r', NOTHING_DONE)
  {
    UpdateContinues(r, files, merge, left);
  }

  /** After a conflict `main` holds the user's files, and the same update meets
      the same conflict and changes nothing. */
  lemma ConflictIsMetAgain(r: Repo, files: Tree, merge: Merger, left: Tree, left': Tree)
    requires WellFormed(r) && Updated(r, files, merge, left).1.conflict.Some?
    ensures
      var (r', outcome) := Updated(r, files, merge, left);
      && WellFormed(r')
      && r'.work == r.work && r'.commits[r'.main].tree == r.work
      && Updated(r', files, merge, left') == (r', outcome.(editsCommitted := false))
  {
    var advanced := Shipped(r, files);
    ShippedContinues(r, files);
    EditsKeptContinues(advanced);
    var kept := EditsKept(advanced);
    assert Shipped(kept, files) == kept;
    assert EditsKept(kept) == kept;
  }

  // ── The update as it is performed ────────────────────────────────────────

  class Checkout {
    var repo: Repo

    /** First run: one commit, both branches on it. */
    constructor (files: Tree, left: Tree)
      ensures WellFormed(repo) && UpToDate(repo) && repo.commits[repo.main].tree == files
      ensures repo.onMain && repo.settled && forall p :: p in files ==> p in repo.work && repo.work[p] == files[p]
    {
      repo := CheckedOut(Repo([Commit(files, [])], 0, 0, map[], true, true), left);
    }

    /** Brings the shipped commit into `main`; any call to git may fail. */
    method Integrate(merge: Merger, left: Tree, edits: bool, faulty: bool)
      returns (r: Result<Outcome, Refusal>, ghost cut: Cut)
      requires WellFormed(repo) && !Dirty(repo) && repo.settled
      modifies this
      ensures r.Ok? ==> (repo, r.value) == Integrated(old(repo), merge, left, edits)
      ensures r.Err? ==> r == Err(Failed) && CutsIntegrating(old(repo), merge, cut, repo)
      ensures !faulty ==> r.Ok?
    {
      cut := AfterEdits;
      var fails: bool, written: Tree := *, *;
      if faulty && fails {
        return Err(Failed), cut;
      }
      if FastForward(repo) {
        repo := repo.(main := repo.shipped);
        fails := *;
        if faulty && fails {
          repo := repo.(work := written);
          return Err(Failed), InFastForward(written);
        }
        repo := CheckedOut(repo, left);
        return Ok(Outcome(false, true, edits, None)), cut;
      }
      repo := repo.(work := written, settled := false);
      fails := *;
      if faulty && fails {
        return Err(Failed), InMerge(written, false);
      }
      match merge(repo.commits, repo.main, repo.shipped) {
        case Conflict(paths) =>
          r, cut := Undo(paths, edits, faulty);
        case Clean(tree) =>
          repo := Merged(repo, tree);
          r, cut := CheckOut(left, edits, faulty);
      }
    }

    /** Puts `main` back after a conflict: the merge state first, then the files. */
    method Undo(paths: seq<string>, edits: bool, faulty: bool) returns (r: Result<Outcome, Refusal>, ghost cut: Cut)
      requires WellFormed(repo) && !repo.settled
      modifies this
      ensures r.Ok? ==> r.value == Outcome(false, false, edits, Some(paths))
      ensures r.Ok? ==> repo == old(repo).(settled := true, work := old(repo).commits[old(repo).main].tree)
      ensures r.Err? ==>
        cut.InMerge? && r == Err(Failed) && repo == old(repo).(work := cut.work, settled := cut.settled)
      ensures !faulty ==> r.Ok?
    {
      var fails: bool, written: Tree := *, *;
      if faulty && fails {
        return Err(Failed), InMerge(repo.work, false);
      }
      repo := repo.(settled := true);
      fails := *;
      if faulty && fails {
        repo := repo.(work := written);
        return Err(Failed), InMerge(written, true);
      }
      repo := repo.(work := repo.commits[repo.main].tree);
      return Ok(Outcome(false, false, edits, Some(paths))), AfterEdits;
    }

    /** Finishes a merge that was committed: the merge state, then the files. */
    method CheckOut(left: Tree, edits: bool, faulty: bool) returns (r: Result<Outcome, Refusal>, ghost cut: Cut)
      requires WellFormed(repo) && !repo.settled
      modifies this
      ensures r.Ok? ==> r.value == Outcome(false, true, edits, None)
      ensures r.Ok? ==> repo == CheckedOut(old(repo).(settled := true), left)
      ensures r.Err? ==>
        cut.AfterMerge? && r == Err(Failed) && repo == old(repo).(work := cut.work, settled := cut.settled)
      ensures !faulty ==> r.Ok?
    {
      var fails: bool, written: Tree := *, *;
      if faulty && fails {
        return Err(Failed), AfterMerge(repo.work, false);
      }
      repo := repo.(settled := true);
      fails := *;
      if faulty && fails {
        repo := repo.(work := written);
        return Err(Failed), AfterMerge(written, true);
      }
      repo := CheckedOut(repo, left);
      return Ok(Outcome(false, true, edits, None)), AfterEdits;
    }

    /** An update; any call to git may fail. */
    method Update(files: Tree, merge: Merger, left: Tree, faulty: bool)
      returns (r: Result<Outcome, Refusal>, ghost cut: Cut)
      requires WellFormed(repo)
      modifies this
      ensures !old(repo).onMain || !old(repo).settled ==> r == Err(Refused) && repo == old(repo)
      ensures r.Ok? ==> (repo, r.value) == Updated(old(repo), files, merge, left)
      ensures r == Err(Failed) ==>
        Reaches(old(repo), files, merge, cut) && repo == CutAt(old(repo), files, merge, cut)
      ensures Continues(old(repo), repo)
      ensures repo.work == old(repo).work || Saved(repo, old(repo).work)
      ensures r.Ok? ==> Reports(old(repo), files, merge, r.value)
      ensures r.Ok? ==>
        if r.value.updated then BroughtIn(EditsKept(Shipped(old(repo), files)), files, merge, repo)
        else repo.work == old(repo).work
      ensures !faulty && old(repo).onMain && old(repo).settled ==> r.Ok?
    {
      if !repo.onMain || !repo.settled {
        return Err(Refused), AtStart;
      }
      r, cut := UpdateMain(files, merge, left, faulty);
      CutContinues(old(repo), files, merge, if r.Err? then cut else AtStart);
      UpdateContinues(old(repo), files, merge, left);
      UpdateReports(old(repo), files, merge, left);
    }

    /** The same on a settled `main`. */
    method UpdateMain(files: Tree, merge: Merger, left: Tree, faulty: bool)
      returns (r: Result<Outcome, Refusal>, ghost cut: Cut)
      requires WellFormed(repo) && repo.settled
      modifies this
      ensures r.Ok? ==> (repo, r.value) == Updated(old(repo), files, merge, left)
      ensures r.Err? ==>
        r == Err(Failed) && Reaches(old(repo), files, merge, cut) && repo == CutAt(old(repo), files, merge, cut)
      ensures !faulty ==> r.Ok?
    {
      var fails: bool := *;
      if faulty && fails {
        return Err(Failed), AtStart;
      }
      repo := Shipped(repo, files);
      fails := *;
      if faulty && fails {
        return Err(Failed), AfterShipping;
      }
      if UpToDate(repo) {
        return Ok(NOTHING_DONE), AtStart;
      }
      r, cut := KeepAndIntegrate(merge, left, faulty);
      if r.Err? {
        CutIsAt(old(repo), files, merge, cut, repo);
      }
    }

    /** Commits the edits found and brings the shipped commit in. */
    method KeepAndIntegrate(merge: Merger, left: Tree, faulty: bool)
      returns (r: Result<Outcome, Refusal>, ghost cut: Cut)
      requires WellFormed(repo) && repo.settled
      modifies this
      ensures WellFormed(EditsKept(old(repo)))
      ensures r.Ok? ==> (repo, r.value) == Integrated(EditsKept(old(repo)), merge, left, Dirty(old(repo)))
      ensures r.Err? ==> r == Err(Failed) && CutsKeeping(old(repo), merge, cut, repo)
      ensures !faulty ==> r.Ok?
    {
      var edits := Dirty(repo);
      EditsKeptContinues(repo);
      var fails: bool := *;
      if faulty && fails {
        return Err(Failed), AfterShipping;
      }
      if edits {
        repo := EditsKept(repo);
      }
      r, cut := Integrate(merge, left, edits, faulty);
    }
  }

  /** What a failing call to git leaves of bringing the shipped commit in. */
  ghost predicate CutsIntegrating(r: Repo, merge: Merger, cut: Cut, r': Repo)
    requires WellFormed(r)
  {
    match cut
    case AtStart => false
    case AfterShipping => false
    case AfterEdits => r' == r
    case InFastForward(work) => FastForward(r) && r' == r.(main := r.shipped, work := work)
    case InMerge(work, settled) =>
      && !FastForward(r) && (settled ==> merge(r.commits, r.main, r.shipped).Conflict?)
      && r' == r.(work := work, settled := settled)
    case AfterMerge(work, settled) =>
      && !FastForward(r) && merge(r.commits, r.main, r.shipped).Clean?
      && r' == Merged(r, merge(r.commits, r.main, r.shipped).tree).(work := work, settled := settled)
  }

  ghost predicate CutsKeeping(r: Repo, merge: Merger, cut: Cut, r': Repo)
    requires WellFormed(r)
  {
    if cut.AfterShipping? then r' == r
    else WellFormed(EditsKept(r)) && CutsIntegrating(EditsKept(r), merge, cut, r')
  }

  lemma CutIsAt(r: Repo, files: Tree, merge: Merger, cut: Cut, r': Repo)
    requires WellFormed(r) && WellFormed(Shipped(r, files)) && !UpToDate(Shipped(r, files))
    requires CutsKeeping(Shipped(r, files), merge, cut, r')
    ensures Reaches(r, files, merge, cut) && r' == CutAt(r, files, merge, cut)
  {
  }

  // ── Whole runs ───────────────────────────────────────────────────────────

  /** What happens to a repository: an update, one that fails part-way, an edit of its files, a commit or a
      merge of `default` by hand, a switch of branches or an unfinished merge. */
  datatype Event =
    | Sync(files: Tree, left: Tree)
    | FailedSync(files: Tree, cut: Cut)
    | Edit(work: Tree)
    | HandCommit(withDefault: bool)
    | Elsewhere(onMain: bool, settled: bool, found: Tree)

  ghost predicate Step(r: Repo, e: Event, merge: Merger, r': Repo)
    requires WellFormed(r)
  {
    match e
    case Sync(files, left) => r' == if r.onMain && r.settled then Updated(r, files, merge, left).0 else r
    case FailedSync(files, cut) =>
      r.onMain && r.settled && Reaches(r, files, merge, cut) && r' == CutAt(r, files, merge, cut)
    case Edit(work) => r' == r.(work := work)
    case HandCommit(withDefault) =>
      r' == if r.onMain then CommittedByHand(r, withDefault) else r
    case Elsewhere(onMain, settled, found) => r' == r.(onMain := onMain, settled := settled, work := found)
  }

  function CommittedByHand(r: Repo, withDefault: bool): Repo {
    WithCommit(r, r.work, [r.main] + if withDefault then [r.shipped] else []).(main := |r.commits|, settled := true)
  }

  lemma StepContinues(r: Repo, e: Event, merge: Merger, r': Repo)
    requires WellFormed(r) && Step(r, e, merge, r')
    ensures Continues(r, r')
  {
    match e
    case Sync(files, left) => UpdateContinues(r, files, merge, left);
    case FailedSync(files, cut) => CutContinues(r, files, merge, cut);
    case HandCommit(withDefault) =>
      var parents := [r.main] + if withDefault then [r.shipped] else [];
      CommitRooted(r, r.work, parents);
      assert parents[0] == r.main;
    case _ =>
  }

  ghost predicate Run(states: seq<Repo>, events: seq<Event>, merge: Merger) {
    && |states| == |events| + 1 && WellFormed(states[0])
    && forall i :: 0 <= i < |events| ==> WellFormed(states[i]) && Step(states[i], events[i], merge, states[i + 1])
  }

  /** The files of the last update that was not refused, unless one failed since. */
  ghost function LastShipped(states: seq<Repo>, events: seq<Event>, n: nat): Option<Tree>
    requires n <= |events| < |states|
  {
    if n == 0 || events[n - 1].FailedSync? then None
    else if events[n - 1].Sync? && states[n - 1].onMain && states[n - 1].settled then Some(events[n - 1].files)
    else LastShipped(states, events, n - 1)
  }

  /** In every run, each earlier tip of `main` is in the history of each later one. */
  lemma {:induction false} HistoryOnlyGrows(states: seq<Repo>, events: seq<Event>, merge: Merger, i: nat, j: nat)
    requires Run(states, events, merge) && i <= j < |states|
    ensures Continues(states[i], states[j])
    decreases j
  {
    if j > 0 {
      StepContinues(states[j - 1], events[j - 1], merge, states[j]);
    }
    if i < j {
      HistoryOnlyGrows(states, events, merge, i, j - 1);
      ContinuesTransitive(states[i], states[j - 1], states[j]);
    }
  }

  /** In every run, `default` holds what was last shipped. */
  lemma {:induction false} DefaultIsLastShipped(states: seq<Repo>, events: seq<Event>, merge: Merger, n: nat)
    requires Run(states, events, merge) && n <= |events|
    ensures WellFormed(states[n]) && Holds(states[n], LastShipped(states, events, n))
  {
    if n > 0 {
      DefaultIsLastShipped(states, events, merge, n - 1);
      StepShips(states[n - 1], events[n - 1], merge, states[n]);
      NextHolds(states[n - 1], events[n - 1], states[n], LastShipped(states, events, n - 1));
    }
  }

  /** `default` holds those files, if any. */
  ghost predicate Holds(r: Repo, files: Option<Tree>)
    requires WellFormed(r)
  {
    files.Some? ==> r.commits[r.shipped].tree == files.value
  }

  lemma NextHolds(r: Repo, e: Event, r': Repo, last: Option<Tree>)
    requires WellFormed(r) && WellFormed(r') && Holds(r, last)
    requires e.Sync? && r.onMain && r.settled ==> r'.commits[r'.shipped].tree == e.files
    requires !e.FailedSync? && !(e.Sync? && r.onMain && r.settled) ==>
      r'.commits[r'.shipped].tree == r.commits[r.shipped].tree
    ensures Holds(r', if e.FailedSync? then None
                      else if e.Sync? && r.onMain && r.settled then Some(e.files) else last)
  {
  }

  /** What a step leaves on `default`: what it shipped, else what was there. */
  lemma StepShips(r: Repo, e: Event, merge: Merger, r': Repo)
    requires WellFormed(r) && Step(r, e, merge, r')
    ensures WellFormed(r')
    ensures e.Sync? && r.onMain && r.settled ==> r'.commits[r'.shipped].tree == e.files
    ensures !e.FailedSync? && !(e.Sync? && r.onMain && r.settled) ==>
      r'.commits[r'.shipped].tree == r.commits[r.shipped].tree
  {
    StepContinues(r, e, merge, r');
    if e.Sync? && r.onMain && r.settled {
      UpdateContinues(r, e.files, merge, e.left);
    } else if !e.FailedSync? {
      assert r'.shipped == r.shipped;
    }
  }

  // ── Whose files an update commits ────────────────────────────────────────

  /** Who writes the working tree in a step: nobody; the user, or a checkout that
      completes; or a merge or checkout that fails. */
  datatype Writer = Nobody | Owner | Cutoff

  ghost function WriterOf(r: Repo, e: Event, merge: Merger): Writer
    requires WellFormed(r)
  {
    match e
    case Sync(files, left) =>
      if r.onMain && r.settled && Updated(r, files, merge, left).1.updated then Owner else Nobody
    case FailedSync(_, cut) => if Late(cut) then Cutoff else Nobody
    case HandCommit(_) => Nobody
    case Edit(_) => Owner
    case Elsewhere(_, _, _) => Owner
  }

  /** A step in which nobody writes the files leaves them alone. */
  lemma UnwrittenStays(r: Repo, e: Event, merge: Merger, r': Repo)
    requires WellFormed(r) && Step(r, e, merge, r') && WriterOf(r, e, merge) == Nobody
    ensures r'.work == r.work
  {
    if e.FailedSync? {
      CutContinues(r, e.files, merge, e.cut);
    } else if e.Sync? && r.onMain && r.settled {
      NothingBroughtIn(r, e.files, merge, e.left);
    }
  }

  /** The files the user, or the last completed checkout, left. */
  ghost function UsersFiles(states: seq<Repo>, writers: seq<Writer>, n: nat): Tree
    requires n <= |writers| < |states|
  {
    if n == 0 || writers[n - 1] == Owner then states[n].work else UsersFiles(states, writers, n - 1)
  }

  /** The files an update that failed in its merge or its checkout left since then. */
  ghost function CutFiles(states: seq<Repo>, writers: seq<Writer>, n: nat): Option<Tree>
    requires n <= |writers| < |states|
  {
    if n == 0 || writers[n - 1] == Owner then None
    else if writers[n - 1] == Cutoff then Some(states[n].work)
    else CutFiles(states, writers, n - 1)
  }

  /** Who writes in each step of a run. */
  ghost predicate AreWriters(states: seq<Repo>, events: seq<Event>, merge: Merger, writers: seq<Writer>)
    requires Run(states, events, merge)
  {
    |writers| == |events| && forall i :: 0 <= i < |events| ==> writers[i] == WriterOf(states[i], events[i], merge)
  }

  lemma UnwrittenStay(states: seq<Repo>, events: seq<Event>, merge: Merger, writers: seq<Writer>)
    requires Run(states, events, merge) && AreWriters(states, events, merge, writers)
    ensures forall i {:trigger writers[i]} :: 0 <= i < |writers| && writers[i] == Nobody ==>
      states[i + 1].work == states[i].work
  {
    forall i | 0 <= i < |writers| && writers[i] == Nobody ensures states[i + 1].work == states[i].work {
      UnwrittenStays(states[i], events[i], merge, states[i + 1]);
    }
  }

  /** The working tree is what a failed update left of it, if one did since the user
      or a checkout last wrote it, and otherwise theirs. */
  lemma {:induction false} WhoWroteLast(states: seq<Repo>, writers: seq<Writer>, n: nat)
    requires n <= |writers| < |states|
    requires forall i {:trigger writers[i]} :: 0 <= i < |writers| && writers[i] == Nobody ==>
      states[i + 1].work == states[i].work
    ensures states[n].work ==
      match CutFiles(states, writers, n)
      case Some(work) => work
      case None => UsersFiles(states, writers, n)
  {
    if n > 0 && writers[n - 1] == Nobody {
      WhoWroteLast(states, writers, n - 1);
    }
  }

  lemma NothingBroughtIn(r: Repo, files: Tree, merge: Merger, left: Tree)
    requires WellFormed(r) && !Updated(r, files, merge, left).1.updated
    ensures Updated(r, files, merge, left).0.work == r.work
  {
    ShippedContinues(r, files);
    if !UpToDate(Shipped(r, files)) {
      EditsKeptContinues(Shipped(r, files));
    }
  }

  /** The commit an update makes of the edits it finds. */
  lemma EditsAreCommitted(r: Repo, files: Tree, merge: Merger, left: Tree)
    requires WellFormed(r) && Updated(r, files, merge, left).1.editsCommitted
    ensures
      var r', c := Updated(r, files, merge, left).0, |Shipped(r, files).commits|;
      && WellFormed(r') && c < |r'.commits| && r'.commits[c].tree == r.work && Ancestor(r'.commits, c, r'.main)
  {
    var advanced := Shipped(r, files);
    ShippedContinues(r, files);
    EditsKeptContinues(advanced);
    IntegratedContinues(EditsKept(advanced), merge, left, true);
    TipStays(EditsKept(advanced), Updated(r, files, merge, left).0);
  }

  /** The tip of `main` stays in the history with its tree. */
  lemma TipStays(r: Repo, r': Repo)
    requires Continues(r, r')
    ensures r'.commits[r.main].tree == r.commits[r.main].tree && Ancestor(r'.commits, r.main, r'.main)
  {
  }

  /** In every run, what an update commits as the user's edits are files the user or
      a completed checkout left exactly when no update failed in its merge or its
      checkout since, or the last that did left those very files. */
  lemma CommittedEditsAreTheUsers(
    states: seq<Repo>, events: seq<Event>, merge: Merger, writers: seq<Writer>, n: nat)
    requires Run(states, events, merge) && AreWriters(states, events, merge, writers)
    requires n < |events| && events[n].Sync? && states[n].onMain && states[n].settled
    requires Updated(states[n], events[n].files, merge, events[n].left).1.editsCommitted
    ensures
      var c := |Shipped(states[n], events[n].files).commits|;
      && WellFormed(states[n + 1]) && c < |states[n + 1].commits|
      && Ancestor(states[n + 1].commits, c, states[n + 1].main)
      && (states[n + 1].commits[c].tree == UsersFiles(states, writers, n) <==>
            CutFiles(states, writers, n).None? || CutFiles(states, writers, n).value == UsersFiles(states, writers, n))
  {
    EditsAreCommitted(states[n], events[n].files, merge, events[n].left);
    UnwrittenStay(states, events, merge, writers);
    WhoWroteLast(states, writers, n);
  }

  /** The failure that spoils it: a conflict whose merge state was cleaned up and
      whose files were not put back. The next update sees a settled repository
      and commits what the merge wrote. */
  lemma MarkersAreCommitted(r: Repo, files: Tree, merge: Merger, left: Tree, markers: Tree, kept: Repo, cut: Repo)
    requires WellFormed(r) && Reaches(r, files, merge, InMerge(markers, true))
    requires kept == CutAt(r, files, merge, AfterEdits) && cut == CutAt(r, files, merge, InMerge(markers, true))
    requires kept.main < |kept.commits| && markers != kept.commits[kept.main].tree
    ensures WellFormed(cut) && cut.settled && Updated(cut, files, merge, left).1.editsCommitted
    ensures
      var after := Updated(cut, files, merge, left).0;
      |cut.commits| < |after.commits| && after.commits[|cut.commits|].tree == markers
  {
    ShippedContinues(r, files);
    EditsKeptContinues(Shipped(r, files));
    assert cut == kept.(work := markers, settled := true);
    SameHistory(kept, cut);
    EditsAreCommitted(cut, files, merge, left);
  }

  lemma SameHistory(r: Repo, r': Repo)
    requires WellFormed(r) && r'.commits == r.commits && r'.main == r.main && r'.shipped == r.shipped
    ensures WellFormed(r') && (UpToDate(r') <==> UpToDate(r))
  {
  }
}
