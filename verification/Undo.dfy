/**
 The undo selection: what an undo or a redo takes back, decided from a read of
 the append-only operation log.
 */
module Undo {
  import opened Prelude
  import Sorting

  const ORIGIN_WATCHER := "watcher"

  /** One operation of the log. */
  datatype LogOp = LogOp(
    id: int,
    labelId: int,
    opType: string,
    revertsOpId: Option<int>,
    origin: Option<string>)

  /** The labels of a log read, by id: name and parent. */
  type Labels = map<int, (string, Option<int>)>

  datatype Candidate = Candidate(labelId: int, name: string)

  datatype Selection = Selection(op: int, candidates: seq<Candidate>)

  predicate IsWatcherOp(opType: string) {
    opType == "file_deleted" || opType == "file_moved" || opType == "file_modified"
  }

  predicate IsDaemons(op: LogOp) {
    || op.origin == Some(ORIGIN_WATCHER)
    || (op.revertsOpId.None? && IsWatcherOp(op.opType))
    || op.opType == "unknown"
  }

  /** Whether an undo may take `op` back, the log's first operation aside. */
  predicate Takes(op: LogOp, undone: set<int>) {
    !IsDaemons(op) && op.revertsOpId.None? && op.id !in undone
  }

  /** Whether the redo scan steps over `op`. */
  predicate StepsOver(op: LogOp, undone: set<int>, reverts: set<int>) {
    || IsDaemons(op)
    || (op.revertsOpId.Some? && op.revertsOpId.value in reverts)
    || op.id in undone
  }

  /** A change the user wrote, by its fields: no revert, and neither the watcher's, by
      its origin or by its type, nor an unlogged write. */
  predicate UsersChange(op: LogOp) {
    && op.revertsOpId.None? && op.origin != Some("watcher")
    && op.opType != "file_deleted" && op.opType != "file_moved" && op.opType != "file_modified"
    && op.opType != "unknown"
  }

  /** A revert the user asked for, by its fields, whatever type it carries over. */
  predicate UsersRevert(op: LogOp) {
    op.revertsOpId.Some? && op.origin != Some("watcher") && op.opType != "unknown"
  }

  // ── What a log promises ──────────────────────────────────────────────────

  /** An id names one operation. */
  ghost predicate IdsNameOps(ops: seq<LogOp>) {
    forall a, b :: a in ops && b in ops && a.id == b.id ==> a == b
  }

  /** A revert is newer than what it reverts. */
  ghost predicate RevertsOlder(ops: seq<LogOp>) {
    forall op :: op in ops && op.revertsOpId.Some? ==> op.revertsOpId.value < op.id
  }

  ghost predicate LogLike(ops: seq<LogOp>) {
    IdsNameOps(ops) && RevertsOlder(ops)
  }

  /** Some operation of `ops` reverting `id` is not undone. */
  ghost predicate HeldBack(ops: seq<LogOp>, undone: set<int>, id: int) {
    exists r :: r in ops && r.revertsOpId == Some(id) && r.id !in undone
  }

  /** `undone` answers the recursive question: an operation is undone exactly
      when some reverter of it is not. */
  ghost predicate Settled(ops: seq<LogOp>, undone: set<int>) {
    && (forall id :: id in undone ==> exists op :: op in ops && op.id == id)
    && (forall op :: op in ops ==> (op.id in undone <==> HeldBack(ops, undone, op.id)))
  }

  // ── Newest first ─────────────────────────────────────────────────────────

  predicate NoOlder(a: LogOp, b: LogOp) {
    a.id >= b.id
  }

  /** The library sort by descending id. */
  function NewestFirst(ops: seq<LogOp>): seq<LogOp> {
    Sorting.SortBy(ops, NoOlder)
  }

  ghost predicate Descending(s: seq<LogOp>) {
    forall i, j :: 0 <= i < j < |s| ==> s[i].id >= s[j].id
  }

  /** The sort orders the read newest first and loses or repeats nothing. */
  lemma NewestFirstSorts(ops: seq<LogOp>)
    ensures Descending(NewestFirst(ops))
    ensures multiset(NewestFirst(ops)) == multiset(ops)
    ensures forall o :: o in NewestFirst(ops) <==> o in ops
  {
    Sorting.SortKeeps(ops, NoOlder);
    Sorting.SortSorts(ops, NoOlder);
    forall i, j | 0 <= i < j < |NewestFirst(ops)| ensures NewestFirst(ops)[i].id >= NewestFirst(ops)[j].id {
      assert NoOlder(NewestFirst(ops)[i], NewestFirst(ops)[j]);
    }
  }

  // ── The single pass ──────────────────────────────────────────────────────

  /** The undone set after the pass has settled the first `k` operations. */
  ghost function Pass(nf: seq<LogOp>, k: nat): set<int>
    requires k <= |nf|
  {
    if k == 0 then {}
    else
      var before := Pass(nf, k - 1);
      if HeldBack(nf, before, nf[k - 1].id) then before + {nf[k - 1].id} else before
  }

  lemma {:induction false} PassSettlesPrefix(nf: seq<LogOp>, k: nat)
    requires k <= |nf| && Descending(nf) && LogLike(nf)
    ensures forall id :: id in Pass(nf, k) ==> exists i :: 0 <= i < k && nf[i].id == id
    ensures forall i :: 0 <= i < k ==> (nf[i].id in Pass(nf, k) <==> HeldBack(nf, Pass(nf, k), nf[i].id))
  {
    if k > 0 {
      PassSettlesPrefix(nf, k - 1);
      var before, after, last := Pass(nf, k - 1), Pass(nf, k), nf[k - 1];
      forall id | id in after ensures exists i :: 0 <= i < k && nf[i].id == id {
        if id in before {
          var i :| 0 <= i < k - 1 && nf[i].id == id;
        } else {
          assert nf[k - 1].id == id;
        }
      }
      forall i | 0 <= i < k ensures nf[i].id in after <==> HeldBack(nf, after, nf[i].id) {
        SameReverters(nf, before, after, nf[i].id, last.id);
        if nf[i].id == last.id && i < k - 1 {
          assert nf[i] in nf && last in nf;
        }
      }
    }
  }

  /** Settling an operation does not touch the reverters of one at least as new. */
  lemma SameReverters(nf: seq<LogOp>, before: set<int>, after: set<int>, id: int, settled: int)
    requires LogLike(nf) && id >= settled
    requires before <= after <= before + {settled}
    ensures HeldBack(nf, before, id) <==> HeldBack(nf, after, id)
  {
    forall r | r in nf && r.revertsOpId == Some(id) ensures r.id in before <==> r.id in after {}
  }

  /** Which operations of a read are undone right now. */
  ghost function Undone(ops: seq<LogOp>): set<int> {
    var nf := NewestFirst(ops);
    Pass(nf, |nf|)
  }

  /** The one newest-first pass answers the recursive question. */
  lemma PassSettles(ops: seq<LogOp>)
    requires LogLike(ops)
    ensures Settled(ops, Undone(ops))
    ensures forall op :: op in ops ==>
      (op.id in Undone(ops) <==> exists r :: r in ops && r.revertsOpId == Some(op.id) && r.id !in Undone(ops))
  {
    var nf := NewestFirst(ops);
    NewestFirstSorts(ops);
    PassSettlesPrefix(nf, |nf|);
    var u := Undone(ops);
    forall id ensures HeldBack(nf, u, id) <==> HeldBack(ops, u, id) {
      if HeldBack(ops, u, id) {
        var r :| r in ops && r.revertsOpId == Some(id) && r.id !in u;
        assert r in nf;
      }
    }
    forall op | op in ops ensures op.id in u <==> HeldBack(ops, u, op.id) {
      assert op in nf;
      var i :| 0 <= i < |nf| && nf[i] == op;
    }
    forall id | id in u ensures exists op :: op in ops && op.id == id {
      var i :| 0 <= i < |nf| && nf[i].id == id;
      assert nf[i] in ops;
    }
  }

  ghost function MaxId(ops: seq<LogOp>): (m: int)
    ensures forall op :: op in ops ==> op.id <= m
  {
    if ops == [] then 0
    else
      var m := MaxId(ops[1..]);
      assert forall op :: op in ops ==> op == ops[0] || op in ops[1..];
      if ops[0].id > m then ops[0].id else m
  }

  lemma {:induction false} SettledAgree(ops: seq<LogOp>, u: set<int>, v: set<int>, op: LogOp)
    requires LogLike(ops) && Settled(ops, u) && Settled(ops, v) && op in ops
    ensures op.id in u <==> op.id in v
    decreases MaxId(ops) - op.id
  {
    forall r | r in ops && r.revertsOpId == Some(op.id) ensures r.id in u <==> r.id in v {
      ReverterIsNewer(ops, r, op.id);
      SettledAgree(ops, u, v, r);
    }
    SameReverted(ops, u, v, op.id);
  }

  lemma ReverterIsNewer(ops: seq<LogOp>, r: LogOp, id: int)
    requires RevertsOlder(ops) && r in ops && r.revertsOpId == Some(id)
    ensures id < r.id <= MaxId(ops)
  {
  }

  lemma SameReverted(ops: seq<LogOp>, u: set<int>, v: set<int>, id: int)
    requires forall r :: r in ops && r.revertsOpId == Some(id) ==> (r.id in u <==> r.id in v)
    ensures HeldBack(ops, u, id) <==> HeldBack(ops, v, id)
  {
  }

  /** The recursive question has one answer. */
  lemma SettledUnique(ops: seq<LogOp>, u: set<int>)
    requires LogLike(ops) && Settled(ops, u)
    ensures u == Undone(ops)
  {
    PassSettles(ops);
    forall id ensures id in u <==> id in Undone(ops) {
      if id in u {
        var op :| op in ops && op.id == id;
        SettledAgree(ops, u, Undone(ops), op);
      }
      if id in Undone(ops) {
        var op :| op in ops && op.id == id;
        SettledAgree(ops, u, Undone(ops), op);
      }
    }
  }

  // ── The two scans ────────────────────────────────────────────────────────

  ghost function UndoScan(nf: seq<LogOp>, undone: set<int>, first: Option<int>): Option<LogOp> {
    if nf == [] then None
    else if Some(nf[0].id) == first then None
    else if Takes(nf[0], undone) then Some(nf[0])
    else UndoScan(nf[1..], undone, first)
  }

  ghost function RedoScan(nf: seq<LogOp>, undone: set<int>, reverts: set<int>): Option<LogOp> {
    if nf == [] then None
    else if StepsOver(nf[0], undone, reverts) then RedoScan(nf[1..], undone, reverts)
    else if nf[0].revertsOpId.Some? then Some(nf[0])
    else None
  }

  function RevertIds(ops: seq<LogOp>): set<int> {
    set op | op in ops && op.revertsOpId.Some? :: op.id
  }

  /** The operation an undo of this read takes back. */
  ghost function UndoOp(ops: seq<LogOp>, first: Option<int>): Option<LogOp> {
    UndoScan(NewestFirst(ops), Undone(ops), first)
  }

  /** The undo a redo of this read takes back. */
  ghost function RedoOp(ops: seq<LogOp>): Option<LogOp> {
    RedoScan(NewestFirst(ops), Undone(ops), RevertIds(ops))
  }

  ghost predicate StopsUndo(op: LogOp, undone: set<int>, first: Option<int>) {
    Some(op.id) == first || Takes(op, undone)
  }

  lemma {:induction false} UndoScanFinds(nf: seq<LogOp>, undone: set<int>, first: Option<int>, x: LogOp)
    requires Descending(nf) && IdsNameOps(nf) && x in nf
    requires StopsUndo(x, undone, first)
    requires forall y :: y in nf && y.id > x.id ==> !StopsUndo(y, undone, first)
    ensures UndoScan(nf, undone, first) == if Some(x.id) == first then None else Some(x)
  {
    if nf[0] != x {
      assert nf[0].id >= x.id;
      assert nf[0] in nf;
      assert x in nf[1..];
      assert forall y :: y in nf[1..] ==> y in nf;
      UndoScanFinds(nf[1..], undone, first, x);
    }
  }

  lemma {:induction false} UndoScanFindsNone(nf: seq<LogOp>, undone: set<int>, first: Option<int>)
    requires forall y :: y in nf ==> !StopsUndo(y, undone, first)
    ensures UndoScan(nf, undone, first).None?
  {
    if nf != [] {
      assert nf[0] in nf;
      UndoScanFindsNone(nf[1..], undone, first);
    }
  }

  lemma {:induction false} RedoScanFinds(nf: seq<LogOp>, undone: set<int>, reverts: set<int>, x: LogOp)
    requires Descending(nf) && IdsNameOps(nf) && x in nf
    requires !StepsOver(x, undone, reverts)
    requires forall y :: y in nf && y.id > x.id ==> StepsOver(y, undone, reverts)
    ensures RedoScan(nf, undone, reverts) == if x.revertsOpId.Some? then Some(x) else None
  {
    if nf[0] != x {
      assert nf[0].id >= x.id;
      assert nf[0] in nf;
      assert x in nf[1..];
      assert forall y :: y in nf[1..] ==> y in nf;
      RedoScanFinds(nf[1..], undone, reverts, x);
    }
  }

  lemma {:induction false} RedoScanFindsNone(nf: seq<LogOp>, undone: set<int>, reverts: set<int>)
    requires forall y :: y in nf ==> StepsOver(y, undone, reverts)
    ensures RedoScan(nf, undone, reverts).None?
  {
    if nf != [] {
      assert nf[0] in nf;
      RedoScanFindsNone(nf[1..], undone, reverts);
    }
  }

  /** The newest operation `x` that stops the undo scan decides it. */
  lemma UndoDecided(ops: seq<LogOp>, first: Option<int>, x: LogOp)
    requires IdsNameOps(ops) && x in ops && StopsUndo(x, Undone(ops), first)
    requires forall y :: y in ops && y.id > x.id ==> !StopsUndo(y, Undone(ops), first)
    ensures UndoOp(ops, first) == if Some(x.id) == first then None else Some(x)
  {
    NewestFirstSorts(ops);
    UndoScanFinds(NewestFirst(ops), Undone(ops), first, x);
  }

  lemma RedoDecided(ops: seq<LogOp>, x: LogOp)
    requires IdsNameOps(ops) && x in ops && !StepsOver(x, Undone(ops), RevertIds(ops))
    requires forall y :: y in ops && y.id > x.id ==> StepsOver(y, Undone(ops), RevertIds(ops))
    ensures RedoOp(ops) == if x.revertsOpId.Some? then Some(x) else None
  {
    NewestFirstSorts(ops);
    RedoScanFinds(NewestFirst(ops), Undone(ops), RevertIds(ops), x);
  }

  lemma {:induction false} UndoScanSome(nf: seq<LogOp>, undone: set<int>, first: Option<int>)
    requires Descending(nf) && UndoScan(nf, undone, first).Some?
    ensures var x := UndoScan(nf, undone, first).value;
      && x in nf && Takes(x, undone) && Some(x.id) != first
      && forall y :: y in nf && y.id > x.id ==> !StopsUndo(y, undone, first)
  {
    if Takes(nf[0], undone) {
      assert forall y :: y in nf ==> nf[0].id >= y.id;
    } else {
      UndoScanSome(nf[1..], undone, first);
      assert forall y :: y in nf ==> y == nf[0] || y in nf[1..];
    }
  }

  /** What undo answers: the newest operation the user wrote that is no revert
      and still stands, newer than the log's first operation. */
  lemma UndoAnswer(ops: seq<LogOp>, first: Option<int>)
    ensures UndoOp(ops, first).Some? ==>
      var x := UndoOp(ops, first).value;
      && x in ops && UsersChange(x) && x.id !in Undone(ops) && Some(x.id) != first
      && forall y :: y in ops && y.id > x.id ==> !(UsersChange(y) && y.id !in Undone(ops)) && Some(y.id) != first
    ensures IdsNameOps(ops) && UndoOp(ops, first).None? ==>
      forall x :: x in ops && UsersChange(x) && x.id !in Undone(ops) ==>
        exists f :: f in ops && Some(f.id) == first && f.id >= x.id
  {
    NewestFirstSorts(ops);
    if UndoOp(ops, first).Some? {
      UndoScanSome(NewestFirst(ops), Undone(ops), first);
      var x := UndoOp(ops, first).value;
      forall y | y in ops && y.id > x.id
        ensures !(UsersChange(y) && y.id !in Undone(ops)) && Some(y.id) != first
      {
        assert !StopsUndo(y, Undone(ops), first);
      }
    } else if IdsNameOps(ops) {
      forall x | x in ops && UsersChange(x) && x.id !in Undone(ops)
        ensures exists f :: f in ops && Some(f.id) == first && f.id >= x.id
      {
        if forall f :: f in ops && Some(f.id) == first ==> f.id < x.id {
          UndoReaches(ops, first, x);
        }
      }
    }
  }

  lemma {:induction false} UndoReaches(ops: seq<LogOp>, first: Option<int>, x: LogOp)
    requires IdsNameOps(ops) && x in ops && Takes(x, Undone(ops))
    requires forall f :: f in ops && Some(f.id) == first ==> f.id < x.id
    ensures UndoOp(ops, first).Some?
    decreases MaxId(ops) - x.id
  {
    if y :| y in ops && y.id > x.id && StopsUndo(y, Undone(ops), first) {
      UndoReaches(ops, first, y);
    } else {
      UndoDecided(ops, first, x);
    }
  }

  /** An undo in force: a revert of a change, itself not reverted. */
  ghost predicate UndoInForce(ops: seq<LogOp>, x: LogOp) {
    && x in ops && UsersRevert(x) && x.id !in Undone(ops)
    && forall r :: r in ops && Some(r.id) == x.revertsOpId ==> r.revertsOpId.None?
  }

  ghost predicate StandingChange(ops: seq<LogOp>, x: LogOp) {
    x in ops && UsersChange(x) && x.id !in Undone(ops)
  }

  /** What redo answers: the newest undo in force, with no standing change above it;
      nothing where there is no undo in force or a standing change is above them all. */
  lemma RedoAnswer(ops: seq<LogOp>)
    requires IdsNameOps(ops)
    ensures RedoOp(ops).Some? ==>
      var x := RedoOp(ops).value;
      UndoInForce(ops, x) && forall y: LogOp :: y.id > x.id ==> !UndoInForce(ops, y) && !StandingChange(ops, y)
    ensures RedoOp(ops).None? ==>
      forall x: LogOp :: UndoInForce(ops, x) ==> exists c: LogOp :: StandingChange(ops, c) && c.id > x.id
  {
    if x :| x in ops && !StepsOver(x, Undone(ops), RevertIds(ops)) {
      var b := NewestStop(ops, x);
      RedoDecided(ops, b);
      forall y: LogOp | UndoInForce(ops, y) || StandingChange(ops, y) ensures y.id <= b.id {
        StopsByFields(ops, y);
      }
      StopsByFields(ops, b);
    } else {
      NewestFirstSorts(ops);
      RedoScanFindsNone(NewestFirst(ops), Undone(ops), RevertIds(ops));
      forall y: LogOp ensures !UndoInForce(ops, y) {
        StopsByFields(ops, y);
      }
    }
  }

  /** What the redo scan stops at, by its fields. */
  lemma StopsByFields(ops: seq<LogOp>, x: LogOp)
    ensures x in ops && !StepsOver(x, Undone(ops), RevertIds(ops)) <==> UndoInForce(ops, x) || StandingChange(ops, x)
  {
    if x in ops && x.revertsOpId.Some? {
      if x.revertsOpId.value in RevertIds(ops) {
        var r :| r in ops && r.revertsOpId.Some? && r.id == x.revertsOpId.value;
        assert Some(r.id) == x.revertsOpId;
      }
    }
  }

  lemma {:induction false} NewestStop(ops: seq<LogOp>, x: LogOp) returns (b: LogOp)
    requires x in ops && !StepsOver(x, Undone(ops), RevertIds(ops))
    ensures b in ops && !StepsOver(b, Undone(ops), RevertIds(ops))
    ensures forall y :: y in ops && y.id > b.id ==> StepsOver(y, Undone(ops), RevertIds(ops))
    decreases MaxId(ops) - x.id
  {
    if y :| y in ops && y.id > x.id && !StepsOver(y, Undone(ops), RevertIds(ops)) {
      b := NewestStop(ops, y);
    } else {
      b := x;
    }
  }

  lemma HeadsAgree(s: seq<LogOp>, t: seq<LogOp>)
    requires s != [] && t != [] && Descending(s) && Descending(t) && IdsNameOps(s)
    requires s[0] in t && t[0] in s
    ensures s[0] == t[0]
  {
    assert s[0].id == t[0].id;
  }

  lemma TailMultiset(s: seq<LogOp>)
    requires s != []
    ensures multiset(s[1..]) == multiset(s) - multiset{s[0]}
  {
    assert s == [s[0]] + s[1..];
  }

  lemma TailNames(s: seq<LogOp>)
    requires s != [] && IdsNameOps(s)
    ensures IdsNameOps(s[1..])
  {
    assert forall o :: o in s[1..] ==> o in s;
  }

  lemma SameLength(s: seq<LogOp>, t: seq<LogOp>)
    requires multiset(s) == multiset(t)
    ensures |s| == |t|
  {
    assert |s| == |multiset(s)| == |multiset(t)| == |t|;
  }

  lemma TailsAgree(s: seq<LogOp>, t: seq<LogOp>)
    requires s != [] && t != [] && Descending(s) && Descending(t) && IdsNameOps(s) && multiset(s) == multiset(t)
    ensures s[0] == t[0] && multiset(s[1..]) == multiset(t[1..])
  {
    assert s[0] in multiset(t) && t[0] in multiset(s);
    HeadsAgree(s, t);
    TailMultiset(s);
    TailMultiset(t);
  }

  lemma {:induction false} SortedOnce(s: seq<LogOp>, t: seq<LogOp>)
    requires Descending(s) && Descending(t) && IdsNameOps(s) && multiset(s) == multiset(t)
    ensures s == t
  {
    SameLength(s, t);
    if s != [] {
      TailsAgree(s, t);
      TailNames(s);
      SortedOnce(s[1..], t[1..]);
      SameAgain(s, t);
    }
  }

  lemma SameAgain(s: seq<LogOp>, t: seq<LogOp>)
    requires s != [] && t != [] && s[0] == t[0] && s[1..] == t[1..]
    ensures s == t
  {
    assert s == [s[0]] + s[1..] && t == [t[0]] + t[1..];
  }

  /** The order a log body lists its operations in changes neither selection. */
  lemma ReadOrderIrrelevant(ops: seq<LogOp>, body: seq<LogOp>, first: Option<int>)
    requires IdsNameOps(ops) && multiset(body) == multiset(ops)
    ensures UndoOp(body, first) == UndoOp(ops, first)
    ensures RedoOp(body) == RedoOp(ops)
  {
    NewestFirstSorts(ops);
    NewestFirstSorts(body);
    SortedOnce(NewestFirst(ops), NewestFirst(body));
    assert forall o :: o in ops <==> o in multiset(ops);
    assert forall o :: o in body <==> o in multiset(body);
    assert RevertIds(ops) == RevertIds(body);
  }

  // ── The code ─────────────────────────────────────────────────────────────

  /** The operations reverting each operation. */
  method Reverters(ops: seq<LogOp>) returns (reverters: map<int, seq<int>>)
    ensures Indexes(reverters, ops)
  {
    reverters := map[];
    for i := 0 to |ops|
      invariant Indexes(reverters, ops[..i])
    {
      var op := ops[i];
      assert ops[..i + 1] == ops[..i] + [op];
      if op.revertsOpId.Some? {
        var target := op.revertsOpId.value;
        var known := if target in reverters then reverters[target] else [];
        reverters := reverters[target := known + [op.id]];
      }
    }
    assert ops[..|ops|] == ops;
  }

  /** The read's operations newest first, and which of them are undone. */
  method Window(ops: seq<LogOp>) returns (newestFirst: seq<LogOp>, undone: set<int>)
    ensures newestFirst == NewestFirst(ops)
    ensures undone == Undone(ops)
    ensures LogLike(ops) ==> Settled(ops, undone)
  {
    newestFirst := NewestFirst(ops);
    var reverters := Reverters(newestFirst);
    undone := {};
    for i := 0 to |newestFirst|
      invariant undone == Pass(newestFirst, i)
    {
      var op := newestFirst[i];
      if op.id in reverters && exists k :: 0 <= k < |reverters[op.id]| && reverters[op.id][k] !in undone {
        ghost var k :| 0 <= k < |reverters[op.id]| && reverters[op.id][k] !in undone;
        ghost var id := reverters[op.id][k];
        assert id in reverters[op.id];
        ghost var r :| r in newestFirst && r.revertsOpId == Some(op.id) && r.id == id;
        assert HeldBack(newestFirst, undone, op.id);
        undone := undone + {op.id};
      } else {
        assert !HeldBack(newestFirst, undone, op.id);
      }
    }
    if LogLike(ops) {
      PassSettles(ops);
    }
  }

  /** `reverters` lists, for each target, the ids of the operations reverting it. */
  ghost predicate Indexes(reverters: map<int, seq<int>>, ops: seq<LogOp>) {
    && (forall op :: op in ops && op.revertsOpId.Some? ==>
          op.revertsOpId.value in reverters && op.id in reverters[op.revertsOpId.value])
    && (forall target, id :: target in reverters && id in reverters[target] ==>
          exists op :: op in ops && op.revertsOpId == Some(target) && op.id == id)
  }

  /** The labels `innermost` is in, innermost first, as far as the read names them;
      a cycle is cut where it closes. */
  method Chain(innermost: int, labels: Labels) returns (out: seq<Candidate>)
    ensures IsChain(out, innermost, labels)
  {
    out := [];
    var next := Some(innermost);
    ghost var seen: set<int> := {};
    while next.Some?
      invariant forall id :: id in seen <==> exists i :: 0 <= i < |out| && out[i].labelId == id
      invariant if out == [] then next == Some(innermost)
                else out[0].labelId == innermost && next == ParentOf(labels, out[|out| - 1].labelId)
      invariant forall i, j :: 0 <= i < j < |out| ==> out[i].labelId != out[j].labelId
      invariant forall i :: 0 <= i < |out| ==> out[i].name == NameOf(labels, out[i].labelId)
      invariant forall i :: 0 <= i < |out| - 1 ==> ParentOf(labels, out[i].labelId) == Some(out[i + 1].labelId)
      decreases labels.Keys - seen, if next.Some? then 1 else 0
    {
      var id := next.value;
      if exists i :: 0 <= i < |out| && out[i].labelId == id {
        break;
      }
      ghost var before := out;
      out := out + [Candidate(id, NameOf(labels, id))];
      assert forall i :: 0 <= i < |before| ==> out[i] == before[i];
      assert out[|before|].labelId == id;
      seen := seen + {id};
      next := ParentOf(labels, id);
    }
    forall i | 0 <= i < |out| - 1
      ensures out[i].labelId in labels && labels[out[i].labelId].1 == Some(out[i + 1].labelId)
    {
      assert ParentOf(labels, out[i].labelId) == Some(out[i + 1].labelId);
    }
  }

  /** From the innermost label out, each the parent of the one before, none twice,
      with their names; the last has no parent or one already listed. */
  ghost predicate IsChain(out: seq<Candidate>, innermost: int, labels: Labels) {
    && |out| > 0 && out[0].labelId == innermost
    && (forall i, j :: 0 <= i < j < |out| ==> out[i].labelId != out[j].labelId)
    && (forall i :: 0 <= i < |out| ==>
          out[i].name == if out[i].labelId in labels then labels[out[i].labelId].0 else "")
    && (forall i :: 0 <= i < |out| - 1 ==>
          out[i].labelId in labels && labels[out[i].labelId].1 == Some(out[i + 1].labelId))
    && (var last := out[|out| - 1].labelId;
        last in labels && labels[last].1.Some? ==>
          exists i :: 0 <= i < |out| && out[i].labelId == labels[last].1.value)
  }

  function NameOf(labels: Labels, id: int): string {
    if id in labels then labels[id].0 else ""
  }

  function ParentOf(labels: Labels, id: int): Option<int> {
    if id in labels then labels[id].1 else None
  }

  /** The undo decision. */
  method UndoSelect(ops: seq<LogOp>, labels: Labels, first: Option<int>) returns (r: Option<Selection>)
    ensures r.Some? <==> UndoOp(ops, first).Some?
    ensures r.Some? ==>
      && r.value.op == UndoOp(ops, first).value.id
      && IsChain(r.value.candidates, UndoOp(ops, first).value.labelId, labels)
  {
    var newestFirst, undone := Window(ops);
    var op := FindUndo(newestFirst, undone, first);
    if op.None? {
      return None;
    }
    var candidates := Chain(op.value.labelId, labels);
    return Some(Selection(op.value.id, candidates));
  }

  method FindUndo(newestFirst: seq<LogOp>, undone: set<int>, first: Option<int>) returns (r: Option<LogOp>)
    ensures r == UndoScan(newestFirst, undone, first)
  {
    assert newestFirst[0..] == newestFirst;
    for i := 0 to |newestFirst|
      invariant UndoScan(newestFirst, undone, first) == UndoScan(newestFirst[i..], undone, first)
    {
      var op := newestFirst[i];
      assert newestFirst[i..][1..] == newestFirst[i + 1..];
      if Some(op.id) == first {
        return None;
      }
      if IsDaemons(op) || op.revertsOpId.Some? || op.id in undone {
        continue;
      }
      return Some(op);
    }
    return None;
  }

  /** The redo decision. */
  method RedoSelect(ops: seq<LogOp>, labels: Labels) returns (r: Option<Selection>)
    ensures r.Some? <==> RedoOp(ops).Some?
    ensures r.Some? ==>
      && r.value.op == RedoOp(ops).value.id
      && IsChain(r.value.candidates, RedoOp(ops).value.labelId, labels)
  {
    var newestFirst, undone := Window(ops);
    NewestFirstSorts(ops);
    var reverts := RevertIds(newestFirst);
    assert reverts == RevertIds(ops);
    var op := FindRedo(newestFirst, undone, reverts);
    if op.None? {
      return None;
    }
    var candidates := Chain(op.value.labelId, labels);
    return Some(Selection(op.value.id, candidates));
  }

  method FindRedo(newestFirst: seq<LogOp>, undone: set<int>, reverts: set<int>) returns (r: Option<LogOp>)
    ensures r == RedoScan(newestFirst, undone, reverts)
  {
    assert newestFirst[0..] == newestFirst;
    for i := 0 to |newestFirst|
      invariant RedoScan(newestFirst, undone, reverts) == RedoScan(newestFirst[i..], undone, reverts)
    {
      var op := newestFirst[i];
      assert newestFirst[i..][1..] == newestFirst[i + 1..];
      if IsDaemons(op) {
        continue;
      }
      match op.revertsOpId {
        case Some(target) =>
          if target in reverts {
            continue;
          }
          if op.id in undone {
            continue;
          }
          return Some(op);
        case None =>
          if op.id in undone {
            continue;
          }
          return None;
      }
    }
    return None;
  }
}
