/**
 Answers about tags: the entry an answer creates, the batch it plans, what the
 batch does to a record, and what every run of answers keeps.
 */
module TagAnswers {
  import opened Prelude
  import Sorting
  import opened TagPaths
  import opened TagVocab

  datatype Answer = Add | Deny | Mixed | Remove

  datatype Field = PositiveField | NegativeField | MixedField

  /** One write of a batch. */
  datatype Op =
    | Create(uuid: Uuid, parent: Option<Uuid>, name: string)
    | AddRef(field: Field, uuid: Uuid)
    | RemoveRef(field: Field, uuid: Uuid)

  /** The tag references of a record, each field a set of entries. */
  datatype Record = Record(positive: set<Uuid>, negative: set<Uuid>, mixed: set<Uuid>)

  // ── Growing the vocabulary ───────────────────────────────────────────────

  ghost predicate IsFresh(v: Vocab, next: nat) {
    forall u :: u in v.paths || u in v.flags ==> u < next
  }

  /** The paths of a new entry `path`: one below each path of its parent. */
  function NewPaths(v: Vocab, path: string): (r: seq<string>) {
    match Parent(path)
    case Some(par) => Below(PathsOf(v, par), path[|par|..])
    case None => [path]
  }

  function Below(ps: seq<string>, tail: string): (r: seq<string>)
    ensures |r| == |ps| && forall i :: 0 <= i < |ps| ==> r[i] == ps[i] + tail
  {
    seq(|ps|, i requires 0 <= i < |ps| => ps[i] + tail)
  }

  function AllTo(ps: seq<string>, u: Uuid): map<string, Uuid> {
    map p | p in ps :: u
  }

  function WithEntry(v: Vocab, path: string, u: Uuid): Vocab {
    var ps := NewPaths(v, path);
    v.(name2uuid := v.name2uuid + AllTo(ps, u), names := v.names + ps, paths := v.paths[u := ps])
  }

  /** The vocabulary once `path` is ensured, and the next unused uuid. */
  function Ensured(v: Vocab, next: nat, path: string): (Vocab, nat)
    decreases |path|
  {
    if path in v.name2uuid then (v, next)
    else
      var (v1, f1) := match Parent(path) case Some(par) => Ensured(v, next, par) case None => (v, next);
      (WithEntry(v1, path, f1), f1 + 1)
  }

  /** `v'` adds entries to `v` and changes none. */
  ghost predicate Grows(v: Vocab, v': Vocab) {
    && v'.flags == v.flags
    && (forall n :: n in v.name2uuid ==> IsPathOf(v', n, v.name2uuid[n]))
    && (forall n :: n in v'.name2uuid && n !in v.name2uuid ==> v'.name2uuid[n] !in v.paths)
    && (forall u :: u in v.paths ==> u in v'.paths)
  }

  lemma NewPathsAre(v: Vocab, path: string, par: string)
    requires WellFormed(v) && Parent(path) == Some(par) && par in v.name2uuid
    ensures forall p :: p in NewPaths(v, path) <==>
      exists q :: IsPathOf(v, q, v.name2uuid[par]) && p == Moved(path, par, q)
    ensures path in NewPaths(v, path)
  {
    PathsAreAll(v, par);
    var ps := PathsOf(v, par);
    forall p
      ensures p in NewPaths(v, path) <==> exists q :: IsPathOf(v, q, v.name2uuid[par]) && p == Moved(path, par, q)
    {
      if q :| IsPathOf(v, q, v.name2uuid[par]) && p == Moved(path, par, q) {
        assert q in ps;
        var i :| 0 <= i < |ps| && ps[i] == q;
        assert NewPaths(v, path)[i] == p;
      }
      if p in NewPaths(v, path) {
        var i :| 0 <= i < |ps| && NewPaths(v, path)[i] == p;
        assert ps[i] in ps;
        assert p == Moved(path, par, ps[i]);
      }
    }
    assert path == Moved(path, par, par);
    assert IsPathOf(v, par, v.name2uuid[par]);
  }

  /** A path put under another parent path has that parent. */
  lemma MovedParent(path: string, par: string, q: string)
    requires Parent(path) == Some(par)
    ensures Parent(Moved(path, par, q)) == Some(q)
    ensures Moved(Moved(path, par, q), q, par) == path
  {
    var m := Moved(path, par, q);
    assert m[|q|] == path[|par|] == '/';
    assert forall j :: |q| < j < |m| ==> m[j] == path[j - |q| + |par|];
    assert LastSlash(m) == Some(|q|);
    assert m[..|q|] == q;
    assert path == par + path[|par|..];
  }

  /** None of the new paths was there: another one below the same parent would
      have brought `path` with it. */
  lemma NewPathsAreNew(v: Vocab, path: string)
    requires WellFormed(v) && path !in v.name2uuid
    requires Parent(path).Some? ==> Parent(path).value in v.name2uuid
    ensures forall p :: p in NewPaths(v, path) ==> p !in v.name2uuid
    ensures path in NewPaths(v, path)
  {
    if Parent(path).Some? {
      var par := Parent(path).value;
      NewPathsAre(v, path, par);
      forall p | p in NewPaths(v, path) ensures p !in v.name2uuid {
        var q :| IsPathOf(v, q, v.name2uuid[par]) && p == Moved(path, par, q);
        MovesBack(v, path, par, q, p);
      }
    }
  }

  lemma MovesBack(v: Vocab, path: string, par: string, q: string, p: string)
    requires WellFormed(v) && Parent(path) == Some(par) && par in v.name2uuid
    requires IsPathOf(v, q, v.name2uuid[par]) && p == Moved(path, par, q)
    ensures p in v.name2uuid ==> path in v.name2uuid
  {
    MovedParent(path, par, q);
    assert IsPathOf(v, par, v.name2uuid[q]);
    if p in v.name2uuid {
      assert IsPathOf(v, Moved(p, q, par), v.name2uuid[p]);
    }
  }

  lemma WithEntryTables(v: Vocab, path: string, u: Uuid)
    requires WellFormed(v) && path !in v.name2uuid && u !in v.paths
    requires forall p :: p in NewPaths(v, path) ==> p !in v.name2uuid
    ensures var v' := WithEntry(v, path, u);
      && TablesAgree(v') && Grows(v, v')
      && forall n :: n in v'.name2uuid <==> n in v.name2uuid || n in NewPaths(v, path)
  {
  }

  lemma WithEntryClosed(v: Vocab, path: string, u: Uuid)
    requires WellFormed(v) && path !in v.name2uuid && u !in v.paths
    requires Parent(path).Some? ==> Parent(path).value in v.name2uuid
    ensures WellFormed(WithEntry(v, path, u)) && Grows(v, WithEntry(v, path, u))
    ensures IsPathOf(WithEntry(v, path, u), path, u)
  {
    NewPathsAreNew(v, path);
    WithEntryTables(v, path, u);
    var v' := WithEntry(v, path, u);
    forall n | n in v'.name2uuid && Parent(n).Some?
      ensures Parent(n).value in v.name2uuid
    {
      NewParents(v, path, n);
    }
    forall n, q | n in v'.name2uuid && Parent(n).Some? && IsPathOf(v', q, v'.name2uuid[Parent(n).value])
      ensures IsPathOf(v', Moved(n, Parent(n).value, q), v'.name2uuid[n])
    {
      NewParents(v, path, n);
      var par := Parent(n).value;
      assert IsPathOf(v, q, v.name2uuid[par]);
      if n in v.name2uuid {
        assert IsPathOf(v, Moved(n, par, q), v.name2uuid[n]);
      } else {
        NewSiblings(v, path, n, q);
      }
    }
  }

  /** The parent of any path of the grown vocabulary was there before. */
  lemma NewParents(v: Vocab, path: string, n: string)
    requires WellFormed(v) && Parent(n).Some? && (n in v.name2uuid || n in NewPaths(v, path))
    requires Parent(path).Some? ==> Parent(path).value in v.name2uuid
    ensures Parent(n).value in v.name2uuid
    ensures n in NewPaths(v, path) ==>
      Parent(path).Some? && v.name2uuid[Parent(n).value] == v.name2uuid[Parent(path).value]
  {
    if n in NewPaths(v, path) && Parent(path).Some? {
      NewPathsAre(v, path, Parent(path).value);
      var q :| IsPathOf(v, q, v.name2uuid[Parent(path).value]) && n == Moved(path, Parent(path).value, q);
      MovedParent(path, Parent(path).value, q);
    }
  }

  /** A new path moved to another path of its parent is a new path. */
  lemma NewSiblings(v: Vocab, path: string, n: string, q: string)
    requires WellFormed(v) && Parent(path).Some? && Parent(path).value in v.name2uuid && n in NewPaths(v, path)
    requires IsPathOf(v, q, v.name2uuid[Parent(path).value])
    ensures Parent(n).Some? && Moved(n, Parent(n).value, q) in NewPaths(v, path)
  {
    var par := Parent(path).value;
    NewPathsAre(v, path, par);
    var q0 :| IsPathOf(v, q0, v.name2uuid[par]) && n == Moved(path, par, q0);
    MovedParent(path, par, q0);
    assert n[|q0|..] == path[|par|..];
    assert Moved(n, q0, q) == Moved(path, par, q);
  }

  /** Ensuring an entry keeps the vocabulary prefix-closed and closed under all
      paths, and changes no entry it had. */
  lemma {:induction false} EnsuredKeeps(v: Vocab, next: nat, path: string)
    requires WellFormed(v) && IsFresh(v, next)
    ensures var (v', next') := Ensured(v, next, path);
      WellFormed(v') && IsFresh(v', next') && Grows(v, v') && path in v'.name2uuid
    decreases |path|, 1
  {
    if path !in v.name2uuid {
      var (v1, next1) := UnderParent(v, next, path);
      if Parent(path).Some? {
        var par := Parent(path).value;
        EnsuredKeeps(v, next, par);
        AncestorIsParentOrAbove(par, path);
        EnsuredDoesNotReach(v, next, par, path);
      }
      EnsuredUnfolds(v, next, path);
      OneMoreKeeps(v, v1, next1, path);
    }
  }

  lemma OneMoreKeeps(v: Vocab, v1: Vocab, next: nat, path: string)
    requires WellFormed(v1) && IsFresh(v1, next) && Grows(v, v1) && path !in v1.name2uuid
    requires Parent(path).Some? ==> Parent(path).value in v1.name2uuid
    ensures var v' := WithEntry(v1, path, next);
      WellFormed(v') && IsFresh(v', next + 1) && Grows(v, v') && path in v'.name2uuid
  {
    WithEntryClosed(v1, path, next);
    GrowsOn(v, v1, WithEntry(v1, path, next));
  }

  lemma GrowsOn(v: Vocab, v1: Vocab, v2: Vocab)
    requires Grows(v, v1) && Grows(v1, v2)
    ensures Grows(v, v2)
  {
  }

  lemma PrefixesAreNames(v: Vocab, a: string, n: string)
    requires WellFormed(v) && n in v.name2uuid
    ensures AtOrAbovePath(a, n) ==> a in v.name2uuid
  {
    if AtOrAbovePath(a, n) {
      NodeOverPath(v, a, n);
    }
  }

  lemma NewPathsNotUnder(v: Vocab, path: string, child: string)
    requires WellFormed(v) && path !in v.name2uuid && IsAncestor(path, child)
    requires Parent(path).Some? ==> Parent(path).value in v.name2uuid
    ensures child !in NewPaths(v, path)
  {
    if Parent(path).Some? {
      var par := Parent(path).value;
      NewPathsAre(v, path, par);
      AncestorIsParentOrAbove(path, child);
      forall q | IsPathOf(v, q, v.name2uuid[par]) ensures child != Moved(path, par, q) {
        MovedParent(path, par, q);
        PrefixesAreNames(v, path, q);
      }
    }
  }

  /** Ensuring an ancestor creates nothing below the path it was asked for. */
  lemma {:induction false} EnsuredDoesNotReach(v: Vocab, next: nat, path: string, child: string)
    requires WellFormed(v) && IsFresh(v, next)
    requires IsAncestor(path, child) && child !in v.name2uuid
    ensures child !in Ensured(v, next, path).0.name2uuid
    decreases |path|, 0
  {
    if path !in v.name2uuid {
      if Parent(path).Some? {
        var par := Parent(path).value;
        assert IsAncestor(par, path) by {
          AncestorIsParentOrAbove(par, path);
        }
        AncestorTransitive(par, path, child);
        EnsuredDoesNotReach(v, next, par, child);
        EnsuredDoesNotReach(v, next, par, path);
        EnsuredKeeps(v, next, par);
        NewPathsNotUnder(Ensured(v, next, par).0, path, child);
      } else {
        NewPathsNotUnder(v, path, child);
      }
    }
  }

  // ── Growth changes no relation between the entries there were ────────────

  lemma PathsKept(v: Vocab, v': Vocab, u: Uuid, p: string)
    requires Grows(v, v') && u in v.paths
    ensures IsPathOf(v', p, u) <==> IsPathOf(v, p, u)
  {
  }

  lemma AboveKept(v: Vocab, v': Vocab, a: Uuid, b: Uuid)
    requires Grows(v, v') && a in v.paths && b in v.paths
    ensures Above(v', a, b) <==> Above(v, a, b)
  {
    forall p ensures (IsPathOf(v', p, a) <==> IsPathOf(v, p, a)) && (IsPathOf(v', p, b) <==> IsPathOf(v, p, b)) {
      PathsKept(v, v', a, p);
      PathsKept(v, v', b, p);
    }
  }

  lemma NodeKept(v: Vocab, v': Vocab, node: string, t: Uuid)
    requires WellFormed(v) && WellFormed(v') && Grows(v, v') && t in v.paths
    requires node in v'.name2uuid && AtOrAbove(v', v'.name2uuid[node], t)
    ensures node in v.name2uuid && v'.name2uuid[node] == v.name2uuid[node] && AtOrAbove(v, v.name2uuid[node], t)
  {
    var q := AboveByAnyPath(v', v'.name2uuid[node], t, node);
    PathsKept(v, v', t, q);
    PrefixesAreNames(v, node, q);
    AboveKept(v, v', v.name2uuid[node], t);
  }

  lemma ExcludesKept(v: Vocab, v': Vocab, t: Uuid, e: Uuid)
    requires WellFormed(v) && WellFormed(v') && Grows(v, v') && t in v.paths && e in v.paths
    requires Excludes(v', t, e)
    ensures Excludes(v, t, e)
  {
    AboveKept(v, v', e, t);
    var node, sibling :| Rivals(v', node, sibling)
      && AtOrAbove(v', v'.name2uuid[node], t) && AtOrAbove(v', v'.name2uuid[sibling], e);
    NodeKept(v, v', node, t);
    NodeKept(v, v', sibling, e);
    assert Rivals(v, node, sibling);
  }

  // ── What a batch does to a record ────────────────────────────────────────

  function FieldOf(r: Record, field: Field): set<Uuid> {
    match field
    case PositiveField => r.positive
    case NegativeField => r.negative
    case MixedField => r.mixed
  }

  function WithField(r: Record, field: Field, refs: set<Uuid>): Record {
    match field
    case PositiveField => r.(positive := refs)
    case NegativeField => r.(negative := refs)
    case MixedField => r.(mixed := refs)
  }

  function Drop(r: Record, field: Field, refs: set<Uuid>): Record {
    WithField(r, field, FieldOf(r, field) - refs)
  }

  function ApplyOp(r: Record, op: Op): Record {
    match op
    case Create(_, _, _) => r
    case AddRef(field, u) => WithField(r, field, FieldOf(r, field) + {u})
    case RemoveRef(field, u) => Drop(r, field, {u})
  }

  /** A record the batch selects, after its writes in order. */
  function ApplyOps(r: Record, ops: seq<Op>): Record {
    if ops == [] then r else ApplyOp(ApplyOps(r, ops[..|ops| - 1]), ops[|ops| - 1])
  }

  lemma ApplyOneMore(r: Record, ops: seq<Op>, op: Op)
    ensures ApplyOps(r, ops + [op]) == ApplyOp(ApplyOps(r, ops), op)
  {
    assert (ops + [op])[..|ops|] == ops;
  }

  // ── The rewrite an answer makes ──────────────────────────────────────────

  ghost function AboveSet(v: Vocab, t: Uuid): set<Uuid> {
    set u | u in v.paths && Above(v, u, t)
  }

  ghost function BelowSet(v: Vocab, t: Uuid): set<Uuid> {
    set u | u in v.paths && Above(v, t, u)
  }

  ghost function ExcludedSet(v: Vocab, t: Uuid): set<Uuid> {
    set u | u in v.paths && Excludes(v, t, u)
  }

  ghost function Rewrite(v: Vocab, answer: Answer, t: Uuid, r: Record): Record {
    match answer
    case Add => Record(
      (r.positive + {t}) - AboveSet(v, t) - ExcludedSet(v, t),
      r.negative - (AboveSet(v, t) + {t}),
      r.mixed - (AboveSet(v, t) + {t}))
    case Deny => Record(
      r.positive - (BelowSet(v, t) + {t}),
      (r.negative + {t}) - BelowSet(v, t),
      r.mixed - (BelowSet(v, t) + {t}))
    case Mixed => Record(
      r.positive - (BelowSet(v, t) + {t}),
      r.negative - (AboveSet(v, t) + {t}),
      r.mixed + {t})
    case Remove => r.(positive := r.positive - {t})
  }

  /** What an answer about the tag `t` makes of a record, mark by mark: it holds, and
      drops what it makes false or superfluous and nothing else. */
  ghost predicate Answers(v: Vocab, answer: Answer, t: Uuid, r: Record, r': Record) {
    match answer
    case Add =>
      && (forall u :: u in r'.positive <==> u == t || (u in r.positive && !Above(v, u, t) && !Excludes(v, t, u)))
      && (forall u :: u in r'.negative <==> u in r.negative && u != t && !Above(v, u, t))
      && (forall u :: u in r'.mixed <==> u in r.mixed && u != t && !Above(v, u, t))
    case Deny =>
      && (forall u :: u in r'.negative <==> u == t || (u in r.negative && !Above(v, t, u)))
      && (forall u :: u in r'.positive <==> u in r.positive && u != t && !Above(v, t, u))
      && (forall u :: u in r'.mixed <==> u in r.mixed && u != t && !Above(v, t, u))
    case Mixed =>
      && (forall u :: u in r'.mixed <==> u == t || u in r.mixed)
      && (forall u :: u in r'.positive <==> u in r.positive && u != t && !Above(v, t, u))
      && (forall u :: u in r'.negative <==> u in r.negative && u != t && !Above(v, u, t))
    case Remove =>
      && (forall u :: u in r'.positive <==> u in r.positive && u != t)
      && r'.negative == r.negative && r'.mixed == r.mixed
  }

  lemma RewriteAnswers(v: Vocab, answer: Answer, t: Uuid, r: Record)
    requires WellFormed(v) && t in v.paths
    ensures Answers(v, answer, t, r, Rewrite(v, answer, t, r))
  {
    Acyclic(v, t);
  }

  /** An answer about the tag at `path`; `Remove` of a tag that does not exist
      writes nothing. */
  ghost function Answered(v: Vocab, answer: Answer, path: string, r: Record): Record {
    if path in v.name2uuid then Rewrite(v, answer, v.name2uuid[path], r) else r
  }

  /** The vocabulary an answer leaves: `Remove` creates nothing. */
  function VocabAfter(v: Vocab, next: nat, answer: Answer, path: string): (Vocab, nat) {
    if answer.Remove? then (v, next) else Ensured(v, next, path)
  }

  lemma UuidsAbove(v: Vocab, path: string, above: seq<string>)
    requires WellFormed(v) && path in v.name2uuid && forall a :: a in above <==> StringAbove(v, a, path)
    ensures UuidsOf(v, above) == AboveSet(v, v.name2uuid[path])
  {
    forall u ensures u in UuidsOf(v, above) <==> u in AboveSet(v, v.name2uuid[path]) {
      StringAboveIsAbove(v, path, u);
    }
  }

  lemma UuidsWithAbove(v: Vocab, path: string, ps: seq<string>)
    requires WellFormed(v) && path in v.name2uuid && forall a :: a in ps <==> a == path || StringAbove(v, a, path)
    ensures UuidsOf(v, ps) == AboveSet(v, v.name2uuid[path]) + {v.name2uuid[path]}
  {
    forall u ensures u in UuidsOf(v, ps) <==> u in AboveSet(v, v.name2uuid[path]) + {v.name2uuid[path]} {
      StringAboveIsAbove(v, path, u);
    }
  }

  lemma UuidsBelow(v: Vocab, path: string, below: seq<string>)
    requires WellFormed(v) && path in v.name2uuid && forall d :: d in below <==> StringBelow(v, d, path)
    ensures UuidsOf(v, below) == BelowSet(v, v.name2uuid[path])
  {
    forall u ensures u in UuidsOf(v, below) <==> u in BelowSet(v, v.name2uuid[path]) {
      StringBelowIsAbove(v, path, u);
    }
  }

  lemma UuidsWithBelow(v: Vocab, path: string, ps: seq<string>)
    requires WellFormed(v) && path in v.name2uuid && forall d :: d in ps <==> d == path || StringBelow(v, d, path)
    ensures UuidsOf(v, ps) == BelowSet(v, v.name2uuid[path]) + {v.name2uuid[path]}
  {
    forall u ensures u in UuidsOf(v, ps) <==> u in BelowSet(v, v.name2uuid[path]) + {v.name2uuid[path]} {
      StringBelowIsAbove(v, path, u);
    }
  }

  lemma UuidsExcluded(v: Vocab, path: string, ps: seq<string>)
    requires WellFormed(v) && path in v.name2uuid && forall x :: x in ps <==> ExcludedPath(v, path, x)
    ensures UuidsOf(v, ps) == ExcludedSet(v, v.name2uuid[path])
  {
    forall u ensures u in UuidsOf(v, ps) <==> u in ExcludedSet(v, v.name2uuid[path]) {
      ExcludedPathIsExcludes(v, path, u);
    }
  }

  /** The entry at `path` once ensured: the one it had, else the last uuid drawn. */
  function EntryAt(v: Vocab, next: nat, path: string): Uuid {
    if path in v.name2uuid then v.name2uuid[path]
    else match Parent(path) case Some(par) => Ensured(v, next, par).1 case None => next
  }

  /** The writes creating `path` and its missing ancestors, outermost first. */
  function Creations(v: Vocab, next: nat, path: string): seq<Op>
    decreases |path|
  {
    if path in v.name2uuid then []
    else match Parent(path)
      case None => [Create(next, None, path)]
      case Some(par) =>
        Creations(v, next, par) + [Create(EntryAt(v, next, path), Some(EntryAt(v, next, par)), path[|par| + 1..])]
  }

  /** The vocabulary under which `path`, not there yet, is created. */
  function UnderParent(v: Vocab, next: nat, path: string): (Vocab, nat) {
    match Parent(path) case Some(par) => Ensured(v, next, par) case None => (v, next)
  }

  lemma {:induction false} EnsuredUnfolds(v: Vocab, next: nat, path: string)
    requires path !in v.name2uuid
    ensures var (v1, next1) := UnderParent(v, next, path);
      Ensured(v, next, path) == (WithEntry(v1, path, next1), next1 + 1) && EntryAt(v, next, path) == next1
  {
  }

  /** The entry `path` is created under, its own name, and the writes before. */
  function UnderEntry(v: Vocab, next: nat, path: string): Option<Uuid> {
    match Parent(path) case Some(par) => Some(EntryAt(v, next, par)) case None => None
  }

  function LeafOf(path: string): string {
    match Parent(path) case Some(par) => path[|par| + 1..] case None => path
  }

  function CreationsUnder(v: Vocab, next: nat, path: string): seq<Op> {
    match Parent(path) case Some(par) => Creations(v, next, par) case None => []
  }

  lemma {:induction false} CreationsUnfold(v: Vocab, next: nat, path: string, ops: seq<Op>)
    requires path !in v.name2uuid
    ensures ops + Creations(v, next, path)
      == ops + CreationsUnder(v, next, path) + [Create(EntryAt(v, next, path), UnderEntry(v, next, path), LeafOf(path))]
  {
  }

  /** The write makes an entry that was not there: a name without a slash at the top, or
      below every path of the entry it is put under. */
  ghost predicate Builds(v: Vocab, v': Vocab, op: Op) {
    && op.Create? && op.uuid !in v.paths && op.uuid in v'.paths && Parent(op.name).None?
    && match op.parent
       case None => forall p :: IsPathOf(v', p, op.uuid) <==> p == op.name
       case Some(par) => par in v'.paths && forall p :: IsPathOf(v', p, op.uuid) <==> IsBelow(v', p, par, op.name)
  }

  ghost predicate IsBelow(v: Vocab, p: string, par: Uuid, leaf: string) {
    exists q :: IsPathOf(v, q, par) && p == q + "/" + leaf
  }

  ghost predicate MakesEntry(ops: seq<Op>, u: Uuid) {
    exists op :: op in ops && op.Create? && op.uuid == u
  }

  /** The writes planned for a path make exactly the entries that were missing, each
      in its place. */
  lemma {:induction false} CreationsBuild(v: Vocab, next: nat, path: string)
    requires WellFormed(v) && IsFresh(v, next)
    ensures
      var (v', ops) := (Ensured(v, next, path).0, Creations(v, next, path));
      && (forall op :: op in ops ==> Builds(v, v', op))
      && (forall u :: u in v'.paths <==> u in v.paths || MakesEntry(ops, u))
    decreases |path|
  {
    if path !in v.name2uuid {
      var (v1, next1) := UnderParent(v, next, path);
      if Parent(path).Some? {
        var par := Parent(path).value;
        EnsuredKeeps(v, next, par);
        EnsuredNames(v, next, par);
        CreationsBuild(v, next, par);
        AncestorIsParentOrAbove(par, path);
        EnsuredDoesNotReach(v, next, par, path);
      }
      EnsuredUnfolds(v, next, path);
      CreationsUnfold(v, next, path, []);
      var last := Create(next1, UnderEntry(v, next, path), LeafOf(path));
      assert Creations(v, next, path) == CreationsUnder(v, next, path) + [last];
      LastCreationBuilds(v, v1, next1, path, CreationsUnder(v, next, path), last);
    }
  }

  /** One more entry: those made before stay in place, and so is it. */
  lemma LastCreationBuilds(v: Vocab, v1: Vocab, u: Uuid, path: string, before: seq<Op>, last: Op)
    requires WellFormed(v1) && IsFresh(v1, u) && Grows(v, v1) && path !in v1.name2uuid
    requires Parent(path).Some? ==> Parent(path).value in v1.name2uuid
    requires last == Create(u, UnderIn(v1, path), LeafOf(path))
    requires forall op :: op in before ==> Builds(v, v1, op)
    requires forall w :: w in v1.paths <==> w in v.paths || MakesEntry(before, w)
    ensures forall op :: op in before + [last] ==> Builds(v, WithEntry(v1, path, u), op)
    ensures forall w :: w in WithEntry(v1, path, u).paths <==> w in v.paths || MakesEntry(before + [last], w)
  {
    EarlierStay(v, v1, u, path, before);
    NewEntryBuilt(v, v1, u, path);
    LastEntryMade(v, v1, u, path, before, last);
  }

  lemma EarlierStay(v: Vocab, v1: Vocab, u: Uuid, path: string, before: seq<Op>)
    requires WellFormed(v1) && IsFresh(v1, u) && path !in v1.name2uuid
    requires Parent(path).Some? ==> Parent(path).value in v1.name2uuid
    requires forall op :: op in before ==> Builds(v, v1, op)
    ensures forall op :: op in before ==> Builds(v, WithEntry(v1, path, u), op)
  {
    OthersStay(v1, path, u);
    forall op | op in before ensures Builds(v, WithEntry(v1, path, u), op) {
      BuildsOn(v, v1, WithEntry(v1, path, u), op, u);
    }
  }

  lemma LastEntryMade(v: Vocab, v1: Vocab, u: Uuid, path: string, before: seq<Op>, last: Op)
    requires last.Create? && last.uuid == u
    requires forall w :: w in v1.paths <==> w in v.paths || MakesEntry(before, w)
    ensures forall w :: w in WithEntry(v1, path, u).paths <==> w in v.paths || MakesEntry(before + [last], w)
  {
    forall w ensures MakesEntry(before + [last], w) <==> MakesEntry(before, w) || w == u {
      MakesOneMore(before, last, w);
    }
  }

  lemma MakesOneMore(before: seq<Op>, last: Op, u: Uuid)
    requires last.Create?
    ensures MakesEntry(before + [last], u) <==> MakesEntry(before, u) || last.uuid == u
  {
    if op :| op in before && op.Create? && op.uuid == u {
      assert op in before + [last];
    }
    assert last in before + [last];
  }

  ghost function UnderIn(v: Vocab, path: string): Option<Uuid>
    requires Parent(path).Some? ==> Parent(path).value in v.name2uuid
  {
    match Parent(path) case Some(par) => Some(v.name2uuid[par]) case None => None
  }

  /** A new entry takes no path of another. */
  lemma OthersStay(v: Vocab, path: string, u: Uuid)
    requires WellFormed(v) && IsFresh(v, u) && path !in v.name2uuid
    requires Parent(path).Some? ==> Parent(path).value in v.name2uuid
    ensures forall p, w :: w != u ==> (IsPathOf(WithEntry(v, path, u), p, w) <==> IsPathOf(v, p, w))
    ensures forall p :: IsPathOf(WithEntry(v, path, u), p, u) <==> p in NewPaths(v, path)
  {
    NewPathsAreNew(v, path);
  }

  lemma BuildsOn(v: Vocab, v1: Vocab, v': Vocab, op: Op, next: nat)
    requires Builds(v, v1, op) && WellFormed(v1) && IsFresh(v1, next)
    requires forall p, w :: w != next ==> (IsPathOf(v', p, w) <==> IsPathOf(v1, p, w))
    requires forall w :: w in v1.paths ==> w in v'.paths
    ensures Builds(v, v', op)
  {
    if op.parent.Some? {
      var par := op.parent.value;
      forall p ensures IsBelow(v', p, par, op.name) <==> IsBelow(v1, p, par, op.name) {
        assert forall q :: IsPathOf(v', q, par) <==> IsPathOf(v1, q, par);
      }
    }
  }

  lemma NewEntryBuilt(v: Vocab, v1: Vocab, u: Uuid, path: string)
    requires WellFormed(v1) && IsFresh(v1, u) && Grows(v, v1) && path !in v1.name2uuid
    requires Parent(path).Some? ==> Parent(path).value in v1.name2uuid
    ensures Builds(v, WithEntry(v1, path, u), Create(u, UnderIn(v1, path), LeafOf(path)))
  {
    OthersStay(v1, path, u);
    LeafIsName(path);
    if Parent(path).Some? {
      forall p ensures p in NewPaths(v1, path) <==>
        IsBelow(WithEntry(v1, path, u), p, v1.name2uuid[Parent(path).value], LeafOf(path))
      {
        NewPathsBelow(v1, path, u, p);
      }
    }
  }

  lemma LeafIsName(path: string)
    ensures Parent(LeafOf(path)).None?
    ensures Parent(path).Some? ==> path[|Parent(path).value|..] == "/" + LeafOf(path)
  {
    if Parent(path).Some? {
      var k := |Parent(path).value|;
      assert path[k] == '/' && forall j :: k < j < |path| ==> path[j] != '/';
      assert forall j :: 0 <= j < |LeafOf(path)| ==> LeafOf(path)[j] == path[k + 1 + j];
    }
  }

  lemma NewPathsBelow(v: Vocab, path: string, u: Uuid, p: string)
    requires WellFormed(v) && IsFresh(v, u) && path !in v.name2uuid
    requires Parent(path).Some? && Parent(path).value in v.name2uuid
    ensures p in NewPaths(v, path) <==>
      IsBelow(WithEntry(v, path, u), p, v.name2uuid[Parent(path).value], LeafOf(path))
  {
    var par, leaf := Parent(path).value, LeafOf(path);
    var t := v.name2uuid[par];
    NewPathsAre(v, path, par);
    OthersStay(v, path, u);
    LeafIsName(path);
    forall q ensures Moved(path, par, q) == q + "/" + leaf {
      assert q + ("/" + leaf) == q + "/" + leaf;
    }
    assert forall q :: IsPathOf(WithEntry(v, path, u), q, t) <==> IsPathOf(v, q, t);
  }

  function Removals(field: Field, uuids: seq<Uuid>): seq<Op> {
    if uuids == [] then [] else Removals(field, uuids[..|uuids| - 1]) + [RemoveRef(field, uuids[|uuids| - 1])]
  }

  lemma RemovalsGrow(field: Field, uuids: seq<Uuid>, u: Uuid)
    ensures Removals(field, uuids + [u]) == Removals(field, uuids) + [RemoveRef(field, u)]
  {
    assert (uuids + [u])[..|uuids|] == uuids;
  }

  /** Removing references one by one drops them all. */
  lemma {:induction false} RemovalsDrop(r: Record, ops: seq<Op>, field: Field, uuids: seq<Uuid>)
    ensures ApplyOps(r, ops + Removals(field, uuids)) == Drop(ApplyOps(r, ops), field, set u | u in uuids)
  {
    if uuids == [] {
      assert ops + [] == ops;
    } else {
      var n := |uuids| - 1;
      var before := ops + Removals(field, uuids[..n]);
      RemovalsDrop(r, ops, field, uuids[..n]);
      ApplyOneMore(r, before, RemoveRef(field, uuids[n]));
      assert ops + Removals(field, uuids) == before + [RemoveRef(field, uuids[n])];
      assert (set u | u in uuids) == (set u | u in uuids[..n]) + {uuids[n]};
    }
  }

  lemma {:induction false} RemovalsAt(field: Field, uuids: seq<Uuid>)
    ensures |Removals(field, uuids)| == |uuids|
    ensures forall i :: 0 <= i < |uuids| ==> Removals(field, uuids)[i] == RemoveRef(field, uuids[i])
  {
    if uuids != [] {
      RemovalsAt(field, uuids[..|uuids| - 1]);
    }
  }

  /** The removals planned are those of `uuids`, each once. */
  lemma RemovalsAre(field: Field, uuids: seq<Uuid>)
    requires forall i, j :: 0 <= i < j < |uuids| ==> uuids[i] != uuids[j]
    ensures Sorting.Distinct(Removals(field, uuids))
    ensures forall op :: op in Removals(field, uuids) <==> op.RemoveRef? && op.field == field && op.uuid in uuids
  {
    RemovalsAt(field, uuids);
    forall op: Op | op.RemoveRef? && op.field == field && op.uuid in uuids ensures op in Removals(field, uuids) {
      var i :| 0 <= i < |uuids| && uuids[i] == op.uuid;
      assert Removals(field, uuids)[i] == op;
    }
  }

  /** The writes one answer makes. */
  class TagBatch {
    var vocab: Vocab
    var next: nat
    var ops: seq<Op>

    constructor (v: Vocab, unused: nat)
      ensures vocab == v && next == unused && ops == []
    {
      vocab, next, ops := v, unused, [];
    }

    /** The entry at `path`, planning its creation and that of any missing ancestor. */
    method EnsureEntry(path: string) returns (uuid: Uuid)
      modifies this
      ensures (vocab, next) == Ensured(old(vocab), old(next), path)
      ensures uuid == EntryAt(old(vocab), old(next), path)
      ensures ops == old(ops) + Creations(old(vocab), old(next), path)
      decreases |path|, 2
    {
      if path in vocab.name2uuid {
        return vocab.name2uuid[path];
      }
      uuid := CreateMissing(path);
    }

    /** Creates an entry that is not there, after what it is created under. */
    method CreateMissing(path: string) returns (uuid: Uuid)
      requires path !in vocab.name2uuid
      modifies this
      ensures (vocab, next) == Ensured(old(vocab), old(next), path)
      ensures uuid == EntryAt(old(vocab), old(next), path)
      ensures ops == old(ops) + Creations(old(vocab), old(next), path)
      decreases |path|, 1
    {
      EnsuredUnfolds(vocab, next, path);
      CreationsUnfold(vocab, next, path, ops);
      var under, leaf := EnsureParent(path);
      uuid := next;
      CreateEntry(path, under, leaf);
    }

    /** The entry to create `path` under, and its own name. */
    method EnsureParent(path: string) returns (under: Option<Uuid>, leaf: string)
      modifies this
      ensures (vocab, next) == UnderParent(old(vocab), old(next), path)
      ensures under == UnderEntry(old(vocab), old(next), path) && leaf == LeafOf(path)
      ensures ops == old(ops) + CreationsUnder(old(vocab), old(next), path)
      decreases |path|, 0
    {
      if Parent(path).Some? {
        var par := Parent(path).value;
        var uuid := EnsureEntry(par);
        under, leaf := Some(uuid), path[|par| + 1..];
      } else {
        under, leaf := None, path;
      }
    }

    method CreateEntry(path: string, under: Option<Uuid>, leaf: string)
      modifies this
      ensures ops == old(ops) + [Create(old(next), under, leaf)]
      ensures vocab == WithEntry(old(vocab), path, old(next)) && next == old(next) + 1
    {
      ops, vocab, next := ops + [Create(next, under, leaf)], WithEntry(vocab, path, next), next + 1;
    }

    method AddRefTo(field: Field, uuid: Uuid)
      modifies this`ops
      ensures ops == old(ops) + [AddRef(field, uuid)]
    {
      ops := ops + [AddRef(field, uuid)];
    }

    /** Plans the removal of each tag of `paths` the vocabulary names, once. */
    method RemoveRefs(field: Field, paths: seq<string>)
      modifies this`ops
      ensures old(ops) <= ops && Sorting.Distinct(ops[|old(ops)|..])
      ensures forall op :: op in ops[|old(ops)|..] <==>
        op.RemoveRef? && op.field == field && op.uuid in UuidsOf(vocab, paths)
      ensures forall r :: ApplyOps(r, ops) == Drop(ApplyOps(r, old(ops)), field, UuidsOf(vocab, paths))
    {
      var done: seq<Uuid> := [];
      for i := 0 to |paths|
        invariant ops == old(ops) + Removals(field, done)
        invariant forall j, k :: 0 <= j < k < |done| ==> done[j] != done[k]
        invariant forall u :: u in done <==> u in UuidsOf(vocab, paths[..i])
      {
        assert paths[..i + 1] == paths[..i] + [paths[i]];
        var path := paths[i];
        if path in vocab.name2uuid {
          var uuid := vocab.name2uuid[path];
          assert UuidsOf(vocab, paths[..i + 1]) == UuidsOf(vocab, paths[..i]) + {uuid};
          if uuid !in done {
            RemovalsGrow(field, done, uuid);
            done, ops := done + [uuid], ops + [RemoveRef(field, uuid)];
          }
        } else {
          assert UuidsOf(vocab, paths[..i + 1]) == UuidsOf(vocab, paths[..i]);
        }
      }
      assert paths[..|paths|] == paths;
      assert ops[|old(ops)|..] == Removals(field, done);
      RemovalsAre(field, done);
      assert (set u | u in done) == UuidsOf(vocab, paths);
      forall r ensures ApplyOps(r, ops) == Drop(ApplyOps(r, old(ops)), field, UuidsOf(vocab, paths)) {
        RemovalsDrop(r, old(ops), field, done);
      }
    }

    /** Ensures the entry and plans the reference to it, the beginning of every
        answer but `Remove`. */
    method Begin(path: string, field: Field)
      requires ops == []
      modifies this
      ensures (vocab, next) == Ensured(old(vocab), old(next), path)
      ensures forall r ::
        ApplyOps(r, ops) == WithField(r, field, FieldOf(r, field) + {EntryAt(old(vocab), old(next), path)})
    {
      var uuid := EnsureEntry(path);
      ghost var created := ops;
      assert created == Creations(old(vocab), old(next), path);
      AddRefTo(field, uuid);
      forall r ensures ApplyOps(r, ops) == WithField(r, field, FieldOf(r, field) + {uuid}) {
        CreationsLeaveRecords(old(vocab), old(next), path, r);
        ApplyOneMore(r, created, AddRef(field, uuid));
      }
    }

    method PlanAdd(path: string)
      requires ops == [] && WellFormed(vocab) && IsFresh(vocab, next)
      modifies this
      ensures (vocab, next) == Ensured(old(vocab), old(next), path)
      ensures forall r :: ApplyOps(r, ops) == Answered(vocab, Add, path, r)
    {
      EnsuredNames(vocab, next, path);
      Begin(path, PositiveField);
      var above := AncestorsOf(vocab, path);
      RemoveRefs(PositiveField, above);
      var excluded := ExcludedByPartitions(vocab, path);
      RemoveRefs(PositiveField, excluded);
      var contradicted := WithAncestors(vocab, path);
      RemoveRefs(NegativeField, contradicted);
      RemoveRefs(MixedField, contradicted);
      UuidsAbove(vocab, path, above);
      UuidsExcluded(vocab, path, excluded);
      UuidsWithAbove(vocab, path, contradicted);
    }

    method PlanDeny(path: string)
      requires ops == [] && WellFormed(vocab) && IsFresh(vocab, next)
      modifies this
      ensures (vocab, next) == Ensured(old(vocab), old(next), path)
      ensures forall r :: ApplyOps(r, ops) == Answered(vocab, Deny, path, r)
    {
      EnsuredNames(vocab, next, path);
      Begin(path, NegativeField);
      var below := DescendantsOf(vocab, path);
      RemoveRefs(NegativeField, below);
      var contradicted := WithDescendants(vocab, path);
      RemoveRefs(PositiveField, contradicted);
      RemoveRefs(MixedField, contradicted);
      UuidsBelow(vocab, path, below);
      UuidsWithBelow(vocab, path, contradicted);
    }

    method PlanMixed(path: string)
      requires ops == [] && WellFormed(vocab) && IsFresh(vocab, next)
      modifies this
      ensures (vocab, next) == Ensured(old(vocab), old(next), path)
      ensures forall r :: ApplyOps(r, ops) == Answered(vocab, Mixed, path, r)
    {
      EnsuredNames(vocab, next, path);
      Begin(path, MixedField);
      var below := WithDescendants(vocab, path);
      RemoveRefs(PositiveField, below);
      var above := WithAncestors(vocab, path);
      RemoveRefs(NegativeField, above);
      UuidsWithBelow(vocab, path, below);
      UuidsWithAbove(vocab, path, above);
    }
  }

  /** The path ensured names its entry. */
  lemma EnsuredNames(v: Vocab, next: nat, path: string)
    requires WellFormed(v) && IsFresh(v, next)
    ensures var (v', next') := Ensured(v, next, path);
      WellFormed(v') && IsFresh(v', next') && IsPathOf(v', path, EntryAt(v, next, path))
  {
    EnsuredKeeps(v, next, path);
    if path !in v.name2uuid {
      var (v1, next1) := match Parent(path) case Some(par) => Ensured(v, next, par) case None => (v, next);
      if Parent(path).Some? {
        var par := Parent(path).value;
        EnsuredKeeps(v, next, par);
        NewPathsAre(v1, path, par);
      }
      assert path in NewPaths(v1, path);
    }
  }

  lemma {:induction false} CreationsLeaveRecords(v: Vocab, next: nat, path: string, r: Record)
    ensures ApplyOps(r, Creations(v, next, path)) == r
    decreases |path|
  {
    if path !in v.name2uuid && Parent(path).Some? {
      var par := Parent(path).value;
      CreationsLeaveRecords(v, next, par, r);
      var last := Create(EntryAt(v, next, path), Some(EntryAt(v, next, par)), path[|par| + 1..]);
      ApplyOneMore(r, Creations(v, next, par), last);
    }
  }

  /** The writes of an answer about the tag at `path`, and the vocabulary once
      they are made. */
  method Plan(v: Vocab, next: nat, answer: Answer, path: string) returns (ops: seq<Op>, v': Vocab, next': nat)
    requires WellFormed(v) && IsFresh(v, next)
    ensures (v', next') == VocabAfter(v, next, answer, path)
    ensures WellFormed(v') && IsFresh(v', next')
    ensures forall r :: ApplyOps(r, ops) == Answered(v', answer, path, r)
    ensures if answer.Remove? then v' == v && next' == next && (path !in v.name2uuid ==> ops == [])
            else path in v'.name2uuid
    ensures path in v'.name2uuid ==>
      forall r :: Answers(v', answer, v'.name2uuid[path], r, ApplyOps(r, ops))
  {
    var batch := new TagBatch(v, next);
    match answer {
      case Remove =>
        if path !in v.name2uuid {
          return [], v, next;
        }
        batch.RemoveRefs(PositiveField, [path]);
        assert UuidsOf(v, [path]) == {v.name2uuid[path]};
      case Add =>
        EnsuredNames(v, next, path);
        batch.PlanAdd(path);
      case Deny =>
        EnsuredNames(v, next, path);
        batch.PlanDeny(path);
      case Mixed =>
        EnsuredNames(v, next, path);
        batch.PlanMixed(path);
    }
    if path in batch.vocab.name2uuid {
      forall r ensures Answers(batch.vocab, answer, batch.vocab.name2uuid[path], r, ApplyOps(r, batch.ops)) {
        RewriteAnswers(batch.vocab, answer, batch.vocab.name2uuid[path], r);
      }
    }
    return batch.ops, batch.vocab, batch.next;
  }

  // ── What every run of answers keeps ──────────────────────────────────────

  /** A repository with one record. */
  datatype Store = Store(vocab: Vocab, next: nat, record: Record)

  ghost function After(s: Store, answer: Answer, path: string): Store {
    var (v', next') := VocabAfter(s.vocab, s.next, answer, path);
    Store(v', next', Answered(v', answer, path, s.record))
  }

  ghost function AfterAll(s: Store, answers: seq<(Answer, string)>): Store {
    if answers == [] then s
    else
      var last := answers[|answers| - 1];
      After(AfterAll(s, answers[..|answers| - 1]), last.0, last.1)
  }

  /** The record refers to entries of the vocabulary. */
  ghost predicate Known(v: Vocab, r: Record) {
    r.positive <= v.paths.Keys && r.negative <= v.paths.Keys && r.mixed <= v.paths.Keys
  }

  ghost predicate Consistent(v: Vocab, r: Record) {
    && (forall n, p :: n in r.negative && p in r.positive ==> !AtOrAbove(v, n, p))
    && (forall m, p :: m in r.mixed && p in r.positive ==> !AtOrAbove(v, m, p))
    && (forall n, m :: n in r.negative && m in r.mixed ==> !AtOrAbove(v, n, m))
  }

  ghost predicate Exclusive(v: Vocab, r: Record) {
    forall t, e :: t in r.positive && e in r.positive ==> !Excludes(v, t, e)
  }

  ghost predicate Sound(s: Store) {
    && WellFormed(s.vocab) && IsFresh(s.vocab, s.next)
    && Known(s.vocab, s.record) && Consistent(s.vocab, s.record) && Exclusive(s.vocab, s.record)
  }

  lemma GrowthKeepsConsistent(v: Vocab, v': Vocab, r: Record)
    requires Grows(v, v') && Known(v, r) && Consistent(v, r)
    ensures Known(v', r) && Consistent(v', r)
  {
    forall a, b | a in v.paths && b in v.paths ensures AtOrAbove(v', a, b) <==> AtOrAbove(v, a, b) {
      AboveKept(v, v', a, b);
    }
  }

  lemma GrowthKeepsExclusive(v: Vocab, v': Vocab, r: Record)
    requires WellFormed(v) && WellFormed(v') && Grows(v, v') && Known(v, r) && Exclusive(v, r)
    ensures Exclusive(v', r)
  {
    forall t, e | t in r.positive && e in r.positive ensures !Excludes(v', t, e) {
      if Excludes(v', t, e) {
        ExcludesKept(v, v', t, e);
      }
    }
  }

  lemma RewriteKeepsConsistent(v: Vocab, answer: Answer, t: Uuid, r: Record)
    requires WellFormed(v) && t in v.paths && Known(v, r) && Consistent(v, r)
    ensures Known(v, Rewrite(v, answer, t, r)) && Consistent(v, Rewrite(v, answer, t, r))
  {
  }

  lemma RewriteKeepsExclusive(v: Vocab, answer: Answer, t: Uuid, r: Record)
    requires WellFormed(v) && t in v.paths && Known(v, r) && Exclusive(v, r)
    ensures Exclusive(v, Rewrite(v, answer, t, r))
  {
    var r' := Rewrite(v, answer, t, r);
    forall a, b | a in r'.positive && b in r'.positive ensures !Excludes(v, a, b) {
      if b == t && Excludes(v, a, t) {
        ExclusionNearlySymmetric(v, a, t);
      }
    }
  }

  lemma AnswerKeepsSound(s: Store, answer: Answer, path: string)
    requires Sound(s)
    ensures Sound(After(s, answer, path)) && Grows(s.vocab, After(s, answer, path).vocab)
  {
    var s' := After(s, answer, path);
    if !answer.Remove? {
      EnsuredKeeps(s.vocab, s.next, path);
    }
    GrowthKeepsConsistent(s.vocab, s'.vocab, s.record);
    GrowthKeepsExclusive(s.vocab, s'.vocab, s.record);
    if path in s'.vocab.name2uuid {
      var t := s'.vocab.name2uuid[path];
      RewriteKeepsConsistent(s'.vocab, answer, t, s.record);
      RewriteKeepsExclusive(s'.vocab, answer, t, s.record);
    }
  }

  /** Over every run of answers the vocabulary stays closed under all paths and
      the record consistent, with no two positives a partition keeps apart. */
  lemma {:induction false} AnswersKeepSound(s: Store, answers: seq<(Answer, string)>)
    requires Sound(s)
    ensures Sound(AfterAll(s, answers))
  {
    if answers != [] {
      var last := answers[|answers| - 1];
      AnswersKeepSound(s, answers[..|answers| - 1]);
      AnswerKeepsSound(AfterAll(s, answers[..|answers| - 1]), last.0, last.1);
    }
  }

  // ── Dropping subsumed tags loses nothing ─────────────────────────────────

  /** What the positives say: each of them and everything above it. */
  ghost function ImpliedPositives(v: Vocab, positive: set<Uuid>): set<Uuid> {
    set u | u in v.paths && exists p :: p in positive && AtOrAbove(v, u, p)
  }

  /** What the negatives say: each of them and everything below it. */
  ghost function ImpliedNegatives(v: Vocab, negative: set<Uuid>): set<Uuid> {
    set u | u in v.paths && exists n :: n in negative && AtOrAbove(v, n, u)
  }

  lemma AddLosesNothing(v: Vocab, t: Uuid, r: Record)
    requires WellFormed(v) && t in v.paths
    ensures ImpliedPositives(v, Rewrite(v, Add, t, r).positive)
         == ImpliedPositives(v, r.positive - ExcludedSet(v, t)) + AboveSet(v, t) + {t}
  {
    var kept, now := r.positive - ExcludedSet(v, t), Rewrite(v, Add, t, r).positive;
    Acyclic(v, t);
    assert t in now;
    forall u | u in v.paths
      ensures u in ImpliedPositives(v, now) <==> u in ImpliedPositives(v, kept) + AboveSet(v, t) + {t}
    {
      if p :| p in kept && AtOrAbove(v, u, p) {
        if Above(v, p, t) {
          AtOrAboveTransitive(v, u, p, t);
        } else {
          assert p in now;
        }
      }
    }
  }

  lemma DenyLosesNothing(v: Vocab, t: Uuid, r: Record)
    requires WellFormed(v) && t in v.paths
    ensures ImpliedNegatives(v, Rewrite(v, Deny, t, r).negative)
         == ImpliedNegatives(v, r.negative) + BelowSet(v, t) + {t}
  {
    var now := Rewrite(v, Deny, t, r).negative;
    Acyclic(v, t);
    assert t in now;
    forall u | u in v.paths
      ensures u in ImpliedNegatives(v, now) <==> u in ImpliedNegatives(v, r.negative) + BelowSet(v, t) + {t}
    {
      if n :| n in r.negative && AtOrAbove(v, n, u) {
        if Above(v, t, n) {
          AtOrAboveTransitive(v, t, n, u);
        } else {
          assert n in now;
        }
      }
    }
  }

  lemma RewriteTwice(v: Vocab, answer: Answer, t: Uuid, r: Record)
    requires WellFormed(v)
    ensures Rewrite(v, answer, t, Rewrite(v, answer, t, r)) == Rewrite(v, answer, t, r)
  {
    Acyclic(v, t);
    assert t !in ExcludedSet(v, t);
  }

  /** An answer given twice is the answer given once. */
  lemma AnswerTwice(s: Store, answer: Answer, path: string)
    requires WellFormed(s.vocab) && IsFresh(s.vocab, s.next)
    ensures After(After(s, answer, path), answer, path) == After(s, answer, path)
  {
    var s' := After(s, answer, path);
    if !answer.Remove? {
      EnsuredKeeps(s.vocab, s.next, path);
    }
    if path in s'.vocab.name2uuid {
      var t := s'.vocab.name2uuid[path];
      RewriteTwice(s'.vocab, answer, t, s.record);
    }
  }
}
