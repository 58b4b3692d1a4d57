/**
 The tag vocabulary: every path of every entry, an entry having one path per
 way up. The relations between entries are read off the paths.
 */
module TagVocab {
  import opened Prelude
  import Sorting
  import opened TagPaths

  type Uuid = nat

  datatype Flags = Flags(partition: bool)

  datatype Vocab = Vocab(
    name2uuid: map<string, Uuid>,
    paths: map<Uuid, seq<string>>,
    names: seq<string>,
    flags: map<Uuid, Flags>)

  function FlagsOf(v: Vocab, uuid: Uuid): Flags {
    if uuid in v.flags then v.flags[uuid] else Flags(false)
  }

  predicate IsPathOf(v: Vocab, path: string, uuid: Uuid) {
    path in v.name2uuid && v.name2uuid[path] == uuid
  }

  /** The paths of the tag at `path` — all of them when it exists, else the one
      it is named by. */
  function PathsOf(v: Vocab, path: string): seq<string> {
    if path in v.name2uuid && v.name2uuid[path] in v.paths then v.paths[v.name2uuid[path]] else [path]
  }

  // ── Well-formed vocabularies ─────────────────────────────────────────────

  /** The three tables list the same paths. */
  ghost predicate TablesAgree(v: Vocab) {
    && (forall n :: n in v.names <==> n in v.name2uuid)
    && (forall u, p :: u in v.paths && p in v.paths[u] ==> IsPathOf(v, p, u))
    && (forall n :: n in v.name2uuid ==> v.name2uuid[n] in v.paths && n in v.paths[v.name2uuid[n]])
  }

  ghost predicate PrefixClosed(v: Vocab) {
    forall n :: n in v.name2uuid && Parent(n).Some? ==> Parent(n).value in v.name2uuid
  }

  /** A child of an entry has a path below each path of that entry. */
  ghost predicate ClosedUnderPaths(v: Vocab) {
    forall n, q :: n in v.name2uuid && Parent(n).Some? && Parent(n).value in v.name2uuid
                   && IsPathOf(v, q, v.name2uuid[Parent(n).value])
      ==> IsPathOf(v, Moved(n, Parent(n).value, q), v.name2uuid[n])
  }

  /** `n`, which lies under `from`, with `to` in its place. */
  function Moved(n: string, from: string, to: string): string
    requires |from| <= |n|
  {
    to + n[|from|..]
  }

  ghost predicate WellFormed(v: Vocab) {
    TablesAgree(v) && PrefixClosed(v) && ClosedUnderPaths(v)
  }

  // ── Ancestry between entries, by every parent ────────────────────────────

  /** The entry `a` is strictly above `b`, by some parent. */
  ghost predicate Above(v: Vocab, a: Uuid, b: Uuid) {
    exists p, q :: IsPathOf(v, p, a) && IsPathOf(v, q, b) && IsAncestor(p, q)
  }

  ghost predicate AtOrAbove(v: Vocab, a: Uuid, b: Uuid) {
    a == b || Above(v, a, b)
  }

  /** What lies under one path of an entry lies under each of them. */
  lemma {:induction false} SuffixUnderEveryPath(v: Vocab, p: string, q: string, n: string)
    requires WellFormed(v) && p in v.name2uuid && IsPathOf(v, q, v.name2uuid[p])
    requires n in v.name2uuid && AtOrAbovePath(p, n)
    ensures IsPathOf(v, Moved(n, p, q), v.name2uuid[n])
    ensures AtOrAbovePath(q, Moved(n, p, q)) && (p != n ==> IsAncestor(q, Moved(n, p, q)))
    decreases |n|
  {
    if p == n {
      assert Moved(n, p, q) == q;
    } else {
      AncestorIsParentOrAbove(p, n);
      var par := Parent(n).value;
      SuffixUnderEveryPath(v, p, q, par);
      var par' := Moved(par, p, q);
      assert Moved(n, par, par') == Moved(n, p, q) by {
        assert par == n[..|par|];
        assert n[|p|..] == par[|p|..] + n[|par|..];
      }
    }
  }

  /** Ancestry shows under any path of the ancestor. */
  lemma AboveByAnyPath(v: Vocab, a: Uuid, b: Uuid, p: string) returns (q: string)
    requires WellFormed(v) && AtOrAbove(v, a, b) && IsPathOf(v, p, a)
    ensures IsPathOf(v, q, b) && AtOrAbovePath(p, q) && (Above(v, a, b) ==> IsAncestor(p, q))
  {
    if Above(v, a, b) {
      var p0, q0 :| IsPathOf(v, p0, a) && IsPathOf(v, q0, b) && IsAncestor(p0, q0);
      SuffixUnderEveryPath(v, p0, p, q0);
      q := Moved(q0, p0, p);
    } else {
      q := p;
    }
  }

  /** Every string ancestor of a tag path names a tag above it. */
  lemma {:induction false} AncestorsAreNames(v: Vocab, a: string, n: string)
    requires WellFormed(v) && n in v.name2uuid && IsAncestor(a, n)
    ensures a in v.name2uuid && Above(v, v.name2uuid[a], v.name2uuid[n])
    decreases |n|
  {
    AncestorIsParentOrAbove(a, n);
    var par := Parent(n).value;
    if a != par {
      AncestorsAreNames(v, a, par);
    }
    assert IsPathOf(v, a, v.name2uuid[a]) && IsPathOf(v, n, v.name2uuid[n]);
  }

  lemma AboveTransitive(v: Vocab, a: Uuid, b: Uuid, c: Uuid)
    requires WellFormed(v) && Above(v, a, b) && AtOrAbove(v, b, c)
    ensures Above(v, a, c)
  {
    var p, q :| IsPathOf(v, p, a) && IsPathOf(v, q, b) && IsAncestor(p, q);
    var r := AboveByAnyPath(v, b, c, q);
    AncestorTransitive(p, q, r);
  }

  lemma AtOrAboveTransitive(v: Vocab, a: Uuid, b: Uuid, c: Uuid)
    requires WellFormed(v) && AtOrAbove(v, a, b) && AtOrAbove(v, b, c)
    ensures AtOrAbove(v, a, c)
    ensures Above(v, b, c) ==> Above(v, a, c)
  {
    if a != b {
      AboveTransitive(v, a, b, c);
    }
  }

  lemma {:induction false} LongestPath(ns: seq<string>, u: Uuid, v: Vocab, p: string) returns (m: string)
    requires IsPathOf(v, p, u) && p in ns && forall n :: n in ns ==> n in v.name2uuid
    ensures IsPathOf(v, m, u) && forall n :: n in ns && IsPathOf(v, n, u) ==> |n| <= |m|
    decreases |ns|
  {
    m := p;
    for i := 0 to |ns|
      invariant IsPathOf(v, m, u)
      invariant forall n :: n in ns[..i] && IsPathOf(v, n, u) ==> |n| <= |m|
    {
      assert ns[..i + 1] == ns[..i] + [ns[i]];
      if IsPathOf(v, ns[i], u) && |ns[i]| > |m| {
        m := ns[i];
      }
    }
    assert ns[..|ns|] == ns;
  }

  /** A finite vocabulary closed under all paths has no cycle. */
  lemma Acyclic(v: Vocab, u: Uuid)
    requires WellFormed(v)
    ensures !Above(v, u, u)
  {
    if p, q :| IsPathOf(v, p, u) && IsPathOf(v, q, u) && IsAncestor(p, q) {
      var m := LongestPath(v.names, u, v, p);
      SuffixUnderEveryPath(v, p, m, q);
      assert false;
    }
  }

  // ── Partitions ───────────────────────────────────────────────────────────

  /** Two different children of one partition. */
  ghost predicate Rivals(v: Vocab, node: string, sibling: string) {
    && node in v.name2uuid && sibling in v.name2uuid && node != sibling
    && Parent(node).Some? && Parent(sibling) == Parent(node)
    && Parent(node).value in v.name2uuid
    && v.name2uuid[Parent(node).value] in v.flags && v.flags[v.name2uuid[Parent(node).value]].partition
  }

  /** Having the tag `t` excludes `e`: they lie under rival children of a
      partition, and `t` does not imply `e`. */
  ghost predicate Excludes(v: Vocab, t: Uuid, e: Uuid) {
    && !AtOrAbove(v, e, t)
    && exists node, sibling :: Rivals(v, node, sibling)
         && AtOrAbove(v, v.name2uuid[node], t) && AtOrAbove(v, v.name2uuid[sibling], e)
  }

  /** Exclusion is symmetric except towards a tag the other one implies. */
  lemma ExclusionNearlySymmetric(v: Vocab, t: Uuid, e: Uuid)
    requires Excludes(v, t, e)
    ensures Excludes(v, e, t) || Above(v, t, e)
  {
    var node, sibling :| Rivals(v, node, sibling)
      && AtOrAbove(v, v.name2uuid[node], t) && AtOrAbove(v, v.name2uuid[sibling], e);
    assert Rivals(v, sibling, node);
  }

  // ── Scanning the vocabulary ──────────────────────────────────────────────

  ghost predicate StringAbove(v: Vocab, a: string, path: string) {
    exists p :: p in PathsOf(v, path) && IsAncestor(a, p)
  }

  ghost predicate StringBelow(v: Vocab, d: string, path: string) {
    d in v.names && exists p :: p in PathsOf(v, path) && IsAncestor(p, d)
  }

  method PushNew(out: seq<string>, more: seq<string>) returns (r: seq<string>)
    requires Sorting.Distinct(out)
    ensures Sorting.Distinct(r)
    ensures forall x :: x in r <==> x in out || x in more
  {
    r := out;
    for i := 0 to |more|
      invariant Sorting.Distinct(r)
      invariant forall x :: x in r <==> x in out || x in more[..i]
    {
      assert more[..i + 1] == more[..i] + [more[i]];
      if more[i] !in r {
        r := r + [more[i]];
      }
    }
    assert more[..|more|] == more;
  }

  /** The tags strictly above the tag at `path`, by every parent. */
  method AncestorsOf(v: Vocab, path: string) returns (out: seq<string>)
    ensures Sorting.Distinct(out)
    ensures forall a :: a in out <==> StringAbove(v, a, path)
  {
    out := [];
    var ps := PathsOf(v, path);
    for i := 0 to |ps|
      invariant Sorting.Distinct(out)
      invariant forall a :: a in out <==> exists k :: 0 <= k < i && IsAncestor(a, ps[k])
    {
      var more := Ancestors(ps[i]);
      out := PushNew(out, more);
    }
    forall a ensures a in out <==> StringAbove(v, a, path) {
      if StringAbove(v, a, path) {
        var p :| p in ps && IsAncestor(a, p);
        var k :| 0 <= k < |ps| && ps[k] == p;
      }
    }
  }

  /** The tags strictly below the tag at `path`, by every parent. */
  method DescendantsOf(v: Vocab, path: string) returns (out: seq<string>)
    ensures Sorting.Distinct(out)
    ensures forall d :: d in out <==> StringBelow(v, d, path)
  {
    out := [];
    var ps := PathsOf(v, path);
    for i := 0 to |ps|
      invariant Sorting.Distinct(out)
      invariant forall d :: d in out <==> d in v.names && exists k :: 0 <= k < i && IsAncestor(ps[k], d)
    {
      out := PushNew(out, Descendants(ps[i], v.names));
    }
    forall d ensures d in out <==> StringBelow(v, d, path) {
      if StringBelow(v, d, path) {
        var p :| p in ps && IsAncestor(p, d);
        var k :| 0 <= k < |ps| && ps[k] == p;
      }
    }
  }

  method WithAncestors(v: Vocab, path: string) returns (out: seq<string>)
    ensures forall a :: a in out <==> a == path || StringAbove(v, a, path)
  {
    var above := AncestorsOf(v, path);
    out := [path] + above;
  }

  method WithDescendants(v: Vocab, path: string) returns (out: seq<string>)
    ensures forall d :: d in out <==> d == path || StringBelow(v, d, path)
  {
    var below := DescendantsOf(v, path);
    out := [path] + below;
  }

  /** The entries of those of `ps` the vocabulary names. */
  function UuidsOf(v: Vocab, ps: seq<string>): set<Uuid> {
    set p | p in ps && p in v.name2uuid :: v.name2uuid[p]
  }

  ghost predicate Implied(v: Vocab, path: string, x: string) {
    x in v.name2uuid && exists a :: (a == path || StringAbove(v, a, path)) && IsPathOf(v, a, v.name2uuid[x])
  }

  /** `x` lies at or below `sibling`, another child of the partition `node` is in. */
  ghost predicate Ousts(v: Vocab, node: string, sibling: string, x: string) {
    && Parent(node).Some? && Parent(node).value in v.name2uuid
    && FlagsOf(v, v.name2uuid[Parent(node).value]).partition
    && sibling in v.names && Parent(sibling) == Parent(node) && sibling != node
    && (x == sibling || StringBelow(v, x, sibling))
  }

  /** What the scan for `path` collects. */
  ghost predicate OustedAt(v: Vocab, node: string, x: string) {
    exists sibling :: Ousts(v, node, sibling, x)
  }

  /** `x` is ousted by a node at or above the path `p`. */
  ghost predicate OustedAbove(v: Vocab, p: string, x: string) {
    exists node :: AtOrAbovePath(node, p) && OustedAt(v, node, x)
  }

  ghost predicate ExcludedPath(v: Vocab, path: string, x: string) {
    !Implied(v, path, x) && exists p :: p in PathsOf(v, path) && OustedAbove(v, p, x)
  }

  predicate Among(v: Vocab, x: string, uuids: set<Uuid>) {
    x in v.name2uuid && v.name2uuid[x] in uuids
  }

  /** The inner loops for one node: its rival children and what is below them. */
  method PushRivals(v: Vocab, node: string, par: string, implied: set<Uuid>, out0: seq<string>)
    returns (out: seq<string>)
    requires Sorting.Distinct(out0) && Parent(node) == Some(par)
    requires par in v.name2uuid && FlagsOf(v, v.name2uuid[par]).partition
    ensures Sorting.Distinct(out)
    ensures forall x :: x in out <==> x in out0 || (OustedAt(v, node, x) && !Among(v, x, implied))
  {
    out := out0;
    for i := 0 to |v.names|
      invariant Sorting.Distinct(out)
      invariant forall x :: x in out <==>
        (x in out0 || ((exists k :: 0 <= k < i && Ousts(v, node, v.names[k], x)) && !Among(v, x, implied)))
    {
      var sibling := v.names[i];
      if Parent(sibling) != Some(par) || sibling == node {
        continue;
      }
      var below := WithDescendants(v, sibling);
      ghost var before := out;
      for j := 0 to |below|
        invariant Sorting.Distinct(out)
        invariant forall x :: x in out <==> (x in before || (x in below[..j] && !Among(v, x, implied)))
      {
        assert below[..j + 1] == below[..j] + [below[j]];
        var excluded := below[j];
        if Among(v, excluded, implied) {
          continue;
        }
        if excluded !in out {
          out := out + [excluded];
        }
      }
      assert below[..|below|] == below;
      forall x ensures x in below <==> Ousts(v, node, sibling, x) {}
    }
    forall x ensures (exists k :: 0 <= k < |v.names| && Ousts(v, node, v.names[k], x)) <==> OustedAt(v, node, x) {
      if OustedAt(v, node, x) {
        var sibling :| Ousts(v, node, sibling, x);
        var k :| 0 <= k < |v.names| && v.names[k] == sibling;
      }
    }
  }

  /** The climb from one path of the tag to the top. */
  method PushOusted(v: Vocab, p: string, implied: set<Uuid>, out0: seq<string>) returns (out: seq<string>)
    requires Sorting.Distinct(out0)
    ensures Sorting.Distinct(out)
    ensures forall x :: x in out <==> x in out0 || (OustedAbove(v, p, x) && !Among(v, x, implied))
  {
    out := out0;
    var node := p;
    while Parent(node).Some?
      invariant Sorting.Distinct(out)
      invariant forall x :: (x in out || (OustedAbove(v, node, x) && !Among(v, x, implied)))
                       <==> (x in out0 || (OustedAbove(v, p, x) && !Among(v, x, implied)))
      decreases |node|
    {
      var par := Parent(node).value;
      forall x ensures OustedAbove(v, node, x) <==> OustedAt(v, node, x) || OustedAbove(v, par, x) {
        ClimbOne(v, node, x);
      }
      if par in v.name2uuid && FlagsOf(v, v.name2uuid[par]).partition {
        out := PushRivals(v, node, par, implied, out);
      } else {
        assert forall x :: !OustedAt(v, node, x);
      }
      node := par;
    }
    forall x ensures !OustedAbove(v, node, x) {
      forall n | AtOrAbovePath(n, node) ensures !OustedAt(v, n, x) {
        AncestorIsParentOrAbove(n, node);
      }
    }
  }

  lemma ClimbOne(v: Vocab, node: string, x: string)
    requires Parent(node).Some?
    ensures OustedAbove(v, node, x) <==> OustedAt(v, node, x) || OustedAbove(v, Parent(node).value, x)
  {
    var par := Parent(node).value;
    forall n ensures AtOrAbovePath(n, node) <==> n == node || AtOrAbovePath(n, par) {
      AncestorIsParentOrAbove(n, node);
    }
    if OustedAbove(v, par, x) {
      var n :| AtOrAbovePath(n, par) && OustedAt(v, n, x);
      assert AtOrAbovePath(n, node);
    }
  }

  /** What is found under the entries of the tag and its ancestors is implied. */
  lemma ImpliedAmong(v: Vocab, path: string, with: seq<string>, x: string)
    requires forall a :: a in with <==> a == path || StringAbove(v, a, path)
    ensures Among(v, x, UuidsOf(v, with)) <==> Implied(v, path, x)
  {
    if Among(v, x, UuidsOf(v, with)) {
      var p :| p in with && p in v.name2uuid && v.name2uuid[p] == v.name2uuid[x];
      assert IsPathOf(v, p, v.name2uuid[x]);
    }
  }

  /** The tags a partition excludes once the tag at `path` is had. */
  method ExcludedByPartitions(v: Vocab, path: string) returns (out: seq<string>)
    ensures Sorting.Distinct(out)
    ensures forall x :: x in out <==> ExcludedPath(v, path, x)
  {
    var with := WithAncestors(v, path);
    var implied := UuidsOf(v, with);
    forall x ensures Among(v, x, implied) <==> Implied(v, path, x) {
      ImpliedAmong(v, path, with, x);
    }
    out := [];
    var ps := PathsOf(v, path);
    for i := 0 to |ps|
      invariant Sorting.Distinct(out)
      invariant forall x :: x in out <==> (!Among(v, x, implied) && exists k :: 0 <= k < i && OustedAbove(v, ps[k], x))
    {
      out := PushOusted(v, ps[i], implied, out);
    }
    forall x ensures x in out <==> ExcludedPath(v, path, x) {
      if p :| p in ps && OustedAbove(v, p, x) {
        var k :| 0 <= k < |ps| && ps[k] == p;
      }
    }
  }

  // ── The scans are the relations between entries ──────────────────────────

  lemma PathsAreAll(v: Vocab, path: string)
    requires WellFormed(v) && path in v.name2uuid
    ensures forall p :: p in PathsOf(v, path) <==> IsPathOf(v, p, v.name2uuid[path])
  {
  }

  lemma StringAboveIsAbove(v: Vocab, path: string, u: Uuid)
    requires WellFormed(v) && path in v.name2uuid
    ensures (exists a :: StringAbove(v, a, path) && IsPathOf(v, a, u)) <==> Above(v, u, v.name2uuid[path])
    ensures forall a :: StringAbove(v, a, path) ==> a in v.name2uuid
  {
    PathsAreAll(v, path);
    forall a | StringAbove(v, a, path) ensures a in v.name2uuid {
      var p :| p in PathsOf(v, path) && IsAncestor(a, p);
      AncestorsAreNames(v, a, p);
    }
    if Above(v, u, v.name2uuid[path]) {
      var p, q :| IsPathOf(v, p, u) && IsPathOf(v, q, v.name2uuid[path]) && IsAncestor(p, q);
      assert q in PathsOf(v, path);
      assert StringAbove(v, p, path);
    }
  }

  lemma StringBelowIsAbove(v: Vocab, path: string, u: Uuid)
    requires WellFormed(v) && path in v.name2uuid
    ensures (exists d :: StringBelow(v, d, path) && IsPathOf(v, d, u)) <==> Above(v, v.name2uuid[path], u)
  {
    PathsAreAll(v, path);
    if Above(v, v.name2uuid[path], u) {
      var p, q :| IsPathOf(v, p, v.name2uuid[path]) && IsPathOf(v, q, u) && IsAncestor(p, q);
      assert p in PathsOf(v, path);
      assert StringBelow(v, q, path);
    }
  }

  lemma ImpliedIsAtOrAbove(v: Vocab, path: string, x: string)
    requires WellFormed(v) && path in v.name2uuid && x in v.name2uuid
    ensures Implied(v, path, x) <==> AtOrAbove(v, v.name2uuid[x], v.name2uuid[path])
  {
    StringAboveIsAbove(v, path, v.name2uuid[x]);
    assert IsPathOf(v, path, v.name2uuid[path]);
    if v.name2uuid[x] == v.name2uuid[path] {
      assert IsPathOf(v, path, v.name2uuid[x]);
    }
  }

  /** The partition scan collects a path of exactly the entries the tag excludes. */
  lemma ExcludedPathIsExcludes(v: Vocab, path: string, e: Uuid)
    requires WellFormed(v) && path in v.name2uuid
    ensures (exists x :: ExcludedPath(v, path, x) && IsPathOf(v, x, e)) <==> Excludes(v, v.name2uuid[path], e)
  {
    if x :| ExcludedPath(v, path, x) && IsPathOf(v, x, e) {
      ExcludedPathExcludes(v, path, x);
    }
    if Excludes(v, v.name2uuid[path], e) {
      var x := ExcludesIsFound(v, path, e);
    }
  }

  lemma NodeOverPath(v: Vocab, node: string, path: string)
    requires WellFormed(v) && path in v.name2uuid && AtOrAbovePath(node, path)
    ensures node in v.name2uuid && AtOrAbove(v, v.name2uuid[node], v.name2uuid[path])
  {
    if node != path {
      AncestorsAreNames(v, node, path);
    }
  }

  lemma ExcludedPathExcludes(v: Vocab, path: string, x: string)
    requires WellFormed(v) && path in v.name2uuid && ExcludedPath(v, path, x)
    ensures x in v.name2uuid && Excludes(v, v.name2uuid[path], v.name2uuid[x])
  {
    var p :| p in PathsOf(v, path) && OustedAbove(v, p, x);
    PathsAreAll(v, path);
    var node :| AtOrAbovePath(node, p) && OustedAt(v, node, x);
    NodeOverPath(v, node, p);
    var sibling :| Ousts(v, node, sibling, x);
    if x != sibling {
      StringBelowIsAbove(v, sibling, v.name2uuid[x]);
      assert IsPathOf(v, x, v.name2uuid[x]);
    }
    ImpliedIsAtOrAbove(v, path, x);
    assert Rivals(v, node, sibling);
  }

  lemma ExcludesIsFound(v: Vocab, path: string, e: Uuid) returns (x: string)
    requires WellFormed(v) && path in v.name2uuid && Excludes(v, v.name2uuid[path], e)
    ensures ExcludedPath(v, path, x) && IsPathOf(v, x, e)
  {
    var t := v.name2uuid[path];
    var node, sibling :| Rivals(v, node, sibling)
      && AtOrAbove(v, v.name2uuid[node], t) && AtOrAbove(v, v.name2uuid[sibling], e);
    var p := AboveByAnyPath(v, v.name2uuid[node], t, node);
    x := AboveByAnyPath(v, v.name2uuid[sibling], e, sibling);
    PathsAreAll(v, path);
    PathsAreAll(v, sibling);
    ImpliedIsAtOrAbove(v, path, x);
    assert Ousts(v, node, sibling, x);
    assert OustedAbove(v, p, x);
  }
}
