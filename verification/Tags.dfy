/**
 Hierarchical tags: paths, the multi-parent vocabulary, and the rewrite one
 answer makes of a record.
 */
module TagPaths {
  import opened Prelude

  /** The index of the last `/`, as `rfind` gives it. */
  function LastSlash(path: string): (r: Option<nat>)
    ensures r.Some? ==> r.value < |path| && path[r.value] == '/' && forall j :: r.value < j < |path| ==> path[j] != '/'
    ensures r.None? ==> forall j :: 0 <= j < |path| ==> path[j] != '/'
  {
    if path == "" then None
    else if path[|path| - 1] == '/' then Some(|path| - 1)
    else LastSlash(path[..|path| - 1])
  }

  /** The parent path of a tag, or `None` for a top-level tag. */
  function Parent(path: string): (r: Option<string>)
    ensures r.Some? ==> |r.value| < |path| && r.value <= path
  {
    match LastSlash(path)
    case Some(i) => Some(path[..i])
    case None => None
  }

  /** Whether `a` is a strict ancestor path of `b`. */
  predicate IsAncestor(a: string, b: string) {
    a != b && a <= b && |a| < |b| && b[|a|] == '/'
  }

  predicate AtOrAbovePath(a: string, b: string) {
    a == b || IsAncestor(a, b)
  }

  /** The ancestors of a path are its parent and the parent's ancestors. */
  lemma AncestorIsParentOrAbove(a: string, b: string)
    ensures IsAncestor(a, b) <==> Parent(b).Some? && AtOrAbovePath(a, Parent(b).value)
  {
    if Parent(b).Some? {
      var q := Parent(b).value;
      assert b[|q|] == '/' && forall j :: |q| < j < |b| ==> b[j] != '/';
      assert IsAncestor(a, b) ==> |a| <= |q|;
      assert IsAncestor(a, b) && |a| == |q| ==> a == q;
    }
  }

  lemma AncestorTransitive(a: string, b: string, c: string)
    requires IsAncestor(a, b) && AtOrAbovePath(b, c)
    ensures IsAncestor(a, c)
  {
  }

  /** The proper ancestor paths of `path`, deepest first. */
  method Ancestors(path: string) returns (out: seq<string>)
    ensures forall a :: a in out <==> IsAncestor(a, path)
    ensures forall i, j :: 0 <= i < j < |out| ==> |out[i]| > |out[j]|
  {
    out := [];
    var p := path;
    while Parent(p).Some?
      invariant AtOrAbovePath(p, path)
      invariant forall a :: IsAncestor(a, path) <==> a in out || IsAncestor(a, p)
      invariant forall a :: a in out ==> |a| >= |p|
      invariant forall i, j :: 0 <= i < j < |out| ==> |out[i]| > |out[j]|
      decreases |p|
    {
      var par := Parent(p).value;
      forall a ensures IsAncestor(a, p) <==> a == par || IsAncestor(a, par) {
        AncestorIsParentOrAbove(a, p);
      }
      assert IsAncestor(par, p);
      AncestorTransitive(par, p, path);
      out := out + [par];
      p := par;
    }
    forall a ensures !IsAncestor(a, p) {
      AncestorIsParentOrAbove(a, p);
    }
  }

  /** The vocabulary names strictly under `path`. */
  function Descendants(path: string, vocab: seq<string>): (r: seq<string>)
    ensures forall d :: d in r <==> d in vocab && IsAncestor(path, d)
  {
    if vocab == [] then []
    else
      var rest := Descendants(path, vocab[1..]);
      assert forall d :: d in vocab <==> d == vocab[0] || d in vocab[1..];
      if IsAncestor(path, vocab[0]) then [vocab[0]] + rest else rest
  }
}
