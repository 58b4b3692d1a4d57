/**
 A file tree and a trash beside it, as values: what moves between them and what
 no move loses.
 */
module Disk {
  /** A path by its names. */
  type Path = seq<string>

  type Content = nat

  /** A file (a symbolic link is one, broken or not) or a directory. */
  datatype Node = File(content: Content) | Dir

  /** The nodes of the tree by path, and those of the trash by entry and path
      inside the entry. */
  datatype Disk = Disk(tree: map<Path, Node>, trash: map<(nat, Path), Node>)

  // ── What a disk holds ────────────────────────────────────────────────────

  ghost function Held(n: Node): multiset<Content> {
    match n case File(c) => multiset{c} case Dir => multiset{}
  }

  ghost function Pick<K>(m: map<K, Node>): (k: K)
    requires m != map[]
    ensures k in m
  {
    var k :| k in m;
    k
  }

  /** The contents of the files of `m`, each as often as it is there. */
  ghost function Bag<K>(m: map<K, Node>): multiset<Content>
    decreases m.Keys
  {
    if m == map[] then multiset{}
    else Held(m[Pick(m)]) + Bag(m - {Pick(m)})
  }

  lemma MinusTwice<K>(m: map<K, Node>, j: K, k: K)
    ensures m - {j} - {k} == m - {k} - {j}
  {
  }

  lemma UnionMinus<K>(a: map<K, Node>, b: map<K, Node>, k: K)
    requires k in b && k !in a
    ensures (a + b) - {k} == a + (b - {k})
  {
  }

  ghost function Contents(d: Disk): multiset<Content> {
    Bag(d.tree) + Bag(d.trash)
  }

  lemma {:induction false} BagRemove<K>(m: map<K, Node>, k: K)
    requires k in m
    ensures Bag(m) == Held(m[k]) + Bag(m - {k})
    decreases m.Keys
  {
    var j := Pick(m);
    if j != k {
      var mj, mk := m - {j}, m - {k};
      BagRemove(mj, k);
      BagRemove(mk, j);
      MinusTwice(m, j, k);
    }
  }

  /** Two maps holding the same nodes under corresponding keys hold the same contents. */
  lemma {:induction false} BagRekeyed<K, L>(m: map<K, Node>, n: map<L, Node>, f: K -> L)
    requires forall k :: k in m ==> f(k) in n && n[f(k)] == m[k]
    requires forall j, k :: j in m && k in m && f(j) == f(k) ==> j == k
    requires forall l :: l in n ==> exists k :: k in m && f(k) == l
    ensures Bag(m) == Bag(n)
    decreases m.Keys
  {
    if m == map[] {
      assert n == map[];
    } else {
      var k :| k in m;
      var m', n' := m - {k}, n - {f(k)};
      forall l | l in n' ensures exists j :: j in m' && f(j) == l {
        var j :| j in m && f(j) == l;
        assert j in m';
      }
      BagRekeyed(m', n', f);
      BagRemove(m, k);
      BagRemove(n, f(k));
    }
  }

  lemma {:induction false} BagUnion<K>(a: map<K, Node>, b: map<K, Node>)
    requires a.Keys !! b.Keys
    ensures Bag(a + b) == Bag(a) + Bag(b)
    decreases b.Keys
  {
    if b == map[] {
      assert a + b == a;
    } else {
      var k :| k in b;
      var b', ab := b - {k}, a + b;
      assert a.Keys !! b'.Keys;
      BagUnion(a, b');
      UnionMinus(a, b, k);
      BagRemove(ab, k);
      BagRemove(b, k);
      assert ab[k] == b[k];
    }
  }

  lemma BagSplit<K>(m: map<K, Node>, part: set<K>)
    ensures Bag(m) == Bag(m - part) + Bag(Kept(m, part))
  {
    assert m == (m - part) + Kept(m, part);
    BagUnion(m - part, Kept(m, part));
  }

  /** The part of `m` under the keys of `part`. */
  ghost function Kept<K>(m: map<K, Node>, part: set<K>): map<K, Node> {
    map k | k in m && k in part :: m[k]
  }

  lemma {:induction false} BagOfDirs<K>(m: map<K, Node>)
    requires forall k :: k in m ==> m[k].Dir?
    ensures Bag(m) == multiset{}
    decreases m.Keys
  {
    if m != map[] {
      var k :| k in m;
      BagRemove(m, k);
      BagOfDirs(m - {k});
    }
  }

  // ── Parts of a disk, by their paths inside ───────────────────────────────

  ghost predicate Unused(d: Disk, id: nat) {
    forall r :: (id, r) !in d.trash
  }

  /** The paths of `tree` at or below `p`. */
  function Under(tree: map<Path, Node>, p: Path): set<Path> {
    set q | q in tree && p <= q
  }

  /** The same, relative to `p`. */
  function Below(tree: map<Path, Node>, p: Path): set<Path> {
    set q | q in Under(tree, p) :: q[|p|..]
  }

  lemma BelowIs(tree: map<Path, Node>, p: Path)
    ensures forall rel :: rel in Below(tree, p) <==> p + rel in tree
  {
    assert forall rel :: p + rel in tree ==> p + rel in Under(tree, p) && (p + rel)[|p|..] == rel;
    assert forall q :: q in Under(tree, p) ==> p + q[|p|..] == q;
  }

  /** What is at or below `p`. */
  function Part(tree: map<Path, Node>, p: Path): map<Path, Node> {
    map rel | rel in Below(tree, p) && p + rel in tree :: tree[p + rel]
  }

  /** The paths inside the blob `id`. */
  function Blob(d: Disk, id: nat): set<Path> {
    set k | k in d.trash && k.0 == id :: k.1
  }

  lemma BlobIs(d: Disk, id: nat)
    ensures forall rel :: rel in Blob(d, id) <==> (id, rel) in d.trash
  {
    assert forall rel :: (id, rel) in d.trash ==> (id, rel).1 in Blob(d, id);
  }

  /** The nodes of the blob `id`. */
  function BlobNodes(d: Disk, id: nat): map<Path, Node> {
    map rel | rel in Blob(d, id) && (id, rel) in d.trash :: d.trash[(id, rel)]
  }

  function PathsAt(p: Path, rels: set<Path>): set<Path> {
    set rel | rel in rels :: p + rel
  }

  lemma PathsAtIs(p: Path, rels: set<Path>)
    ensures forall q :: q in PathsAt(p, rels) <==> p <= q && q[|p|..] in rels
  {
    assert forall rel :: (p + rel)[|p|..] == rel;
    assert forall q :: p <= q ==> p + q[|p|..] == q;
  }

  function KeysOf(id: nat, rels: set<Path>): set<(nat, Path)> {
    set rel | rel in rels :: (id, rel)
  }

  /** Nodes put below `p`. */
  function AtPath(p: Path, m: map<Path, Node>): map<Path, Node> {
    map q | q in PathsAt(p, m.Keys) && p <= q && q[|p|..] in m :: m[q[|p|..]]
  }

  /** Nodes put into the blob `id`. */
  function AtId(id: nat, m: map<Path, Node>): map<(nat, Path), Node> {
    map k | k in KeysOf(id, m.Keys) :: m[k.1]
  }

  lemma AtPathBag(p: Path, m: map<Path, Node>)
    ensures Bag(AtPath(p, m)) == Bag(m)
  {
    var f := (rel: Path) => p + rel;
    PathsAtIs(p, m.Keys);
    assert forall rel :: f(rel)[|p|..] == rel;
    forall q | q in AtPath(p, m) ensures exists rel :: rel in m && f(rel) == q {
      assert f(q[|p|..]) == q;
    }
    BagRekeyed(m, AtPath(p, m), f);
  }

  lemma AtIdBag(id: nat, m: map<Path, Node>)
    ensures Bag(AtId(id, m)) == Bag(m)
  {
    var f := (rel: Path) => (id, rel);
    forall k | k in AtId(id, m) ensures exists rel :: rel in m && f(rel) == k {
      assert f(k.1) == k;
    }
    BagRekeyed(m, AtId(id, m), f);
  }

  lemma PartIsUnder(tree: map<Path, Node>, p: Path)
    ensures PathsAt(p, Below(tree, p)) == Under(tree, p)
    ensures Kept(tree, Under(tree, p)) == AtPath(p, Part(tree, p))
  {
    BelowIs(tree, p);
    PathsAtIs(p, Below(tree, p));
    assert forall q :: p <= q ==> p + q[|p|..] == q;
  }

  // ── Renaming ─────────────────────────────────────────────────────────────

  /** What is at or below `from` is now at or below `to`; a file that was at `to`
      is gone. */
  function Renamed(d: Disk, from: Path, to: Path): Disk {
    d.(tree := (d.tree - Under(d.tree, from)) + AtPath(to, Part(d.tree, from)))
  }

  /** A rename onto a free path loses nothing. */
  lemma RenameKeeps(d: Disk, from: Path, to: Path)
    requires Under(d.tree, to) == {}
    ensures Contents(Renamed(d, from, to)) == Contents(d)
  {
    var part, there := Under(d.tree, from), AtPath(to, Part(d.tree, from));
    BagSplit(d.tree, part);
    PartIsUnder(d.tree, from);
    AtPathBag(from, Part(d.tree, from));
    AtPathBag(to, Part(d.tree, from));
    PathsAtIs(to, Part(d.tree, from).Keys);
    forall k | k in there ensures k !in d.tree {
      assert k in d.tree ==> k in Under(d.tree, to);
    }
    BagUnion(d.tree - part, there);
  }

  // ── Into the trash ───────────────────────────────────────────────────────

  /** Of what is at or below `p`, `copies` were made and `removed` taken away
      after being copied whole. A rename copies and removes everything at once; a
      copy that fails part-way leaves what it made. */
  predicate CanGo(d: Disk, p: Path, copies: map<Path, Node>, removed: set<Path>) {
    forall rel :: rel in removed ==> rel in copies && p + rel in d.tree && d.tree[p + rel] == copies[rel]
  }

  function Gone(d: Disk, p: Path, id: nat, copies: map<Path, Node>, removed: set<Path>): Disk {
    Disk(d.tree - PathsAt(p, removed), d.trash + AtId(id, copies))
  }

  /** What is at or below `p` becomes the blob `id`. */
  function Trashed(d: Disk, p: Path, id: nat): Disk {
    Gone(d, p, id, Part(d.tree, p), Below(d.tree, p))
  }

  /** What is taken from one side and the copies of it hold the same. */
  lemma Transfer(
    from: multiset<Content>, to: multiset<Content>, rest: multiset<Content>, taken: multiset<Content>,
    made: multiset<Content>, extra: multiset<Content>)
    requires from == rest + taken && made == extra + taken
    ensures rest + (to + made) == from + to + extra
  {
  }

  lemma TransferBack(
    to: multiset<Content>, from: multiset<Content>, rest: multiset<Content>, taken: multiset<Content>,
    made: multiset<Content>, extra: multiset<Content>)
    requires from == rest + taken && made == extra + taken
    ensures (to + made) + rest == to + from + extra
  {
  }

  lemma TakenFromTree(d: Disk, p: Path, copies: map<Path, Node>, removed: set<Path>)
    requires CanGo(d, p, copies, removed)
    ensures Kept(d.tree, PathsAt(p, removed)) == AtPath(p, Kept(copies, removed))
  {
    PathsAtIs(p, removed);
    PathsAtIs(p, Kept(copies, removed).Keys);
    forall q | p <= q && q[|p|..] in removed ensures q in d.tree && d.tree[q] == copies[q[|p|..]] {
      assert p + q[|p|..] == q;
    }
  }

  lemma FreshBlob(d: Disk, id: nat, copies: map<Path, Node>)
    requires Unused(d, id)
    ensures Bag(d.trash + AtId(id, copies)) == Bag(d.trash) + Bag(copies)
  {
    AtIdBag(id, copies);
    forall k | k in AtId(id, copies) ensures k !in d.trash {
      assert k == (id, k.1);
    }
    BagUnion(d.trash, AtId(id, copies));
  }

  /** A transfer into the trash adds exactly the copies whose source is still there. */
  lemma GoneKeeps(d: Disk, p: Path, id: nat, copies: map<Path, Node>, removed: set<Path>)
    requires Unused(d, id) && CanGo(d, p, copies, removed)
    ensures Contents(Gone(d, p, id, copies, removed)) == Contents(d) + Bag(copies - removed)
  {
    var taken := PathsAt(p, removed);
    BagSplit(d.tree, taken);
    BagSplit(copies, removed);
    AtPathBag(p, Kept(copies, removed));
    TakenFromTree(d, p, copies, removed);
    FreshBlob(d, id, copies);
    Transfer(
      Bag(d.tree), Bag(d.trash), Bag(d.tree - taken), Bag(Kept(d.tree, taken)), Bag(copies), Bag(copies - removed));
  }

  lemma TrashKeeps(d: Disk, p: Path, id: nat)
    requires Unused(d, id)
    ensures Contents(Trashed(d, p, id)) == Contents(d)
  {
    var copies, removed := Part(d.tree, p), Below(d.tree, p);
    BelowIs(d.tree, p);
    GoneKeeps(d, p, id, copies, removed);
    assert copies - removed == map[];
  }

  // ── And back ─────────────────────────────────────────────────────────────

  /** Putting `nodes` below `target` would overwrite nothing: where both sides
      hold something, both are directories. */
  predicate Fits(d: Disk, target: Path, nodes: map<Path, Node>) {
    forall rel :: rel in nodes ==> (target + rel in d.tree ==> nodes[rel].Dir? && d.tree[target + rel].Dir?)
  }

  predicate CanReturn(d: Disk, id: nat, copies: map<Path, Node>, removed: set<Path>) {
    forall rel :: rel in removed ==> rel in copies && (id, rel) in d.trash && d.trash[(id, rel)] == copies[rel]
  }

  /** Of the blob `id`, `copies` were made below `target` and `removed` taken away. */
  function Returned(d: Disk, id: nat, target: Path, copies: map<Path, Node>, removed: set<Path>): Disk {
    Disk(d.tree + AtPath(target, copies), d.trash - KeysOf(id, removed))
  }

  /** Putting a blob back, whole or in part, adds exactly the copies whose source is
      still in the trash. */
  lemma ReturnKeeps(d: Disk, id: nat, target: Path, copies: map<Path, Node>, removed: set<Path>)
    requires Fits(d, target, copies) && CanReturn(d, id, copies, removed)
    ensures Contents(Returned(d, id, target, copies, removed)) == Contents(d) + Bag(copies - removed)
  {
    var taken := KeysOf(id, removed);
    BagSplit(d.trash, taken);
    BagSplit(copies, removed);
    AtIdBag(id, Kept(copies, removed));
    TakenFromTrash(d, id, copies, removed);
    AtPathBag(target, copies);
    MeetsDirs(d, target, copies);
    OverDirs(d.tree, AtPath(target, copies));
    TransferBack(
      Bag(d.tree), Bag(d.trash), Bag(d.trash - taken), Bag(Kept(d.trash, taken)), Bag(copies), Bag(copies - removed));
  }

  lemma TakenFromTrash(d: Disk, id: nat, copies: map<Path, Node>, removed: set<Path>)
    requires CanReturn(d, id, copies, removed)
    ensures Kept(d.trash, KeysOf(id, removed)) == AtId(id, Kept(copies, removed))
  {
  }

  lemma MeetsDirs(d: Disk, target: Path, nodes: map<Path, Node>)
    requires Fits(d, target, nodes)
    ensures forall q :: q in AtPath(target, nodes) && q in d.tree ==> AtPath(target, nodes)[q].Dir? && d.tree[q].Dir?
  {
    PathsAtIs(target, nodes.Keys);
    forall q | q in AtPath(target, nodes) && q in d.tree ensures AtPath(target, nodes)[q].Dir? && d.tree[q].Dir? {
      assert target + q[|target|..] == q;
    }
  }

  /** Nodes that meet only directories add what they hold. */
  lemma OverDirs(tree: map<Path, Node>, more: map<Path, Node>)
    requires forall q :: q in more && q in tree ==> more[q].Dir? && tree[q].Dir?
    ensures Bag(tree + more) == Bag(tree) + Bag(more)
  {
    var shared := set q | q in more && q in tree;
    BagSplit(more, shared);
    BagOfDirs(Kept(more, shared));
    SharedStay(tree, more, shared);
    BagUnion(tree, more - shared);
    PlusNothing(Bag(more - shared), Bag(Kept(more, shared)));
  }

  lemma PlusNothing(a: multiset<Content>, b: multiset<Content>)
    requires b == multiset{}
    ensures a + b == a
  {
  }

  lemma SharedStay(tree: map<Path, Node>, more: map<Path, Node>, shared: set<Path>)
    requires forall q :: q in shared <==> q in more && q in tree
    requires forall q :: q in more && q in tree ==> more[q].Dir? && tree[q].Dir?
    ensures tree + more == tree + (more - shared) && tree.Keys !! (more - shared).Keys
  {
  }

  /** New directories hold no content. */
  function WithDirs(d: Disk, dirs: set<Path>): Disk {
    d.(tree := d.tree + map p | p in dirs && p !in d.tree :: Dir)
  }

  lemma DirsKeep(d: Disk, dirs: set<Path>)
    ensures Contents(WithDirs(d, dirs)) == Contents(d)
  {
    var made := map p | p in dirs && p !in d.tree :: Dir;
    BagOfDirs(made);
    BagUnion(d.tree, made);
  }
}
