/**
 Restoring a backup, with every state `internal/` passes through kept: a crash
 leaves one of them, and restoring again goes on from there.
 */
module Restore {
  import opened Prelude
  import opened Disk
  import opened Backup

  datatype Storage = Kv | Sqlite

  /** A store, or its write-ahead log's files. */
  datatype Part = Main | Wal | Shm

  /** A name in `internal/`: in use, or set aside at a time under a number. */
  datatype Name = Live(base: Storage, part: Part) | Aside(stamp: nat, n: nat, base: Storage, part: Part)

  type Files = map<Name, Content>

  /** The configuration: the repository it is of, its store, and all the rest. */
  datatype Config = Config(uuid: string, storage: Storage, rest: Content)

  /** `internal/`: its stores, the copy being restored, and `config.json`. */
  datatype Inner = Inner(files: Files, temp: Place, config: Option<Config>)

  datatype Source = Source(storage: Storage, config: Config, store: Content, sound: bool)

  // ── The stores ───────────────────────────────────────────────────────────

  ghost function AsNodes(files: Files): map<Name, Node> {
    map k | k in files :: File(files[k])
  }

  /** What the stores hold, each as often as it is there. */
  ghost function Stores(files: Files): multiset<Content> {
    Bag(AsNodes(files))
  }

  /** A log set aside is beside its store. */
  ghost predicate Together(files: Files) {
    forall stamp, n, base, part :: Aside(stamp, n, base, part) in files ==> Aside(stamp, n, base, Main) in files
  }

  /** A log is in use and its store is not there. */
  predicate Orphan(files: Files, base: Storage) {
    Live(base, Main) !in files && (Live(base, Wal) in files || Live(base, Shm) in files)
  }

  /** A file moved to another name. */
  function Moved(files: Files, a: Name, b: Name): Files
    requires a in files
  {
    (files - {a})[b := files[a]]
  }

  /** Only what was under the new name is lost. */
  lemma MovedLoses(files: Files, a: Name, b: Name)
    requires a in files && a != b
    ensures Stores(Moved(files, a, b)) + At(files, b) == Stores(files)
  {
    MovedNodes(files, a, b);
    BagRemove(AsNodes(files), a);
    BagRemove(AsNodes(Moved(files, a, b)), b);
    if b in files {
      BagRemove(AsNodes(files) - {a}, b);
    }
  }

  lemma MovedKeeps(files: Files, a: Name, b: Name)
    requires a in files && b !in files
    ensures Stores(Moved(files, a, b)) == Stores(files)
  {
    MovedLoses(files, a, b);
    PlusNothing(Stores(Moved(files, a, b)), At(files, b));
  }

  /** What is under a name. */
  function At(files: Files, a: Name): multiset<Content> {
    if a in files then multiset{files[a]} else multiset{}
  }

  lemma MovedNodes(files: Files, a: Name, b: Name)
    requires a in files && a != b
    ensures AsNodes(Moved(files, a, b)) - {b} == AsNodes(files) - {a} - {b}
    ensures b !in files ==> AsNodes(files) - {a} - {b} == AsNodes(files) - {a}
    ensures AsNodes(Moved(files, a, b))[b] == AsNodes(files)[a]
  {
  }

  lemma AddedKeeps(files: Files, a: Name, x: Content)
    requires a !in files
    ensures Stores(files[a := x]) == multiset{x} + Stores(files)
  {
    AddedNodes(files, a, x);
    BagRemove(AsNodes(files[a := x]), a);
  }

  lemma AddedNodes(files: Files, a: Name, x: Content)
    requires a !in files
    ensures AsNodes(files[a := x]) - {a} == AsNodes(files) && AsNodes(files[a := x])[a] == File(x)
  {
  }

  /** One part of a store moved aside, if it is there. */
  function Follow(files: Files, base: Storage, part: Part, stamp: nat, n: nat): Files {
    if Live(base, part) in files then Moved(files, Live(base, part), Aside(stamp, n, base, part)) else files
  }

  /** A store set aside with its logs, all under one number; nothing where it is
      not there, whatever logs are. */
  function SetAsideFiles(files: Files, base: Storage, stamp: nat, n: nat): Files {
    if Live(base, Main) !in files then files
    else Follow(Follow(Follow(files, base, Main, stamp, n), base, Wal, stamp, n), base, Shm, stamp, n)
  }

  /** Nothing is set aside under the number. */
  ghost predicate Free(files: Files, base: Storage, stamp: nat, n: nat) {
    forall part :: Aside(stamp, n, base, part) !in files
  }

  /** The first number under which no store is set aside. */
  ghost predicate FirstFree(files: Files, base: Storage, stamp: nat, n: nat) {
    && n >= 1 && Aside(stamp, n, base, Main) !in files
    && forall m :: 1 <= m < n ==> Aside(stamp, m, base, Main) in files
  }

  /** Setting the store aside under the number would overwrite nothing. */
  ghost predicate Clear(files: Files, base: Storage, stamp: nat, n: nat) {
    Live(base, Main) in files ==>
      forall part :: Live(base, part) in files ==> Aside(stamp, n, base, part) !in files
  }

  /** What it overwrites: logs aside under that number without their store. */
  function Overwritten(files: Files, base: Storage, stamp: nat, n: nat): multiset<Content> {
    if Live(base, Main) !in files then multiset{}
    else UnderLog(files, base, Wal, stamp, n) + UnderLog(files, base, Shm, stamp, n)
  }

  function UnderLog(files: Files, base: Storage, log: Part, stamp: nat, n: nat): multiset<Content> {
    if Live(base, log) in files then At(files, Aside(stamp, n, base, log)) else multiset{}
  }

  lemma FollowLoses(files: Files, base: Storage, part: Part, stamp: nat, n: nat)
    ensures Stores(Follow(files, base, part, stamp, n)) + UnderLog(files, base, part, stamp, n) == Stores(files)
  {
    if Live(base, part) in files {
      MovedLoses(files, Live(base, part), Aside(stamp, n, base, part));
    } else {
      PlusNothing(Stores(files), UnderLog(files, base, part, stamp, n));
    }
  }

  /** One part moving leaves the names of another alone. */
  lemma FollowsApart(files: Files, base: Storage, part: Part, other: Part, stamp: nat, n: nat)
    requires part != other
    ensures UnderLog(Follow(files, base, part, stamp, n), base, other, stamp, n)
      == UnderLog(files, base, other, stamp, n)
  {
  }

  lemma ThreeLosses(a: multiset<Content>, b: multiset<Content>, c: multiset<Content>, d: multiset<Content>,
                    x: multiset<Content>, y: multiset<Content>)
    requires b == a && c + x == b && d + y == c
    ensures d + (x + y) == a
  {
  }

  /** Setting a store aside loses exactly what it overwrites. */
  lemma SetAsideLoses(files: Files, base: Storage, stamp: nat, n: nat)
    requires Aside(stamp, n, base, Main) !in files
    ensures Stores(SetAsideFiles(files, base, stamp, n)) + Overwritten(files, base, stamp, n) == Stores(files)
  {
    if Live(base, Main) in files {
      var main := Follow(files, base, Main, stamp, n);
      var wal := Follow(main, base, Wal, stamp, n);
      MovedKeeps(files, Live(base, Main), Aside(stamp, n, base, Main));
      FollowLoses(main, base, Wal, stamp, n);
      FollowLoses(wal, base, Shm, stamp, n);
      FollowsApart(files, base, Main, Wal, stamp, n);
      FollowsApart(files, base, Main, Shm, stamp, n);
      FollowsApart(main, base, Wal, Shm, stamp, n);
      ThreeLosses(
        Stores(files), Stores(main), Stores(wal), Stores(SetAsideFiles(files, base, stamp, n)),
        UnderLog(files, base, Wal, stamp, n), UnderLog(files, base, Shm, stamp, n));
    } else {
      PlusNothing(Stores(files), Overwritten(files, base, stamp, n));
    }
  }

  lemma SomeNotNone(x: Content, a: multiset<Content>)
    ensures multiset{x} + a != multiset{} && a + multiset{x} != multiset{}
  {
    assert x in multiset{x} + a && x in a + multiset{x};
  }

  /** Nothing is lost exactly when no name a part moves to is taken; so it is where
      every log aside is beside its store. */
  lemma ClearExactly(files: Files, base: Storage, stamp: nat, n: nat)
    requires FirstFree(files, base, stamp, n)
    ensures Clear(files, base, stamp, n) <==> Overwritten(files, base, stamp, n) == multiset{}
    ensures Together(files) ==> Free(files, base, stamp, n) && Clear(files, base, stamp, n)
  {
    var wal, shm := UnderLog(files, base, Wal, stamp, n), UnderLog(files, base, Shm, stamp, n);
    if Live(base, Main) in files && !Clear(files, base, stamp, n) {
      var part :| Live(base, part) in files && Aside(stamp, n, base, part) in files;
      SomeNotNone(files[Aside(stamp, n, base, part)], if part == Wal then shm else wal);
    }
  }

  /** Every part of the store `base` of `before` is in `after` under one number. */
  ghost predicate WentAside(before: Files, after: Files, base: Storage, stamp: nat, n: nat) {
    forall part :: Live(base, part) in before ==>
      Aside(stamp, n, base, part) in after && after[Aside(stamp, n, base, part)] == before[Live(base, part)]
  }

  predicate Concerns(k: Name, base: Storage, stamp: nat, n: nat) {
    match k
    case Live(b, _) => b == base
    case Aside(s, m, b, _) => s == stamp && m == n && b == base
  }

  ghost predicate SameOutside(before: Files, after: Files, base: Storage, stamp: nat, n: nat) {
    forall k :: !Concerns(k, base, stamp, n) ==>
      (k in before <==> k in after) && (k in before ==> after[k] == before[k])
  }

  /** Setting a store aside moves it and its logs together and touches nothing else. */
  lemma SetAsideMeans(files: Files, base: Storage, stamp: nat, n: nat)
    requires Live(base, Main) in files
    ensures
      var after := SetAsideFiles(files, base, stamp, n);
      && (forall part :: Live(base, part) !in after)
      && WentAside(files, after, base, stamp, n)
      && SameOutside(files, after, base, stamp, n)
  {
    var after := SetAsideFiles(files, base, stamp, n);
    forall part ensures Live(base, part) !in after
      && (Live(base, part) in files ==>
            Aside(stamp, n, base, part) in after && after[Aside(stamp, n, base, part)] == files[Live(base, part)])
    {
      match part
      case Main => assert Live(base, Main) !in after;
      case Wal => assert Live(base, Wal) !in after;
      case Shm => assert Live(base, Shm) !in after;
    }
  }

  lemma MainIsGone(files: Files, base: Storage, stamp: nat, n: nat)
    ensures Live(base, Main) !in SetAsideFiles(files, base, stamp, n)
  {
  }

  lemma FollowFrees(files: Files, base: Storage, stamp: nat, n: nat)
    requires Live(base, Main) in files && Free(files, base, stamp, n)
    ensures
      var first := Follow(files, base, Main, stamp, n);
      && Ready(files, base, Main, stamp, n) && Ready(first, base, Wal, stamp, n)
      && Ready(Follow(first, base, Wal, stamp, n), base, Shm, stamp, n)
  {
  }

  // ── What a restore needs and keeps ───────────────────────────────────────

  /** The backup may be restored here: it is of this repository and of a store
      this version reads. */
  predicate Restorable(i: Inner, from: Source) {
    && from.storage == Kv
    && (i.config.Some? ==> i.config.value.uuid == from.config.uuid)
  }

  /** The state can be restored to and, where no log was aside without its store,
      keeps the stores of `before`. */
  ghost predicate Good(before: Inner, i: Inner, source: Source) {
    && Restorable(i, source)
    && (Together(before.files) ==> Stores(before.files) <= Stores(i.files) && Together(i.files))
  }

  ghost predicate AllGood(before: Inner, seen: seq<Inner>, source: Source) {
    forall k :: 0 <= k < |seen| ==> Good(before, seen[k], source)
  }

  /** The configuration a restore writes. */
  function Switched(i: Inner, source: Source): Config {
    (if i.config.Some? then i.config.value else source.config).(storage := source.storage)
  }

  /** The repository's own configuration is kept but for the store it names; where
      it was lost it is the backup's. */
  ghost predicate SwitchedTo(ours: Option<Config>, theirs: Config, now: Option<Config>) {
    && now.Some? && now.value.storage == Kv
    && (if ours.Some? then now.value.uuid == ours.value.uuid && now.value.rest == ours.value.rest
        else now.value.uuid == theirs.uuid && now.value.rest == theirs.rest)
  }

  /** A part of a store renamed, over what is under the new name. */
  predicate Renames(i: Inner, j: Inner, base: Storage, part: Part, stamp: nat, n: nat) {
    && Live(base, part) in i.files
    && j == i.(files := Moved(i.files, Live(base, part), Aside(stamp, n, base, part)))
  }

  /** The copy renamed into place. */
  predicate Places(i: Inner, j: Inner, source: Source) {
    && i.temp == Copied(source.store) && Live(Kv, Main) !in i.files
    && j == i.(files := i.files[Live(Kv, Main) := source.store], temp := Nothing)
  }

  /** One thing a restore does that a crash cannot cut in two; the copy is torn
      while it is written or removed. */
  ghost predicate OneStep(i: Inner, j: Inner, source: Source) {
    || j == i.(temp := j.temp)
    || (exists base, part, stamp, n :: Renames(i, j, base, part, stamp, n))
    || Places(i, j, source)
    || j == i.(config := Some(Switched(i, source)))
  }

  /** The states a restore passes through, one step at a time. */
  ghost predicate Chain(states: seq<Inner>, source: Source) {
    states != [] && forall k :: 0 <= k < |states| - 1 ==> OneStep(states[k], states[k + 1], source)
  }

  lemma ChainMore(states: seq<Inner>, j: Inner, source: Source)
    requires Chain(states, source) && OneStep(states[|states| - 1], j, source)
    ensures Chain(states + [j], source)
  {
    var more := states + [j];
    forall k | 0 <= k < |more| - 1 ensures OneStep(more[k], more[k + 1], source) {
      if k < |states| - 1 {
        assert more[k] == states[k] && more[k + 1] == states[k + 1];
      }
    }
  }

  lemma GoodMove(before: Inner, i: Inner, source: Source, base: Storage, part: Part, stamp: nat, n: nat)
    requires Good(before, i, source) && Live(base, part) in i.files
    requires Together(before.files) ==> Ready(i.files, base, part, stamp, n)
    ensures
      var j := i.(files := Moved(i.files, Live(base, part), Aside(stamp, n, base, part)));
      Good(before, j, source) && OneStep(i, j, source)
  {
    if Together(before.files) {
      MovedKeeps(i.files, Live(base, part), Aside(stamp, n, base, part));
    }
    assert Renames(i, i.(files := Moved(i.files, Live(base, part), Aside(stamp, n, base, part))), base, part, stamp, n);
  }

  /** The part can go aside there: the name is free, and its store is there if it is a log. */
  predicate Ready(files: Files, base: Storage, part: Part, stamp: nat, n: nat) {
    && Aside(stamp, n, base, part) !in files
    && (part == Main || Aside(stamp, n, base, Main) in files)
  }

  lemma GoodPlace(before: Inner, i: Inner, source: Source)
    requires Good(before, i, source) && Live(Kv, Main) !in i.files
    ensures Good(before, i.(files := i.files[Live(Kv, Main) := source.store], temp := Nothing), source)
  {
    AddedKeeps(i.files, Live(Kv, Main), source.store);
    if Together(before.files) {
      MoreStill(Stores(before.files), Stores(i.files), multiset{source.store});
    }
  }

  lemma MoreStill(a: multiset<Content>, b: multiset<Content>, more: multiset<Content>)
    requires a <= b
    ensures a <= more + b
  {
  }

  // ── The restore ──────────────────────────────────────────────────────────

  /** The files once the store the configuration names is set aside. */
  function OwnAside(i: Inner, stamp: nat, n: nat): Files {
    match i.config
    case Some(config) => SetAsideFiles(i.files, config.storage, stamp, n)
    case None => i.files
  }

  /** What a restore that completes leaves. */
  function Completed(i: Inner, source: Source, stamps: (nat, nat), numbers: (nat, nat)): Inner {
    var both := SetAsideFiles(OwnAside(i, stamps.0, numbers.0), Kv, stamps.1, numbers.1);
    Inner(both[Live(Kv, Main) := source.store], Nothing, Some(Switched(i, source)))
  }

  /** The numbers under which stores went aside: the first no store was under. */
  ghost predicate FirstNumbers(i: Inner, stamps: (nat, nat), numbers: (nat, nat)) {
    && (i.config.Some? && Live(i.config.value.storage, Main) in i.files ==>
          FirstFree(i.files, i.config.value.storage, stamps.0, numbers.0))
    && (Live(Kv, Main) in OwnAside(i, stamps.0, numbers.0) ==>
          FirstFree(OwnAside(i, stamps.0, numbers.0), Kv, stamps.1, numbers.1))
  }

  /** Nothing is overwritten under them. */
  ghost predicate NumbersClear(i: Inner, stamps: (nat, nat), numbers: (nat, nat)) {
    && (i.config.Some? ==> Clear(i.files, i.config.value.storage, stamps.0, numbers.0))
    && Clear(OwnAside(i, stamps.0, numbers.0), Kv, stamps.1, numbers.1)
  }

  /** What a restore overwrites. */
  function RestoreOverwrites(i: Inner, stamps: (nat, nat), numbers: (nat, nat)): multiset<Content> {
    (if i.config.Some? then Overwritten(i.files, i.config.value.storage, stamps.0, numbers.0) else multiset{})
    + Overwritten(OwnAside(i, stamps.0, numbers.0), Kv, stamps.1, numbers.1)
  }

  /** Each log in use is one of the store in use; the restored one has none. */
  predicate LogsBeside(files: Files) {
    && Live(Kv, Wal) !in files && Live(Kv, Shm) !in files
    && !Orphan(files, Sqlite)
  }

  /** What was in use as `base` is set aside whole. */
  ghost predicate SetAsideWhole(before: Files, after: Files, base: Storage) {
    Live(base, Main) in before ==> exists stamp, n :: WentAside(before, after, base, stamp, n)
  }

  /** What was set aside before is untouched. */
  ghost predicate AsidesKept(before: Files, after: Files) {
    forall stamp, n, base, part :: Aside(stamp, n, base, part) in before ==>
      Aside(stamp, n, base, part) in after && after[Aside(stamp, n, base, part)] == before[Aside(stamp, n, base, part)]
  }

  /** What is in use after a store was set aside. */
  lemma LiveAfter(files: Files, base: Storage, stamp: nat, n: nat)
    ensures
      var after := SetAsideFiles(files, base, stamp, n);
      && SetAsideWhole(files, after, base)
      && (forall part :: Live(base, part) in after <==> Live(base, Main) !in files && Live(base, part) in files)
      && (forall b, part :: b != base ==>
            (Live(b, part) in after <==> Live(b, part) in files)
            && (Live(b, part) in files ==> after[Live(b, part)] == files[Live(b, part)]))
  {
    var after := SetAsideFiles(files, base, stamp, n);
    if Live(base, Main) in files {
      SetAsideMeans(files, base, stamp, n);
      assert WentAside(files, after, base, stamp, n);
      forall b, part | b != base
        ensures Live(b, part) in after <==> Live(b, part) in files
        ensures Live(b, part) in files ==> after[Live(b, part)] == files[Live(b, part)]
      {
        assert !Concerns(Live(b, part), base, stamp, n);
      }
    }
  }

  /** What was aside stays where nothing is overwritten. */
  lemma AsidesAfter(files: Files, base: Storage, stamp: nat, n: nat)
    requires Clear(files, base, stamp, n)
    ensures AsidesKept(files, SetAsideFiles(files, base, stamp, n))
  {
  }

  /** A store set aside stays whole when another one is, or the copy comes in. */
  lemma StillWhole(before: Files, mid: Files, after: Files, base: Storage)
    requires SetAsideWhole(before, mid, base) && AsidesKept(mid, after)
    ensures SetAsideWhole(before, after, base)
  {
    if Live(base, Main) in before {
      var stamp, n :| WentAside(before, mid, base, stamp, n);
      assert WentAside(before, after, base, stamp, n);
    }
  }

  /** A store not touched by the first setting aside is set aside by the second. */
  lemma WholeFromHere(before: Files, mid: Files, after: Files, base: Storage)
    requires SetAsideWhole(mid, after, base)
    requires forall part :: Live(base, part) in before ==>
      Live(base, part) in mid && mid[Live(base, part)] == before[Live(base, part)]
    ensures SetAsideWhole(before, after, base)
  {
    if Live(base, Main) in before {
      var stamp, n :| WentAside(mid, after, base, stamp, n);
      assert WentAside(before, after, base, stamp, n);
    }
  }

  /** A completed restore: the backup is in use, and every log is beside its store
      exactly when none was without one before. */
  lemma CompletedLogs(i: Inner, source: Source, stamps: (nat, nat), numbers: (nat, nat))
    ensures
      var after := Completed(i, source, stamps, numbers).files;
      && Live(Kv, Main) in after && after[Live(Kv, Main)] == source.store
      && (LogsBeside(after) <==> !Orphan(i.files, Kv) && !Orphan(i.files, Sqlite))
  {
    var own := OwnAside(i, stamps.0, numbers.0);
    if i.config.Some? {
      LiveAfter(i.files, i.config.value.storage, stamps.0, numbers.0);
    }
    LiveAfter(own, Kv, stamps.1, numbers.1);
  }

  /** A completed restore loses exactly what it overwrites. */
  lemma CompletedLoses(i: Inner, source: Source, stamps: (nat, nat), numbers: (nat, nat))
    requires FirstNumbers(i, stamps, numbers)
    ensures Stores(Completed(i, source, stamps, numbers).files) + RestoreOverwrites(i, stamps, numbers)
      == Stores(i.files) + multiset{source.store}
  {
    var own := OwnAside(i, stamps.0, numbers.0);
    var both := SetAsideFiles(own, Kv, stamps.1, numbers.1);
    var first :=
      if i.config.Some? then Overwritten(i.files, i.config.value.storage, stamps.0, numbers.0) else multiset{};
    if i.config.Some? {
      SetAsideLosesIfThere(i.files, i.config.value.storage, stamps.0, numbers.0);
    } else {
      PlusNothing(Stores(own), first);
    }
    SetAsideLosesIfThere(own, Kv, stamps.1, numbers.1);
    MainIsGone(own, Kv, stamps.1, numbers.1);
    AddedKeeps(both, Live(Kv, Main), source.store);
    BothLosses(
      Stores(i.files), Stores(own), Stores(both), first, Overwritten(own, Kv, stamps.1, numbers.1),
      multiset{source.store});
  }

  lemma SetAsideLosesIfThere(files: Files, base: Storage, stamp: nat, n: nat)
    requires Live(base, Main) in files ==> FirstFree(files, base, stamp, n)
    ensures Stores(SetAsideFiles(files, base, stamp, n)) + Overwritten(files, base, stamp, n) == Stores(files)
  {
    if Live(base, Main) in files {
      SetAsideLoses(files, base, stamp, n);
    } else {
      PlusNothing(Stores(files), Overwritten(files, base, stamp, n));
    }
  }

  lemma BothLosses(a: multiset<Content>, b: multiset<Content>, c: multiset<Content>, x: multiset<Content>,
                   y: multiset<Content>, more: multiset<Content>)
    requires b + x == a && c + y == b
    ensures (more + c) + (x + y) == a + more
  {
  }

  /** Where nothing is overwritten, the store the configuration named and any in the
      way are set aside whole and what was aside stays. */
  lemma CompletedMeans(i: Inner, source: Source, stamps: (nat, nat), numbers: (nat, nat))
    requires NumbersClear(i, stamps, numbers)
    ensures
      var after := Completed(i, source, stamps, numbers).files;
      && AsidesKept(i.files, after) && SetAsideWhole(i.files, after, Kv)
      && (i.config.Some? ==> SetAsideWhole(i.files, after, i.config.value.storage))
  {
    var own := OwnAside(i, stamps.0, numbers.0);
    var both := SetAsideFiles(own, Kv, stamps.1, numbers.1);
    var after := both[Live(Kv, Main) := source.store];
    if i.config.Some? {
      LiveAfter(i.files, i.config.value.storage, stamps.0, numbers.0);
      AsidesAfter(i.files, i.config.value.storage, stamps.0, numbers.0);
    }
    LiveAfter(own, Kv, stamps.1, numbers.1);
    AsidesAfter(own, Kv, stamps.1, numbers.1);
    assert AsidesKept(i.files, own) && AsidesKept(own, both) && AsidesKept(both, after);
    if i.config.Some? {
      StillWhole(i.files, own, both, i.config.value.storage);
      StillWhole(i.files, both, after, i.config.value.storage);
    }
    if i.config.None? || i.config.value.storage == Sqlite {
      WholeFromHere(i.files, own, both, Kv);
      StillWhole(i.files, both, after, Kv);
    }
  }

  /** Where every log aside was beside its store nothing is overwritten. */
  lemma TogetherIsClear(i: Inner, stamps: (nat, nat), numbers: (nat, nat))
    requires Together(i.files) && FirstNumbers(i, stamps, numbers)
    ensures NumbersClear(i, stamps, numbers) && RestoreOverwrites(i, stamps, numbers) == multiset{}
  {
    var own := OwnAside(i, stamps.0, numbers.0);
    if i.config.Some? && Live(i.config.value.storage, Main) in i.files {
      ClearExactly(i.files, i.config.value.storage, stamps.0, numbers.0);
    }
    assert Together(own);
    if Live(Kv, Main) in own {
      ClearExactly(own, Kv, stamps.1, numbers.1);
    }
  }

  /** A log aside without its store is overwritten by the next one under its number. */
  lemma LooseLogIsOverwritten(stamp: nat)
    ensures
      var files: Files :=
        map[Live(Sqlite, Main) := 1, Live(Sqlite, Wal) := 2, Aside(stamp, 1, Sqlite, Wal) := 3];
      && FirstFree(files, Sqlite, stamp, 1) && Overwritten(files, Sqlite, stamp, 1) == multiset{3}
      && SetAsideFiles(files, Sqlite, stamp, 1)
           == map[Aside(stamp, 1, Sqlite, Main) := 1, Aside(stamp, 1, Sqlite, Wal) := 2]
  {
    var files: Files := map[Live(Sqlite, Main) := 1, Live(Sqlite, Wal) := 2, Aside(stamp, 1, Sqlite, Wal) := 3];
    PlusNothing(multiset{3}, UnderLog(files, Sqlite, Shm, stamp, 1));
  }

  /** `internal/` during one restore. */
  class Internal {
    var inner: Inner
    const source: Source
    ghost const before: Inner
    /** Every state since the start. */
    ghost var seen: seq<Inner>

    constructor (i: Inner, from: Source)
      requires Restorable(i, from)
      ensures inner == i && seen == [i] && source == from && before == i && Safe()
    {
      inner, source := i, from;
      seen := [i];
      before := i;
    }

    ghost predicate Safe()
      reads this
    {
      && Good(before, inner, source) && AllGood(before, seen, source) && Chain(seen, source)
      && seen[0] == before && seen[|seen| - 1] == inner
    }

    method Step(i: Inner)
      requires Safe() && Good(before, i, source) && OneStep(inner, i, source)
      modifies this
      ensures inner == i && Safe()
    {
      ChainMore(seen, i, source);
      inner, seen := i, seen + [i];
    }

    /** A number under which no store was set aside at this time. */
    method FreeNumber(stamp: nat, base: Storage) returns (n: nat)
      ensures FirstFree(inner.files, base, stamp, n)
    {
      n := 1;
      ghost var passed: set<Name> := {};
      while Aside(stamp, n, base, Main) in inner.files
        invariant n >= 1
        invariant passed == set m | 1 <= m < n :: Aside(stamp, m, base, Main)
        invariant forall m :: 1 <= m < n ==> Aside(stamp, m, base, Main) in inner.files
        decreases inner.files.Keys - passed
      {
        passed := passed + {Aside(stamp, n, base, Main)};
        n := n + 1;
      }
    }

    /** Renames one part of a store, if it is there. */
    method MovePart(base: Storage, part: Part, stamp: nat, n: nat, faulty: bool) returns (ok: bool)
      requires Safe() && (Together(before.files) ==> Ready(inner.files, base, part, stamp, n))
      modifies this
      ensures Safe() && (!faulty ==> ok)
      ensures inner == if ok then old(inner).(files := Follow(old(inner).files, base, part, stamp, n)) else old(inner)
    {
      if Live(base, part) !in inner.files {
        return true;
      }
      var fails: bool := *;
      if faulty && fails {
        return false;
      }
      GoodMove(before, inner, source, base, part, stamp, n);
      Step(inner.(files := Moved(inner.files, Live(base, part), Aside(stamp, n, base, part))));
      return true;
    }

    /** Sets a store aside with its logs, never onto another store. */
    method SetAside(base: Storage, stamp: nat, faulty: bool) returns (ok: bool, n: nat)
      requires Safe()
      modifies this
      ensures Safe() && (!faulty ==> ok)
      ensures inner == old(inner).(files := inner.files)
      ensures ok ==> inner.files == SetAsideFiles(old(inner).files, base, stamp, n)
      ensures Live(base, Main) in old(inner).files ==> FirstFree(old(inner).files, base, stamp, n)
      ensures ok ==> Stores(inner.files) + Overwritten(old(inner).files, base, stamp, n) == Stores(old(inner).files)
      ensures Together(old(inner).files) ==> Clear(old(inner).files, base, stamp, n)
    {
      if Live(base, Main) !in inner.files {
        SetAsideLosesIfThere(inner.files, base, stamp, 0);
        return true, 0;
      }
      n := FreeNumber(stamp, base);
      ClearExactly(inner.files, base, stamp, n);
      SetAsideLosesIfThere(inner.files, base, stamp, n);
      ok := MoveParts(base, stamp, n, faulty);
    }

    /** Renames the store and then its logs. */
    method MoveParts(base: Storage, stamp: nat, n: nat, faulty: bool) returns (ok: bool)
      requires Safe() && Live(base, Main) in inner.files
      requires Together(before.files) ==> Free(inner.files, base, stamp, n)
      modifies this
      ensures Safe() && (!faulty ==> ok)
      ensures inner == old(inner).(files := inner.files)
      ensures ok ==> inner.files == SetAsideFiles(old(inner).files, base, stamp, n)
    {
      if Together(before.files) {
        FollowFrees(inner.files, base, stamp, n);
      }
      ok := MovePart(base, Main, stamp, n, faulty);
      if ok {
        ok := MovePart(base, Wal, stamp, n, faulty);
      }
      if ok {
        ok := MovePart(base, Shm, stamp, n, faulty);
      }
    }

    /** The copy of the backup's store, checked: no store is touched. */
    method CopyIn(faulty: bool) returns (ok: bool)
      requires Safe()
      modifies this
      ensures Safe() && (!faulty && source.sound ==> ok)
      ensures inner == old(inner).(temp := inner.temp)
      ensures ok ==> source.sound && inner.temp == Copied(source.store)
    {
      var fails: bool := *;
      if !inner.temp.Nothing? {
        Step(inner.(temp := Torn));
        if faulty && fails {
          return false;
        }
        Step(inner.(temp := Nothing));
      }
      Step(inner.(temp := Torn));
      fails := *;
      if faulty && fails {
        return false;
      }
      Step(inner.(temp := Copied(source.store)));
      if !source.sound {
        Step(inner.(temp := Nothing));
        return false;
      }
      fails := *;
      return !(faulty && fails);
    }

    /** Moves the copy in and switches the configuration to it. */
    method MoveIn(faulty: bool) returns (ok: bool)
      requires Safe() && inner.temp == Copied(source.store) && Live(Kv, Main) !in inner.files
      modifies this
      ensures Safe() && (!faulty ==> ok)
      ensures ok ==> inner == Inner(
        old(inner).files[Live(Kv, Main) := source.store], Nothing, Some(Switched(old(inner), source)))
    {
      var fails: bool := *;
      if faulty && fails {
        return false;
      }
      GoodPlace(before, inner, source);
      Step(inner.(files := inner.files[Live(Kv, Main) := source.store], temp := Nothing));
      fails := *;
      if faulty && fails {
        return false;
      }
      Step(inner.(config := Some(Switched(inner, source))));
      return true;
    }

    /** Restores the backup, from a state that keeps the stores there were. */
    method Run(stamps: (nat, nat), faulty: bool) returns (ok: bool, numbers: (nat, nat))
      requires Safe()
      modifies this
      ensures Safe()
      ensures source.sound && !faulty ==> ok
      ensures !source.sound ==> !ok && inner == old(inner).(temp := inner.temp)
      ensures ok ==> inner == Completed(old(inner), source, stamps, numbers)
      ensures ok ==> FirstNumbers(old(inner), stamps, numbers)
    {
      numbers := (0, 0);
      ok := CopyIn(faulty);
      if !ok {
        return;
      }
      var n, m := 0, 0;
      if inner.config.Some? {
        ok, n := SetAside(inner.config.value.storage, stamps.0, faulty);
      }
      if !ok {
        return;
      }
      ghost var own := inner.files;
      ok, m := SetAside(Kv, stamps.1, faulty);
      numbers := (n, m);
      if ok {
        MainIsGone(own, Kv, stamps.1, m);
        ok := MoveIn(faulty);
      }
    }
  }

  /** A restore, refused where the backup is of another repository or of a store no
      longer read; `states` are those it passes through, any of which a crash can
      leave. */
  method RestoreBackup(i: Inner, source: Source, stamps: (nat, nat), faulty: bool)
    returns (ok: bool, after: Inner, ghost states: seq<Inner>, ghost numbers: (nat, nat))
    ensures Chain(states, source) && states[0] == i && states[|states| - 1] == after
    ensures !Restorable(i, source) ==> !ok && after == i
    ensures !source.sound ==> !ok && after == i.(temp := after.temp)
    ensures Restorable(i, source) && source.sound && !faulty ==> ok
    ensures Restorable(i, source) ==> AllGood(i, states, source)
    ensures Together(i.files) ==> Stores(i.files) <= Stores(after.files) && Together(after.files)
    ensures ok ==>
      && Live(Kv, Main) in after.files && after.files[Live(Kv, Main)] == source.store
      && source.storage == Kv && SwitchedTo(i.config, source.config, after.config)
      && (LogsBeside(after.files) <==> !Orphan(i.files, Kv) && !Orphan(i.files, Sqlite))
    ensures ok ==>
      && FirstNumbers(i, stamps, numbers)
      && Stores(after.files) + RestoreOverwrites(i, stamps, numbers) == Stores(i.files) + multiset{source.store}
      && (Together(i.files) ==>
            NumbersClear(i, stamps, numbers) && RestoreOverwrites(i, stamps, numbers) == multiset{})
    ensures ok && NumbersClear(i, stamps, numbers) ==>
      && AsidesKept(i.files, after.files) && SetAsideWhole(i.files, after.files, Kv)
      && (i.config.Some? ==> SetAsideWhole(i.files, after.files, i.config.value.storage))
  {
    if !Restorable(i, source) {
      return false, i, [i], (0, 0);
    }
    var internal := new Internal(i, source);
    var used: (nat, nat);
    ok, used := internal.Run(stamps, faulty);
    if ok {
      CompletedLogs(i, source, stamps, used);
      CompletedLoses(i, source, stamps, used);
      if NumbersClear(i, stamps, used) {
        CompletedMeans(i, source, stamps, used);
      }
      if Together(i.files) {
        TogetherIsClear(i, stamps, used);
      }
    }
    return ok, internal.inner, internal.seen, used;
  }

  /** A restore interrupted in any of its states is completed by restoring again,
      and every log is then beside its store exactly when the interruption left
      none in use without it. */
  method RestoreAgain(before: Inner, source: Source, states: seq<Inner>, k: nat, stamps: (nat, nat))
    returns (after: Inner)
    requires AllGood(before, states, source) && k < |states| && source.sound
    ensures Together(before.files) ==> Stores(before.files) <= Stores(after.files)
    ensures Live(Kv, Main) in after.files && after.files[Live(Kv, Main)] == source.store
    ensures after.config.Some? && after.config.value.storage == Kv && after.config.value.uuid == source.config.uuid
    ensures LogsBeside(after.files) <==> !Orphan(states[k].files, Kv) && !Orphan(states[k].files, Sqlite)
  {
    assert Good(before, states[k], source);
    var ok;
    ghost var visited, numbers;
    ok, after, visited, numbers := RestoreBackup(states[k], source, stamps, false);
  }

  /** The state between the renames of a store and of its log. */
  function CutBetween(i: Inner, source: Source, base: Storage, stamp: nat, n: nat): Inner
    requires Live(base, Main) in i.files
  {
    i.(files := Moved(i.files, Live(base, Main), Aside(stamp, n, base, Main)), temp := Copied(source.store))
  }

  /** The interruption that separates a log from its store: between their renames. */
  lemma LogLeftBehind(i: Inner, source: Source, base: Storage, stamp: nat, n: nat)
    requires Restorable(i, source) && Free(i.files, base, stamp, n)
    requires Live(base, Main) in i.files && Live(base, Wal) in i.files
    ensures
      var states := [i, i.(temp := Torn), i.(temp := Copied(source.store)), CutBetween(i, source, base, stamp, n)];
      Chain(states, source) && AllGood(i, states, source)
    ensures !Orphan(i.files, base) && Orphan(CutBetween(i, source, base, stamp, n).files, base)
  {
    var torn, copied, cut := i.(temp := Torn), i.(temp := Copied(source.store)), CutBetween(i, source, base, stamp, n);
    GoodMove(i, copied, source, base, Main, stamp, n);
    assert cut == copied.(files := Moved(copied.files, Live(base, Main), Aside(stamp, n, base, Main)));
    ChainMore([i], torn, source);
    ChainMore([i] + [torn], copied, source);
    ChainMore([i] + [torn] + [copied], cut, source);
    assert [i] + [torn] + [copied] + [cut] == [i, torn, copied, cut];
  }

  /** For one: a SQLite store with its log. */
  lemma LogLeftBehindOnce(source: Source)
    requires source.storage == Kv && source.config.uuid == "u"
    ensures
      var i := Inner(map[Live(Sqlite, Main) := 1, Live(Sqlite, Wal) := 2], Nothing, Some(Config("u", Sqlite, 0)));
      var cut := CutBetween(i, source, Sqlite, 0, 1);
      && Orphan(cut.files, Sqlite)
      && AllGood(i, [i, i.(temp := Torn), i.(temp := Copied(source.store)), cut], source)
  {
    var i := Inner(map[Live(Sqlite, Main) := 1, Live(Sqlite, Wal) := 2], Nothing, Some(Config("u", Sqlite, 0)));
    LogLeftBehind(i, source, Sqlite, 0, 1);
  }
}
