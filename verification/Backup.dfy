/**
 Writing a backup, with every state the disk passes through kept: a crash leaves
 one of them.
 */
module Backup {
  import opened Disk

  // ── Writing a backup ─────────────────────────────────────────────────────

  /** A directory: not there, half written or half removed, a copy of a store, or
      a copy that checked clean with its `backup.json`. */
  datatype Place = Nothing | Torn | Copied(store: Content) | Whole(store: Content)

  /** `dest`, `dest.old` and `dest.partial`. */
  datatype Shelf = Shelf(dest: Place, previous: Place, partial: Place)

  /** A whole backup is at `dest` or at `dest.old`. */
  predicate Holds(s: Shelf) {
    s.dest.Whole? || s.previous.Whole?
  }

  function ClearingPartial(s: Shelf): seq<Shelf> {
    if s.partial.Nothing? then [] else [s.(partial := Torn), s.(partial := Nothing)]
  }

  function ClearingOld(s: Shelf): seq<Shelf> {
    if s.previous.Nothing? then [] else [s.(previous := Torn), s.(previous := Nothing)]
  }

  /** The states of copying the store under the temporary name. */
  function Copying(s: Shelf, store: Content): seq<Shelf> {
    ClearingPartial(s) + [s.(partial := Torn), s.(partial := Copied(store))]
  }

  /** The states of a whole copy taking the place of `dest`. */
  function Swapping(s: Shelf): seq<Shelf>
    requires s.partial.Whole?
  {
    var cleared := s.(previous := Nothing);
    var aside := if s.dest.Nothing? then cleared else cleared.(dest := Nothing, previous := s.dest);
    var placed := aside.(dest := s.partial, partial := Nothing);
    ClearingOld(s) + (if s.dest.Nothing? then [] else [aside]) + [placed] + ClearingOld(placed)
  }

  /** The states of a copy that checked clean becoming the backup. */
  function Placing(s: Shelf): seq<Shelf>
    requires s.partial.Copied?
  {
    var whole := s.(partial := Whole(s.partial.store));
    [s.(partial := Torn), whole] + Swapping(whole)
  }

  /** The states of a backup written with nothing going wrong. */
  function Written(s: Shelf, store: Content): seq<Shelf> {
    Copying(s, store) + Placing(s.(partial := Copied(store)))
  }

  /** What can happen to the three directories at once: the copy is written or removed;
      `dest.old` is removed, torn on the way; `dest` is renamed to `dest.old` or a whole
      copy to `dest`, where nothing is in the way. */
  ghost predicate OneMove(s: Shelf, t: Shelf) {
    || t == s.(partial := t.partial)
    || (t == s.(previous := Torn) && !s.previous.Nothing?)
    || (t == s.(previous := Nothing) && s.previous.Torn?)
    || (t == s.(dest := Nothing, previous := s.dest) && s.previous.Nothing?)
    || (t == s.(dest := s.partial, partial := Nothing) && s.dest.Nothing? && s.partial.Whole?)
  }

  ghost predicate IsChain(states: seq<Shelf>) {
    forall k :: 0 <= k < |states| - 1 ==> OneMove(states[k], states[k + 1])
  }

  lemma ChainJoins(a: seq<Shelf>, b: seq<Shelf>)
    requires a != [] && IsChain(a) && IsChain([a[|a| - 1]] + b)
    ensures IsChain(a + b)
  {
    var all, tail := a + b, [a[|a| - 1]] + b;
    forall k | 0 <= k < |all| - 1 ensures OneMove(all[k], all[k + 1]) {
      if k >= |a| - 1 {
        assert all[k] == tail[k - (|a| - 1)] && all[k + 1] == tail[k + 1 - (|a| - 1)];
      }
    }
  }

  lemma ChainStarts(a: seq<Shelf>, b: seq<Shelf>)
    requires a <= b && IsChain(b)
    ensures IsChain(a)
  {
    assert forall k :: 0 <= k < |a| ==> a[k] == b[k];
  }

  lemma CopyingIsChain(s: Shelf, store: Content)
    ensures IsChain([s] + Copying(s, store))
  {
  }

  lemma ClearingIsChain(s: Shelf)
    ensures IsChain([s] + ClearingPartial(s)) && IsChain([s] + ClearingOld(s))
    ensures ([s] + ClearingOld(s))[|ClearingOld(s)|] == s.(previous := Nothing)
  {
  }

  lemma SwappingIsChain(s: Shelf)
    requires s.partial.Whole?
    ensures IsChain([s] + Swapping(s))
  {
    var cleared := s.(previous := Nothing);
    var aside := if s.dest.Nothing? then cleared else cleared.(dest := Nothing, previous := s.dest);
    var placed := aside.(dest := s.partial, partial := Nothing);
    var first := [s] + ClearingOld(s);
    var second := (if s.dest.Nothing? then [] else [aside]) + [placed];
    ClearingIsChain(s);
    ChainJoins(first, second);
    ClearingIsChain(placed);
    assert (first + second)[|first + second| - 1] == placed;
    ChainJoins(first + second, ClearingOld(placed));
    assert [s] + Swapping(s) == first + second + ClearingOld(placed);
  }

  lemma PlacingIsChain(s: Shelf)
    requires s.partial.Copied?
    ensures IsChain([s] + Placing(s))
  {
    var whole := s.(partial := Whole(s.partial.store));
    var first := [s, s.(partial := Torn), whole];
    SwappingIsChain(whole);
    ChainJoins(first, Swapping(whole));
    assert [s] + Placing(s) == first + Swapping(whole);
  }

  lemma CopyingEnds(s: Shelf, store: Content)
    ensures Copying(s, store)[|Copying(s, store)| - 1] == s.(partial := Copied(store))
    ensures forall i :: 0 <= i < |Copying(s, store)| ==>
      Copying(s, store)[i].dest == s.dest && Copying(s, store)[i].previous == s.previous
  {
  }

  /** A clean backup leaves a whole one at `dest` or `dest.old` in every state it
      passes through exactly when it started with a whole one at `dest`. */
  lemma SafeExactlyFromWhole(s: Shelf, store: Content)
    ensures (forall i :: 0 <= i < |Written(s, store)| ==> Holds(Written(s, store)[i])) <==> s.dest.Whole?
  {
    var run, first := Written(s, store), Copying(s, store);
    var copied := s.(partial := Copied(store));
    var last := Placing(copied);
    CopyingEnds(s, store);
    assert forall i :: 0 <= i < |last| ==> run[|first| + i] == last[i];
    if s.dest.Whole? {
      PlacingHolds(copied);
      forall i | 0 <= i < |run| ensures Holds(run[i]) {
        assert i >= |first| ==> run[i] == last[i - |first|];
      }
    } else {
      var k := PlacingLoses(copied);
      assert !Holds(run[|first| + k]);
    }
  }

  lemma PlacingHolds(s: Shelf)
    requires s.partial.Copied? && s.dest.Whole?
    ensures forall i :: 0 <= i < |Placing(s)| ==> Holds(Placing(s)[i])
  {
  }

  /** Without a whole backup at `dest`, removing `dest.old` leaves none. */
  lemma PlacingLoses(s: Shelf) returns (k: nat)
    requires s.partial.Copied? && !s.dest.Whole?
    ensures k < |Placing(s)| && !Holds(Placing(s)[k])
  {
    var whole := s.(partial := Whole(s.partial.store));
    k := if s.previous.Nothing? then 1 else 3;
    assert Placing(s)[1] == whole;
    if !s.previous.Nothing? {
      assert Placing(s)[3] == ClearingOld(whole)[1];
    }
  }

  class Shelves {
    var shelf: Shelf
    /** Every state since the start. */
    ghost var seen: seq<Shelf>

    constructor (s: Shelf)
      ensures shelf == s && seen == []
    {
      shelf := s;
      seen := [];
    }

    method Set(s: Shelf)
      modifies this
      ensures shelf == s && seen == old(seen) + [s]
    {
      shelf := s;
      seen := seen + [s];
    }

    method RemovePartial(faulty: bool) returns (ok: bool)
      modifies this
      ensures !faulty ==> ok
      ensures ok ==> shelf == old(shelf).(partial := Nothing) && seen == old(seen) + ClearingPartial(old(shelf))
      ensures !ok ==> shelf.dest == old(shelf).dest && shelf.previous == old(shelf).previous
      ensures !ok ==> seen <= old(seen) + ClearingPartial(old(shelf)) && old(seen) <= seen
    {
      ok := true;
      if !shelf.partial.Nothing? {
        var fails: bool := *;
        Set(shelf.(partial := Torn));
        if faulty && fails {
          return false;
        }
        Set(shelf.(partial := Nothing));
      }
    }

    method RemoveOld(faulty: bool) returns (ok: bool)
      modifies this
      ensures !faulty ==> ok
      ensures ok ==> shelf == old(shelf).(previous := Nothing) && seen == old(seen) + ClearingOld(old(shelf))
      ensures shelf.dest == old(shelf).dest
      ensures seen <= old(seen) + ClearingOld(old(shelf)) && old(seen) <= seen
    {
      ok := true;
      if !shelf.previous.Nothing? {
        var fails: bool := *;
        Set(shelf.(previous := Torn));
        if faulty && fails {
          return false;
        }
        Set(shelf.(previous := Nothing));
      }
    }

    /** The half that needs the store. */
    method CopyStore(store: Content, faulty: bool) returns (ok: bool)
      modifies this
      ensures !faulty ==> ok
      ensures ok ==> shelf == old(shelf).(partial := Copied(store)) && seen == old(seen) + Copying(old(shelf), store)
      ensures !ok ==> old(seen) <= seen <= old(seen) + Copying(old(shelf), store)
      ensures shelf.dest == old(shelf).dest && shelf.previous == old(shelf).previous
    {
      ok := RemovePartial(faulty);
      if !ok {
        return;
      }
      Set(shelf.(partial := Torn));
      var fails: bool := *;
      if faulty && fails {
        return false;
      }
      Set(shelf.(partial := Copied(store)));
    }

    /** The half that needs only the copy: checked, then put in place. */
    method FinishBackup(sound: bool, faulty: bool) returns (ok: bool)
      requires shelf.partial.Copied?
      modifies this
      ensures ok ==> sound && seen == old(seen) + Placing(old(shelf))
      ensures ok ==> shelf == Shelf(Whole(old(shelf).partial.store), Nothing, Nothing)
      ensures sound && !faulty ==> ok
      ensures sound ==> old(seen) <= seen <= old(seen) + Placing(old(shelf))
      ensures !sound ==> seen <= old(seen) + ClearingPartial(old(shelf)) && old(seen) <= seen
      ensures !sound ==> shelf.dest == old(shelf).dest && shelf.previous == old(shelf).previous
    {
      if !sound {
        var removed := RemovePartial(faulty);
        return false;
      }
      var store := shelf.partial.store;
      Set(shelf.(partial := Torn));
      var fails: bool := *;
      if faulty && fails {
        return false;
      }
      Set(shelf.(partial := Whole(store)));
      ok := Swap(faulty);
    }

    /** The old backup is set aside, the new one renamed in, the old one removed. */
    method Swap(faulty: bool) returns (ok: bool)
      requires shelf.partial.Whole?
      modifies this
      ensures !faulty ==> ok
      ensures ok ==> seen == old(seen) + Swapping(old(shelf)) && shelf == Shelf(old(shelf).partial, Nothing, Nothing)
      ensures old(seen) <= seen <= old(seen) + Swapping(old(shelf))
    {
      ok := RemoveOld(faulty);
      if !ok {
        return;
      }
      var fails: bool := *;
      if !shelf.dest.Nothing? {
        if faulty && fails {
          return false;
        }
        Set(shelf.(dest := Nothing, previous := shelf.dest));
      }
      fails := *;
      if faulty && fails {
        return false;
      }
      Set(shelf.(dest := shelf.partial, partial := Nothing));
      ok := RemoveOld(faulty);
    }

    /** A backup, from copy to place: started with a whole one at `dest`, there is
        a whole one at `dest` or `dest.old` in every state, and a copy that does
        not check clean leaves the old one where it was. */
    method WriteBackup(store: Content, sound: bool, faulty: bool) returns (ok: bool)
      modifies this
      ensures ok ==>
        sound && shelf == Shelf(Whole(store), Nothing, Nothing) && seen == old(seen) + Written(old(shelf), store)
      ensures sound && !faulty ==> ok
      ensures old(seen) <= seen
      ensures old(shelf).dest.Whole? ==> AllHold(seen, |old(seen)|)
      ensures !sound ==> shelf.dest == old(shelf).dest && shelf.previous == old(shelf).previous
      ensures IsChain([old(shelf)] + seen[|old(seen)|..])
    {
      ghost var start, begun := shelf, seen;
      ok := CopyStore(store, faulty);
      CopyingHolds(begun, seen, start, store);
      CopiedInSteps(begun, seen, start, store);
      if !ok {
        return;
      }
      ghost var copied, half := shelf, seen;
      ok := FinishBackup(sound, faulty);
      FinishHolds(half, seen, copied, sound);
      FinishedInSteps(begun, half, seen, start, store, copied, sound);
      HoldsOn(half, seen, |begun|);
      Regrouped(begun, Copying(start, store), Placing(copied));
    }
  }

  /** What was passed through while copying is one move after the other. */
  lemma CopiedInSteps(begun: seq<Shelf>, seen: seq<Shelf>, s: Shelf, store: Content)
    requires begun <= seen <= begun + Copying(s, store)
    ensures IsChain([s] + seen[|begun|..])
  {
    CopyingIsChain(s, store);
    assert seen[|begun|..] <= Copying(s, store);
    ChainStarts([s] + seen[|begun|..], [s] + Copying(s, store));
  }

  lemma FinishedInSteps(
    begun: seq<Shelf>, half: seq<Shelf>, seen: seq<Shelf>, s: Shelf, store: Content, copied: Shelf, sound: bool)
    requires half == begun + Copying(s, store) && copied == s.(partial := Copied(store)) && half <= seen
    requires sound ==> seen <= half + Placing(copied)
    requires !sound ==> seen <= half + ClearingPartial(copied)
    ensures IsChain([s] + seen[|begun|..])
  {
    var run := if sound then Placing(copied) else ClearingPartial(copied);
    var first, rest := [s] + Copying(s, store), seen[|half|..];
    CopyingIsChain(s, store);
    CopyingEnds(s, store);
    PlacingIsChain(copied);
    ClearingIsChain(copied);
    assert rest <= run;
    ChainStarts([copied] + rest, [copied] + run);
    ChainJoins(first, rest);
    assert [s] + seen[|begun|..] == first + rest;
  }

  lemma Regrouped(a: seq<Shelf>, b: seq<Shelf>, c: seq<Shelf>)
    ensures a + b + c == a + (b + c)
  {
  }

  /** There is a whole backup in every state from `from` on. */
  ghost predicate AllHold(seen: seq<Shelf>, from: nat) {
    forall i :: from <= i < |seen| ==> Holds(seen[i])
  }

  lemma HoldsOn(half: seq<Shelf>, seen: seq<Shelf>, from: nat)
    requires half <= seen && from <= |half|
    ensures AllHold(half, from) && AllHold(seen, |half|) ==> AllHold(seen, from)
  {
    assert forall i :: from <= i < |half| ==> seen[i] == half[i];
  }

  lemma CopyingHolds(begun: seq<Shelf>, seen: seq<Shelf>, s: Shelf, store: Content)
    requires begun <= seen <= begun + Copying(s, store)
    ensures s.dest.Whole? ==> AllHold(seen, |begun|)
  {
    CopyingEnds(s, store);
    PartHolds(begun, seen, Copying(s, store));
  }

  lemma FinishHolds(half: seq<Shelf>, seen: seq<Shelf>, copied: Shelf, sound: bool)
    requires copied.partial.Copied? && half <= seen
    requires sound ==> seen <= half + Placing(copied)
    requires !sound ==> seen <= half + ClearingPartial(copied)
    ensures copied.dest.Whole? ==> AllHold(seen, |half|)
  {
    if copied.dest.Whole? {
      PlacingHolds(copied);
      PartHolds(half, seen, if sound then Placing(copied) else ClearingPartial(copied));
    }
  }

  /** What a run passed through is safe where the whole of it is. */
  lemma PartHolds(begun: seq<Shelf>, seen: seq<Shelf>, run: seq<Shelf>)
    requires begun <= seen <= begun + run
    ensures (forall i :: 0 <= i < |run| ==> Holds(run[i])) ==> AllHold(seen, |begun|)
  {
    assert forall i :: |begun| <= i < |seen| ==> seen[i] == run[i - |begun|];
  }
}
