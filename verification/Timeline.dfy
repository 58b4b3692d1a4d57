/**
 The phases of an operation: occurrences opened and closed on a stack, added up
 by name. The record of every occurrence is kept beside the totals, as what they
 are the totals of.
 */
module Timeline {
  import opened Prelude

  // ── The record of a run ──────────────────────────────────────────────────

  /** A moment: the clock, and the reads counted by then. */
  datatype Mark = Mark(at: nat, read: nat)

  datatype Occurrence = Occurrence(
    name: string,
    level: nat,
    parent: Option<nat>,
    start: Mark,
    stop: Option<Mark>)

  /** Every occurrence so far, and those still open, innermost last. */
  datatype Record = Record(history: seq<Occurrence>, stack: seq<nat>)

  const EMPTY := Record([], [])

  /** The difference as the machine takes it: 0 where it would be negative. */
  function Since(later: nat, earlier: nat): nat {
    if later >= earlier then later - earlier else 0
  }

  /** The time between start and stop; 0 while open or where the clock went back. */
  function Took(o: Occurrence): nat {
    if o.stop.Some? && o.start.at <= o.stop.value.at then o.stop.value.at - o.start.at else 0
  }

  /** The same for the reads counted. */
  function ReadIn(o: Occurrence): nat {
    if o.stop.Some? && o.start.read <= o.stop.value.read then o.stop.value.read - o.start.read else 0
  }

  function Top(r: Record): Option<nat> {
    if r.stack == [] then None else Some(r.stack[|r.stack| - 1])
  }

  function Opened(r: Record, name: string, at: Mark): Record {
    Record(r.history + [Occurrence(name, |r.stack|, Top(r), at, None)], r.stack + [|r.history|])
  }

  ghost predicate InRange(r: Record) {
    forall k :: 0 <= k < |r.stack| ==> r.stack[k] < |r.history|
  }

  /** The innermost occurrence closed. */
  function ClosedTop(r: Record, at: Mark): Record
    requires r.stack != [] && InRange(r)
  {
    var top := r.stack[|r.stack| - 1];
    Record(r.history[top := r.history[top].(stop := Some(at))], r.stack[..|r.stack| - 1])
  }

  /** Everything opened at depth `token` or deeper closed. */
  function Closed(r: Record, token: nat, at: Mark): (c: Record)
    requires InRange(r)
    ensures InRange(c) && |c.history| == |r.history|
    ensures c.stack == if |r.stack| > token then r.stack[..token] else r.stack
    decreases |r.stack|
  {
    if |r.stack| <= token then r else Closed(ClosedTop(r, at), token, at)
  }

  // ── How occurrences nest ─────────────────────────────────────────────────

  ghost predicate Linked(r: Record) {
    && InRange(r)
    && (forall k :: 0 <= k < |r.stack| ==> OpenAt(r, k))
    && (forall i :: 0 <= i < |r.history| && r.history[i].stop.None? ==>
          r.history[i].level < |r.stack| && r.stack[r.history[i].level] == i)
    && (forall i :: 0 <= i < |r.history| ==> ParentOf(r.history, i))
  }

  ghost predicate OpenAt(r: Record, k: nat)
    requires InRange(r) && k < |r.stack|
  {
    var o := r.history[r.stack[k]];
    && o.stop.None? && o.level == k
    && o.parent == if k == 0 then None else Some(r.stack[k - 1])
  }

  /** The parent of an occurrence came before it, one level up. */
  ghost predicate ParentOf(h: seq<Occurrence>, i: nat)
    requires i < |h|
  {
    match h[i].parent
    case None => h[i].level == 0
    case Some(p) => p < i && h[i].level == h[p].level + 1
  }

  /** Under a clock that never goes back: an occurrence lies inside its parent,
      and after every earlier one of the same parent. */
  ghost predicate Nested(h: seq<Occurrence>, now: nat) {
    && (forall i :: 0 <= i < |h| ==> Timed(h[i], now))
    && (forall i, p :: 0 <= i < |h| && 0 <= p < i && h[i].parent == Some(p) ==> Inside(h[i], h[p]))
    && (forall i, j :: 0 <= i < j < |h| && h[i].parent == h[j].parent ==> Precedes(h[i], h[j]))
  }

  ghost predicate Timed(o: Occurrence, now: nat) {
    o.start.at <= now && (o.stop.Some? ==> o.start.at <= o.stop.value.at <= now)
  }

  ghost predicate Inside(o: Occurrence, p: Occurrence) {
    && p.start.at <= o.start.at
    && (p.stop.Some? ==> o.stop.Some? && o.stop.value.at <= p.stop.value.at)
  }

  ghost predicate Precedes(o: Occurrence, later: Occurrence) {
    o.stop.Some? && o.stop.value.at <= later.start.at
  }

  lemma OpenedLinked(r: Record, name: string, at: Mark)
    requires Linked(r)
    ensures Linked(Opened(r, name, at))
  {
    var r' := Opened(r, name, at);
    forall k | 0 <= k < |r'.stack| ensures OpenAt(r', k) {
      if k < |r.stack| {
        assert OpenAt(r, k);
      } else {
        assert |r.stack| > 0 ==> OpenAt(r, |r.stack| - 1);
      }
    }
    forall i | 0 <= i < |r'.history| ensures ParentOf(r'.history, i) {
      if i < |r.history| {
        assert ParentOf(r.history, i);
      } else {
        assert |r.stack| > 0 ==> OpenAt(r, |r.stack| - 1);
      }
    }
  }

  lemma ClosedTopLinked(r: Record, at: Mark)
    requires Linked(r) && r.stack != []
    ensures Linked(ClosedTop(r, at))
  {
    var r', top := ClosedTop(r, at), r.stack[|r.stack| - 1];
    assert OpenAt(r, |r.stack| - 1);
    forall k | 0 <= k < |r'.stack| ensures OpenAt(r', k) {
      assert OpenAt(r, k);
    }
    forall i | 0 <= i < |r'.history| ensures ParentOf(r'.history, i) {
      assert ParentOf(r.history, i);
    }
  }

  /** Two occurrences of one parent are not both open. */
  lemma SiblingsClosed(r: Record, i: nat)
    requires Linked(r) && i < |r.history| && r.history[i].parent == Top(r)
    ensures r.history[i].stop.Some?
  {
    assert ParentOf(r.history, i);
    if r.stack != [] {
      assert OpenAt(r, |r.stack| - 1);
    }
  }

  lemma OpenedNested(r: Record, name: string, at: Mark, now: nat)
    requires Linked(r) && Nested(r.history, now) && now <= at.at
    ensures Nested(Opened(r, name, at).history, at.at)
  {
    var h, h' := r.history, Opened(r, name, at).history;
    var n := |h|;
    forall i | 0 <= i < |h'| ensures Timed(h'[i], at.at) {
      assert i < n ==> Timed(h[i], now);
    }
    forall i, p | 0 <= i < |h'| && 0 <= p < i && h'[i].parent == Some(p) ensures Inside(h'[i], h'[p]) {
      if i == n {
        assert OpenAt(r, |r.stack| - 1) && Timed(h[p], now);
      }
    }
    forall i, j | 0 <= i < j < |h'| && h'[i].parent == h'[j].parent ensures Precedes(h'[i], h'[j]) {
      if j == n {
        SiblingsClosed(r, i);
        assert Timed(h[i], now);
      }
    }
  }

  lemma ClosedTopNested(r: Record, at: Mark, now: nat)
    requires Linked(r) && r.stack != [] && Nested(r.history, now) && now <= at.at
    ensures Nested(ClosedTop(r, at).history, at.at)
  {
    var h, h' := r.history, ClosedTop(r, at).history;
    assert OpenAt(r, |r.stack| - 1);
    forall i | 0 <= i < |h'| ensures Timed(h'[i], at.at) {
      assert Timed(h[i], now);
    }
    forall i, p | 0 <= i < |h'| && 0 <= p < i && h'[i].parent == Some(p) ensures Inside(h'[i], h'[p]) {
      ClosedTopInside(r, at, now, i, p);
    }
    forall i, j | 0 <= i < j < |h'| && h'[i].parent == h'[j].parent ensures Precedes(h'[i], h'[j]) {
      assert Precedes(h[i], h[j]);
    }
  }

  lemma ClosedTopInside(r: Record, at: Mark, now: nat, i: nat, p: nat)
    requires Linked(r) && r.stack != [] && Nested(r.history, now) && now <= at.at
    requires p < i < |r.history| && r.history[i].parent == Some(p)
    ensures Inside(ClosedTop(r, at).history[i], ClosedTop(r, at).history[p])
  {
    var h, top := r.history, r.stack[|r.stack| - 1];
    assert OpenAt(r, |r.stack| - 1);
    assert Inside(h[i], h[p]) && Timed(h[i], now);
    if p == top {
      SiblingsClosed(r, i);
    } else if i == top {
      assert OpenAt(r, |r.stack| - 2);
    }
  }

  lemma {:induction false} ClosedKeeps(r: Record, token: nat, at: Mark, now: nat)
    requires Linked(r)
    ensures Linked(Closed(r, token, at))
    ensures Nested(r.history, now) && now <= at.at ==> Nested(Closed(r, token, at).history, at.at)
    decreases |r.stack|
  {
    if |r.stack| > token {
      ClosedTopLinked(r, at);
      if Nested(r.history, now) && now <= at.at {
        ClosedTopNested(r, at, now);
      }
      ClosedKeeps(ClosedTop(r, at), token, at, at.at);
    } else if Nested(r.history, now) && now <= at.at {
      forall i | 0 <= i < |r.history| ensures Timed(r.history[i], at.at) {
        assert Timed(r.history[i], now);
      }
    }
  }

  // ── Sums over occurrences ────────────────────────────────────────────────

  function Sum(h: seq<Occurrence>, f: Occurrence -> nat): nat {
    if h == [] then 0 else Sum(h[..|h| - 1], f) + f(h[|h| - 1])
  }

  lemma SumAppend(h: seq<Occurrence>, o: Occurrence, f: Occurrence -> nat)
    ensures Sum(h + [o], f) == Sum(h, f) + f(o)
  {
    assert (h + [o])[..|h|] == h;
  }

  lemma {:induction false} SumUpdate(h: seq<Occurrence>, i: nat, o: Occurrence, f: Occurrence -> nat)
    requires i < |h|
    ensures Sum(h[i := o], f) + f(h[i]) == Sum(h, f) + f(o)
  {
    var n := |h| - 1;
    if i == n {
      assert h[i := o][..n] == h[..n];
    } else {
      SumUpdate(h[..n], i, o, f);
      assert h[i := o][..n] == h[..n][i := o];
    }
  }

  function BegunAs(name: string): Occurrence -> nat {
    (o: Occurrence) => if o.name == name then 1 else 0
  }

  function TookAs(name: string): Occurrence -> nat {
    (o: Occurrence) =>
      if o.name == name && o.stop.Some? && o.start.at <= o.stop.value.at then o.stop.value.at - o.start.at else 0
  }

  function ReadAs(name: string): Occurrence -> nat {
    (o: Occurrence) =>
      if o.name == name && o.stop.Some? && o.start.read <= o.stop.value.read
      then o.stop.value.read - o.start.read else 0
  }

  function TookUnder(parent: Option<nat>): Occurrence -> nat {
    (o: Occurrence) => if o.parent == parent then Took(o) else 0
  }

  /** The names in order of first occurrence, with the level of that one. */
  function Firsts(h: seq<Occurrence>): seq<(string, nat)> {
    if h == [] then []
    else
      var before, o := Firsts(h[..|h| - 1]), h[|h| - 1];
      if exists i :: 0 <= i < |before| && before[i].0 == o.name then before else before + [(o.name, o.level)]
  }

  lemma {:induction false} FirstsUpdate(h: seq<Occurrence>, i: nat, o: Occurrence)
    requires i < |h| && o.name == h[i].name && o.level == h[i].level
    ensures Firsts(h[i := o]) == Firsts(h)
  {
    var n := |h| - 1;
    if i == n {
      assert h[i := o][..n] == h[..n];
    } else {
      FirstsUpdate(h[..n], i, o);
      assert h[i := o][..n] == h[..n][i := o];
    }
  }

  /** The occurrences of one parent take at most the time between bounds that
      hold them all. */
  lemma {:induction false} SiblingsFit(h: seq<Occurrence>, parent: Option<nat>, from: nat, to: nat, now: nat)
    requires Nested(h, now) && from <= to
    requires forall i :: 0 <= i < |h| && h[i].parent == parent ==>
      from <= h[i].start.at && (h[i].stop.Some? ==> h[i].stop.value.at <= to)
    ensures Sum(h, TookUnder(parent)) <= to - from
  {
    if h != [] {
      var n := |h| - 1;
      var last := h[n];
      NestedPrefix(h, now);
      if last.parent == parent && last.stop.Some? {
        assert Timed(last, now);
        forall i | 0 <= i < n && h[..n][i].parent == parent
          ensures from <= h[i].start.at && h[i].stop.Some? && h[i].stop.value.at <= last.start.at
        {
          assert Precedes(h[i], h[n]);
        }
        SiblingsFit(h[..n], parent, from, last.start.at, now);
      } else {
        SiblingsFit(h[..n], parent, from, to, now);
      }
    }
  }

  lemma NestedPrefix(h: seq<Occurrence>, now: nat)
    requires Nested(h, now) && h != []
    ensures Nested(h[..|h| - 1], now)
  {
  }

  /** The occurrences directly inside a closed one take no longer than it. */
  lemma ChildrenFit(h: seq<Occurrence>, p: nat, now: nat)
    requires Nested(h, now) && p < |h| && h[p].stop.Some?
    requires forall i :: 0 <= i < |h| ==> ParentOf(h, i)
    ensures Sum(h, TookUnder(Some(p))) <= Took(h[p])
  {
    assert Timed(h[p], now);
    forall i | 0 <= i < |h| && h[i].parent == Some(p)
      ensures h[p].start.at <= h[i].start.at && h[i].stop.Some? && h[i].stop.value.at <= h[p].stop.value.at
    {
      assert ParentOf(h, i) && Inside(h[i], h[p]);
    }
    SiblingsFit(h, Some(p), h[p].start.at, h[p].stop.value.at, now);
  }

  // ── Whole runs ───────────────────────────────────────────────────────────

  datatype Event = Begin(name: string, at: Mark) | End(token: nat, at: Mark)

  ghost function Run(events: seq<Event>): (r: Record)
    ensures InRange(r)
  {
    if events == [] then EMPTY
    else
      var r := Run(events[..|events| - 1]);
      match events[|events| - 1]
      case Begin(name, at) => Opened(r, name, at)
      case End(token, at) => Closed(r, token, at)
  }

  ghost predicate Steady(events: seq<Event>) {
    forall i, j :: 0 <= i < j < |events| ==> events[i].at.at <= events[j].at.at
  }

  lemma {:induction false} RunLinked(events: seq<Event>)
    ensures Linked(Run(events))
  {
    if events != [] {
      var before := events[..|events| - 1];
      RunLinked(before);
      match events[|events| - 1]
      case Begin(name, at) => OpenedLinked(Run(before), name, at);
      case End(token, at) => ClosedKeeps(Run(before), token, at, 0);
    }
  }

  lemma {:induction false} RunNested(events: seq<Event>)
    requires Steady(events) && events != []
    ensures Nested(Run(events).history, events[|events| - 1].at.at)
  {
    var n := |events| - 1;
    var before := events[..n];
    RunLinked(before);
    if n == 0 {
      assert Run(before) == EMPTY && Nested(EMPTY.history, 0);
    } else {
      RunNested(before);
    }
    var now := if n == 0 then 0 else events[n - 1].at.at;
    match events[n]
    case Begin(name, at) => OpenedNested(Run(before), name, at, now);
    case End(token, at) => ClosedKeeps(Run(before), token, at, now);
  }

  /** The plain differences of the closed occurrences of a name, summed. */
  ghost function TimeBetween(h: seq<Occurrence>, name: string): int {
    if h == [] then 0
    else
      var o := h[|h| - 1];
      TimeBetween(h[..|h| - 1], name)
      + if o.name == name && o.stop.Some? then o.stop.value.at - o.start.at else 0
  }

  ghost function ReadsBetween(h: seq<Occurrence>, name: string): int {
    if h == [] then 0
    else
      var o := h[|h| - 1];
      ReadsBetween(h[..|h| - 1], name)
      + if o.name == name && o.stop.Some? then o.stop.value.read - o.start.read else 0
  }

  lemma {:induction false} SumsAreDifferences(h: seq<Occurrence>, name: string)
    ensures (forall i :: 0 <= i < |h| && h[i].stop.Some? ==> h[i].start.at <= h[i].stop.value.at) ==>
      Sum(h, TookAs(name)) == TimeBetween(h, name)
    ensures (forall i :: 0 <= i < |h| && h[i].stop.Some? ==> h[i].start.read <= h[i].stop.value.read) ==>
      Sum(h, ReadAs(name)) == ReadsBetween(h, name)
  {
    if h != [] {
      SumsAreDifferences(h[..|h| - 1], name);
    }
  }

  /** Reads never go back. */
  ghost predicate Counting(events: seq<Event>) {
    forall i, j :: 0 <= i < j < |events| ==> events[i].at.read <= events[j].at.read
  }

  ghost predicate ReadForward(h: seq<Occurrence>, now: nat) {
    forall i :: 0 <= i < |h| ==>
      h[i].start.read <= now && (h[i].stop.Some? ==> h[i].start.read <= h[i].stop.value.read)
  }

  lemma {:induction false} ClosedReadsForward(r: Record, token: nat, at: Mark)
    requires InRange(r) && ReadForward(r.history, at.read)
    ensures ReadForward(Closed(r, token, at).history, at.read)
    decreases |r.stack|
  {
    if |r.stack| > token {
      ClosedReadsForward(ClosedTop(r, at), token, at);
    }
  }

  lemma {:induction false} RunReadsForward(events: seq<Event>)
    requires Counting(events) && events != []
    ensures ReadForward(Run(events).history, events[|events| - 1].at.read)
  {
    var n := |events| - 1;
    var before := events[..n];
    if n > 0 {
      RunReadsForward(before);
      assert ReadForward(Run(before).history, events[n].at.read);
    }
    if events[n].End? {
      ClosedReadsForward(Run(before), events[n].token, events[n].at);
    }
  }

  /** In every run the totals are sums of plain differences: of moments under a steady
      clock, of reads where those never go back. */
  lemma TotalsAreDifferences(events: seq<Event>, name: string)
    requires events != []
    ensures Steady(events) ==>
      Sum(Run(events).history, TookAs(name)) == TimeBetween(Run(events).history, name)
    ensures Counting(events) ==>
      Sum(Run(events).history, ReadAs(name)) == ReadsBetween(Run(events).history, name)
  {
    var h := Run(events).history;
    SumsAreDifferences(h, name);
    if Steady(events) {
      RunNested(events);
      forall i | 0 <= i < |h| && h[i].stop.Some? ensures h[i].start.at <= h[i].stop.value.at {
        assert Timed(h[i], events[|events| - 1].at.at);
      }
    }
    if Counting(events) {
      RunReadsForward(events);
    }
  }

  /** In every run under a steady clock, what is opened at the bottom of the stack
      takes no longer than the run so far, and what is opened directly inside an
      occurrence no longer than that occurrence. */
  lemma TimeIsNotCountedTwice(events: seq<Event>)
    requires Steady(events) && events != []
    ensures Sum(Run(events).history, TookUnder(None)) <= events[|events| - 1].at.at - events[0].at.at
    ensures forall p :: 0 <= p < |Run(events).history| && Run(events).history[p].stop.Some? ==>
      Sum(Run(events).history, TookUnder(Some(p))) <= Took(Run(events).history[p])
  {
    var h, now := Run(events).history, events[|events| - 1].at.at;
    RunLinked(events);
    RunNested(events);
    StartsWithin(events);
    forall i | 0 <= i < |h| ensures h[i].stop.Some? ==> h[i].stop.value.at <= now {
      assert Timed(h[i], now);
    }
    SiblingsFit(h, None, events[0].at.at, now, now);
    forall p | 0 <= p < |h| && h[p].stop.Some? ensures Sum(h, TookUnder(Some(p))) <= Took(h[p]) {
      ChildrenFit(h, p, now);
    }
  }

  lemma {:induction false} StartsWithin(events: seq<Event>)
    requires Steady(events) && events != []
    ensures forall i :: 0 <= i < |Run(events).history| ==> events[0].at.at <= Run(events).history[i].start.at
  {
    var n := |events| - 1;
    var before := events[..n];
    if n > 0 {
      StartsWithin(before);
    }
    if events[n].End? {
      StartsKept(Run(before), events[n].token, events[n].at);
    }
  }

  lemma {:induction false} StartsKept(r: Record, token: nat, at: Mark)
    requires InRange(r)
    ensures forall i :: 0 <= i < |r.history| ==> Closed(r, token, at).history[i].start == r.history[i].start
    decreases |r.stack|
  {
    if |r.stack| > token {
      StartsKept(ClosedTop(r, at), token, at);
    }
  }

  // ── The totals ───────────────────────────────────────────────────────────

  datatype Phase = Phase(name: string, ms: nat, count: nat, depth: nat, read: nat)

  /** Phase `i` counts, times and reads what the occurrences of its name do. */
  ghost predicate Totals(p: Phase, spent: nat, first: (string, nat), h: seq<Occurrence>) {
    && p.name == first.0 && p.depth == first.1 % 0x1_0000
    && p.count == Sum(h, BegunAs(p.name))
    && p.read == Sum(h, ReadAs(p.name))
    && spent == Sum(h, TookAs(p.name))
  }

  ghost predicate Booked(phases: seq<Phase>, spent: seq<nat>, h: seq<Occurrence>) {
    && |phases| == |spent| == |Firsts(h)|
    && forall i :: 0 <= i < |phases| ==> Totals(phases[i], spent[i], Firsts(h)[i], h)
  }

  lemma {:induction false} FirstsDistinct(h: seq<Occurrence>)
    ensures forall i, j :: 0 <= i < j < |Firsts(h)| ==> Firsts(h)[i].0 != Firsts(h)[j].0
  {
    if h != [] {
      FirstsDistinct(h[..|h| - 1]);
    }
  }

  /** Every name that occurred is listed. */
  lemma {:induction false} FirstsComplete(h: seq<Occurrence>, k: nat) returns (i: nat)
    requires k < |h|
    ensures i < |Firsts(h)| && Firsts(h)[i].0 == h[k].name
  {
    var n := |h| - 1;
    var before := Firsts(h[..n]);
    if k < n {
      i := FirstsComplete(h[..n], k);
    } else if exists i :: 0 <= i < |before| && before[i].0 == h[n].name {
      i :| 0 <= i < |before| && before[i].0 == h[n].name;
    } else {
      i := |before|;
    }
  }

  /** A name that has not occurred has no totals yet. */
  lemma {:induction false} NothingYet(h: seq<Occurrence>, name: string)
    requires forall k :: 0 <= k < |h| ==> h[k].name != name
    ensures Sum(h, BegunAs(name)) == 0 && Sum(h, TookAs(name)) == 0 && Sum(h, ReadAs(name)) == 0
  {
    if h != [] {
      NothingYet(h[..|h| - 1], name);
    }
  }

  lemma TotalsAppend(h: seq<Occurrence>, o: Occurrence, name: string)
    requires o.stop.None?
    ensures Sum(h + [o], BegunAs(name)) == Sum(h, BegunAs(name)) + if o.name == name then 1 else 0
    ensures Sum(h + [o], TookAs(name)) == Sum(h, TookAs(name))
    ensures Sum(h + [o], ReadAs(name)) == Sum(h, ReadAs(name))
  {
    SumAppend(h, o, BegunAs(name));
    SumAppend(h, o, TookAs(name));
    SumAppend(h, o, ReadAs(name));
  }

  lemma TotalsClose(h: seq<Occurrence>, i: nat, at: Mark, name: string)
    requires i < |h| && h[i].stop.None?
    ensures
      var o := h[i].(stop := Some(at));
      && Sum(h[i := o], BegunAs(name)) == Sum(h, BegunAs(name))
      && Sum(h[i := o], TookAs(name)) == Sum(h, TookAs(name)) + (if o.name == name then Took(o) else 0)
      && Sum(h[i := o], ReadAs(name)) == Sum(h, ReadAs(name)) + (if o.name == name then ReadIn(o) else 0)
  {
    var o := h[i].(stop := Some(at));
    SumUpdate(h, i, o, BegunAs(name));
    SumUpdate(h, i, o, TookAs(name));
    SumUpdate(h, i, o, ReadAs(name));
  }

  // ── The timeline itself ──────────────────────────────────────────────────

  class Timeline {
    var phases: seq<Phase>
    var spent: seq<nat>
    var open: seq<(nat, nat, nat)>
    ghost var record: Record

    constructor ()
      ensures Valid() && record == EMPTY
    {
      phases, spent, open := [], [], [];
      record := EMPTY;
    }

    ghost predicate Valid()
      reads this
    {
      State(phases, spent, open, record)
    }

    /** Opens an occurrence of `name`; the token is its depth. */
    method BeginCounted(name: string, at: nat, read: nat) returns (token: nat)
      requires Valid()
      modifies this
      ensures Valid() && record == Opened(old(record), name, Mark(at, read))
      ensures token == |old(record).stack|
    {
      var index := IndexOf(phases, name);
      BeginKeeps(phases, spent, open, record, name, Mark(at, read), index);
      var entries := open + [(index, at, read)];
      ghost var later := Opened(record, name, Mark(at, read));
      if index < |phases| {
        phases, open, record := phases[index := phases[index].(count := phases[index].count + 1)], entries, later;
      } else {
        phases, spent, open, record :=
          phases + [Phase(name, 0, 1, |open| % 0x1_0000, 0)], spent + [0], entries, later;
      }
      return |open| - 1;
    }

    /** Closes the innermost occurrence. */
    method Pop(at: nat, read: nat)
      requires Valid() && open != []
      modifies this
      ensures Valid() && record == ClosedTop(old(record), Mark(at, read)) && |open| == |old(open)| - 1
    {
      var last := |open| - 1;
      var (index, started, readBefore) := open[last];
      assert OpenAt(record, last);
      var times := spent[index := spent[index] + Since(at, started)];
      var totals := phases[index := phases[index].(read := phases[index].read + Since(read, readBefore))];
      PopKeeps(phases, spent, open, record, Mark(at, read), totals, times);
      spent, phases, open, record := times, totals, open[..last], ClosedTop(record, Mark(at, read));
    }

    /** Closes the occurrence `token` opened, and any still open inside it. */
    method EndCounted(token: nat, at: nat, read: nat)
      requires Valid()
      modifies this
      ensures Valid() && record == Closed(old(record), token, Mark(at, read))
    {
      while |open| > token
        invariant Valid()
        invariant Closed(record, token, Mark(at, read)) == Closed(old(record), token, Mark(at, read))
        decreases |open|
      {
        Pop(at, read);
      }
    }

    /** The report: everything closed, each phase's time rounded once. */
    method FinishCounted(at: nat, read: nat) returns (report: seq<Phase>)
      requires Valid()
      modifies this
      ensures Valid() && record == Closed(old(record), 0, Mark(at, read))
      ensures |report| == |Firsts(record.history)|
      ensures forall i :: 0 <= i < |report| ==>
        var name := Firsts(record.history)[i].0;
        && report[i].name == name && report[i].depth == Firsts(record.history)[i].1 % 0x1_0000
        && report[i].count == Sum(record.history, BegunAs(name))
        && report[i].read == Sum(record.history, ReadAs(name))
        && report[i].ms == Sum(record.history, TookAs(name)) / 1_000_000 % 0x1_0000_0000_0000_0000
      ensures forall i :: 0 <= i < |record.history| ==> record.history[i].stop.Some?
    {
      EndCounted(0, at, read);
      report := phases;
      for i := 0 to |phases|
        invariant |report| == |phases|
        invariant forall k :: 0 <= k < |phases| ==>
          report[k] == if k < i then phases[k].(ms := spent[k] / 1_000_000 % 0x1_0000_0000_0000_0000) else phases[k]
      {
        report := report[i := report[i].(ms := spent[i] / 1_000_000 % 0x1_0000_0000_0000_0000)];
      }
    }
  }

  /** Where a phase is, or the number of phases. */
  method IndexOf(phases: seq<Phase>, name: string) returns (index: nat)
    ensures index <= |phases| && (forall i :: 0 <= i < index ==> phases[i].name != name)
    ensures index < |phases| ==> phases[index].name == name
  {
    index := 0;
    while index < |phases| && phases[index].name != name
      invariant index <= |phases| && forall i :: 0 <= i < index ==> phases[i].name != name
    {
      index := index + 1;
    }
  }

  /** An entry of the open list stands for the occurrence `o`. */
  ghost predicate Stands(phases: seq<Phase>, entry: (nat, nat, nat), o: Occurrence) {
    && entry.0 < |phases| && phases[entry.0].name == o.name
    && entry.1 == o.start.at && entry.2 == o.start.read
  }

  ghost predicate AllStand(phases: seq<Phase>, open: seq<(nat, nat, nat)>, r: Record)
    requires InRange(r)
  {
    && |open| == |r.stack|
    && forall k :: 0 <= k < |open| ==> Stands(phases, open[k], r.history[r.stack[k]])
  }

  /** The totals and the open list say what the record says. */
  ghost predicate State(phases: seq<Phase>, spent: seq<nat>, open: seq<(nat, nat, nat)>, r: Record) {
    Linked(r) && Booked(phases, spent, r.history) && AllStand(phases, open, r)
  }

  lemma BeginKeeps(
    phases: seq<Phase>, spent: seq<nat>, open: seq<(nat, nat, nat)>, r: Record, name: string, at: Mark,
    index: nat)
    requires State(phases, spent, open, r) && index <= |phases|
    requires forall i :: 0 <= i < index ==> phases[i].name != name
    requires index < |phases| ==> phases[index].name == name
    ensures index < |phases| ==>
      State(phases[index := phases[index].(count := phases[index].count + 1)], spent,
            open + [(index, at.at, at.read)], Opened(r, name, at))
    ensures index == |phases| ==>
      State(phases + [Phase(name, 0, 1, |open| % 0x1_0000, 0)], spent + [0],
            open + [(index, at.at, at.read)], Opened(r, name, at))
  {
    OpenedLinked(r, name, at);
    BookedOpen(phases, spent, r.history, Occurrence(name, |r.stack|, Top(r), at, None), index);
    if index < |phases| {
      StandOpen(phases, phases[index := phases[index].(count := phases[index].count + 1)], open, r, name, at, index);
    } else {
      StandOpen(phases, phases + [Phase(name, 0, 1, |open| % 0x1_0000, 0)], open, r, name, at, index);
    }
  }

  lemma StandOpen(
    phases: seq<Phase>, totals: seq<Phase>, open: seq<(nat, nat, nat)>, r: Record, name: string, at: Mark, index: nat)
    requires Linked(r) && AllStand(phases, open, r) && InRange(Opened(r, name, at))
    requires |phases| <= |totals| && forall i :: 0 <= i < |phases| ==> totals[i].name == phases[i].name
    requires index < |totals| && totals[index].name == name
    ensures AllStand(totals, open + [(index, at.at, at.read)], Opened(r, name, at))
  {
    forall k | 0 <= k < |open| ensures Stands(totals, open[k], r.history[r.stack[k]]) {
      assert Stands(phases, open[k], r.history[r.stack[k]]);
    }
  }

  lemma PopKeeps(
    phases: seq<Phase>, spent: seq<nat>, open: seq<(nat, nat, nat)>, r: Record, at: Mark, totals: seq<Phase>,
    times: seq<nat>)
    requires State(phases, spent, open, r) && open != []
    requires
      var (index, started, readBefore) := open[|open| - 1];
      && times == spent[index := spent[index] + Since(at.at, started)]
      && totals == phases[index := phases[index].(read := phases[index].read + Since(at.read, readBefore))]
    ensures State(totals, times, open[..|open| - 1], ClosedTop(r, at))
  {
    var last := |open| - 1;
    var index := open[last].0;
    assert OpenAt(r, last) && Stands(phases, open[last], r.history[r.stack[last]]);
    ClosedTopLinked(r, at);
    BookedPop(phases, spent, open[last], r, at);
    StandClose(phases, open, r, at, totals[index].read, index);
  }

  /** Closing the innermost occurrence books its time and its reads. */
  lemma BookedPop(phases: seq<Phase>, spent: seq<nat>, entry: (nat, nat, nat), r: Record, at: Mark)
    requires Linked(r) && r.stack != [] && Booked(phases, spent, r.history)
    requires Stands(phases, entry, r.history[r.stack[|r.stack| - 1]]) && entry.0 < |spent|
    ensures
      var (index, started, readBefore) := entry;
      Booked(
        phases[index := phases[index].(read := phases[index].read + Since(at.read, readBefore))],
        spent[index := spent[index] + Since(at.at, started)], ClosedTop(r, at).history)
  {
    assert OpenAt(r, |r.stack| - 1);
    BookedClose(phases, spent, r.history, r.stack[|r.stack| - 1], at, entry.0);
  }

  lemma StandClose(phases: seq<Phase>, open: seq<(nat, nat, nat)>, r: Record, at: Mark, total: nat, index: nat)
    requires Linked(r) && r.stack != [] && AllStand(phases, open, r) && index < |phases|
    ensures InRange(ClosedTop(r, at))
    ensures AllStand(phases[index := phases[index].(read := total)], open[..|open| - 1], ClosedTop(r, at))
  {
    var last := |open| - 1;
    assert OpenAt(r, last);
    forall k | 0 <= k < last ensures r.stack[k] != r.stack[last] && Stands(phases, open[k], r.history[r.stack[k]]) {
      assert OpenAt(r, k);
    }
  }

  lemma BookedOpen(phases: seq<Phase>, spent: seq<nat>, h: seq<Occurrence>, o: Occurrence, index: nat)
    requires Booked(phases, spent, h) && o.stop.None? && index <= |phases|
    requires forall i :: 0 <= i < index ==> phases[i].name != o.name
    requires index < |phases| ==> phases[index].name == o.name
    ensures index < |phases| ==>
      Booked(phases[index := phases[index].(count := phases[index].count + 1)], spent, h + [o])
    ensures index == |phases| ==>
      Booked(phases + [Phase(o.name, 0, 1, o.level % 0x1_0000, 0)], spent + [0], h + [o])
  {
    var h' := h + [o];
    assert h'[..|h|] == h;
    FirstsDistinct(h);
    forall i | 0 <= i < |phases|
      ensures Totals(phases[i].(count := phases[i].count + if i == index then 1 else 0), spent[i], Firsts(h)[i], h')
    {
      assert Totals(phases[i], spent[i], Firsts(h)[i], h);
      TotalsAppend(h, o, phases[i].name);
    }
    if index < |phases| {
      assert Totals(phases[index], spent[index], Firsts(h)[index], h);
      assert Firsts(h') == Firsts(h);
    } else {
      forall i | 0 <= i < |Firsts(h)| ensures Firsts(h)[i].0 != o.name {
        assert Totals(phases[i], spent[i], Firsts(h)[i], h);
      }
      assert Firsts(h') == Firsts(h) + [(o.name, o.level)];
      forall k | 0 <= k < |h| ensures h[k].name != o.name {
        var i := FirstsComplete(h, k);
      }
      NothingYet(h, o.name);
      TotalsAppend(h, o, o.name);
    }
  }

  lemma BookedClose(phases: seq<Phase>, spent: seq<nat>, h: seq<Occurrence>, top: nat, at: Mark, index: nat)
    requires Booked(phases, spent, h) && top < |h| && h[top].stop.None?
    requires index < |phases| && phases[index].name == h[top].name
    ensures Booked(
      phases[index := phases[index].(read := phases[index].read + Since(at.read, h[top].start.read))],
      spent[index := spent[index] + Since(at.at, h[top].start.at)],
      h[top := h[top].(stop := Some(at))])
  {
    var o := h[top].(stop := Some(at));
    FirstsUpdate(h, top, o);
    FirstsDistinct(h);
    forall i | 0 <= i < |phases|
      ensures Totals(
        phases[i].(read := phases[i].read + if i == index then ReadIn(o) else 0),
        spent[i] + if i == index then Took(o) else 0, Firsts(h)[i], h[top := o])
    {
      assert Totals(phases[i], spent[i], Firsts(h)[i], h);
      assert Totals(phases[index], spent[index], Firsts(h)[index], h);
      TotalsClose(h, top, at, phases[i].name);
    }
  }
}
