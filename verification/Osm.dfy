/**
 Ordered substring matching: greedy, resumable along a growing string. Texts are
 the bytes of already lower-cased strings, offsets are byte offsets.
 */
module Osm {
  import opened Prelude

  newtype byte = b: int | 0 <= b < 256

  type Bytes = seq<byte>

  datatype Progress = Progress(matched: nat, from: nat)

  predicate OccursAt(h: Bytes, needle: Bytes, i: int) {
    0 <= i && i + |needle| <= |h| && h[i..i + |needle|] == needle
  }

  /** The needle stands at `i`, anywhere up to the very end. */
  lemma OccursMeans(a: Bytes, needle: Bytes, b: Bytes)
    ensures OccursAt(a + needle + b, needle, |a|)
  {
    assert (a + needle + b)[|a|..|a| + |needle|] == needle;
  }

  /** The first occurrence at or after `from`. */
  function Find(h: Bytes, needle: Bytes, from: nat): Option<nat>
    decreases |h| + 1 - from
  {
    if from > |h| then None
    else if OccursAt(h, needle, from) then Some(from)
    else Find(h, needle, from + 1)
  }

  lemma {:induction false} FindsFirst(h: Bytes, needle: Bytes, from: nat)
    ensures var r := Find(h, needle, from);
      && (r.Some? ==> from <= r.value && OccursAt(h, needle, r.value))
      && (forall j :: from <= j < (if r.Some? then r.value else |h| + 1) ==> !OccursAt(h, needle, j))
    decreases |h| + 1 - from
  {
    if from <= |h| && !OccursAt(h, needle, from) {
      FindsFirst(h, needle, from + 1);
    }
  }

  /** As many further terms as `h` allows, each taken at its first occurrence. */
  ghost function Advance(h: Bytes, terms: seq<Bytes>, at: Progress): Progress
    decreases |terms| - at.matched
  {
    if at.matched >= |terms| then at
    else match Find(h, terms[at.matched], at.from)
      case None => at
      case Some(i) => Advance(h, terms, Progress(at.matched + 1, i + |terms[at.matched]|))
  }

  /** Consumes as many further terms as the haystack allows, left to right. */
  method OsmAdvance(h: Bytes, terms: seq<Bytes>, start: Progress) returns (at: Progress)
    requires start.from <= |h|
    ensures at == Advance(h, terms, start)
    ensures at.from <= |h|
  {
    at := start;
    while at.matched < |terms|
      invariant at.from <= |h|
      invariant Advance(h, terms, at) == Advance(h, terms, start)
      decreases |terms| - at.matched
    {
      var needle := terms[at.matched];
      FindsFirst(h, needle, at.from);
      match Find(h, needle, at.from) {
        case Some(i) =>
          at := Progress(at.matched + 1, i + |needle|);
        case None =>
          break;
      }
    }
  }

  // ── Greedy is optimal ────────────────────────────────────────────────────

  /** Where the term `i` may begin: past the one before it. */
  ghost function EndBefore(terms: seq<Bytes>, places: seq<int>, first: nat, from: int, i: nat): int
    requires first <= i < |terms| == |places|
  {
    if i == first then from else places[i - 1] + |terms[i - 1]|
  }

  /** `places` puts the terms from `first` up to `upto` in `h` in order, none
      overlapping, from `from` on. */
  ghost predicate Embeds(h: Bytes, terms: seq<Bytes>, first: nat, upto: nat, places: seq<int>, from: int) {
    && first <= upto <= |terms| == |places|
    && (forall i :: first <= i < upto ==>
          OccursAt(h, terms[i], places[i]) && EndBefore(terms, places, first, from, i) <= places[i])
  }

  lemma AdvanceStep(h: Bytes, terms: seq<Bytes>, at: Progress) returns (next: Progress)
    requires at.matched < |terms| && Find(h, terms[at.matched], at.from).Some?
    ensures next == Progress(at.matched + 1, Find(h, terms[at.matched], at.from).value + |terms[at.matched]|)
    ensures Advance(h, terms, at) == Advance(h, terms, next)
  {
    next := Progress(at.matched + 1, Find(h, terms[at.matched], at.from).value + |terms[at.matched]|);
  }

  lemma {:induction false} AdvanceOnlyGrows(h: Bytes, terms: seq<Bytes>, at: Progress)
    ensures Advance(h, terms, at).matched >= at.matched
    ensures at.matched <= |terms| ==> Advance(h, terms, at).matched <= |terms|
    decreases |terms| - at.matched
  {
    if at.matched < |terms| && Find(h, terms[at.matched], at.from).Some? {
      var next := AdvanceStep(h, terms, at);
      AdvanceOnlyGrows(h, terms, next);
    }
  }

  /** Any embedding of the next terms is overtaken by the greedy scan. */
  lemma {:induction false} GreedyKeepsUp(
    h: Bytes, terms: seq<Bytes>, at: Progress, upto: nat, places: seq<int>, from: int)
    requires at.from <= from && Embeds(h, terms, at.matched, upto, places, from)
    ensures Advance(h, terms, at).matched >= upto
    decreases upto - at.matched
  {
    if at.matched < upto {
      var k := at.matched;
      assert OccursAt(h, terms[k], places[k]) && from <= places[k];
      FindsFirst(h, terms[k], at.from);
      var next := AdvanceStep(h, terms, at);
      forall i | k + 1 <= i < upto
        ensures EndBefore(terms, places, k + 1, places[k] + |terms[k]|, i) <= places[i]
      {
        assert EndBefore(terms, places, k, from, i) <= places[i];
      }
      GreedyKeepsUp(h, terms, next, upto, places, places[k] + |terms[k]|);
    } else {
      AdvanceOnlyGrows(h, terms, at);
    }
  }

  /** The terms the scan consumes do embed. */
  lemma {:induction false} GreedyEmbeds(h: Bytes, terms: seq<Bytes>, at: Progress) returns (places: seq<int>)
    requires at.matched <= |terms|
    ensures Embeds(h, terms, at.matched, Advance(h, terms, at).matched, places, at.from)
    decreases |terms| - at.matched
  {
    AdvanceOnlyGrows(h, terms, at);
    if at.matched == |terms| || Find(h, terms[at.matched], at.from).None? {
      places := seq(|terms|, _ => 0);
    } else {
      var next := AdvanceStep(h, terms, at);
      var rest := GreedyEmbeds(h, terms, next);
      var k := at.matched;
      FindsFirst(h, terms[k], at.from);
      places := rest[k := Find(h, terms[k], at.from).value];
      var upto := Advance(h, terms, next).matched;
      forall i | k < i < upto
        ensures OccursAt(h, terms[i], places[i]) && EndBefore(terms, places, k, at.from, i) <= places[i]
      {
        assert OccursAt(h, terms[i], rest[i]) && EndBefore(terms, rest, k + 1, next.from, i) <= rest[i];
      }
    }
  }

  /** The scan consumes at least `k` terms exactly when the first `k` embed. */
  lemma GreedyIsOptimal(h: Bytes, terms: seq<Bytes>, k: nat)
    requires k <= |terms|
    ensures Advance(h, terms, Progress(0, 0)).matched >= k <==> exists places :: Embeds(h, terms, 0, k, places, 0)
  {
    var at := Progress(0, 0);
    if Advance(h, terms, at).matched >= k {
      var places := GreedyEmbeds(h, terms, at);
      assert Embeds(h, terms, 0, k, places, 0);
    }
    if places :| Embeds(h, terms, 0, k, places, 0) {
      GreedyKeepsUp(h, terms, at, k, places, 0);
    }
  }

  ghost function Lowered(terms: seq<Bytes>, lower: Bytes -> Bytes): seq<Bytes> {
    seq(|terms|, i requires 0 <= i < |terms| => lower(terms[i]))
  }

  /** The matching rule: the lower-cased terms are all consumed. */
  ghost predicate OrderedMatch(h: Bytes, terms: seq<Bytes>, lower: Bytes -> Bytes) {
    Advance(h, Lowered(terms, lower), Progress(0, 0)).matched == |terms|
  }

  /** The rule holds exactly when the terms occur in order without overlapping. */
  lemma OrderedMatchIsEmbedding(h: Bytes, terms: seq<Bytes>, lower: Bytes -> Bytes)
    ensures OrderedMatch(h, terms, lower) <==> exists places :: Embeds(h, Lowered(terms, lower), 0, |terms|, places, 0)
  {
    var ts := Lowered(terms, lower);
    GreedyIsOptimal(h, ts, |ts|);
    AdvanceOnlyGrows(h, ts, Progress(0, 0));
  }

  // ── Resuming ─────────────────────────────────────────────────────────────

  /** A first occurrence stays the first when the string grows. */
  lemma FindInPrefix(h: Bytes, longer: Bytes, needle: Bytes, from: nat)
    requires h <= longer && Find(h, needle, from).Some?
    ensures Find(longer, needle, from) == Find(h, needle, from)
  {
    var i := Find(h, needle, from).value;
    FindsFirst(h, needle, from);
    FindsFirst(longer, needle, from);
    forall j | from <= j <= i ensures OccursAt(longer, needle, j) <==> OccursAt(h, needle, j) {
      if j + |needle| <= |h| {
        assert longer[j..j + |needle|] == h[j..j + |needle|];
      }
    }
    assert OccursAt(longer, needle, i);
  }

  lemma {:induction false} ResumeFrom(h: Bytes, longer: Bytes, terms: seq<Bytes>, at: Progress, reached: Progress)
    requires h <= longer && reached == Advance(h, terms, at)
    ensures Advance(longer, terms, reached) == Advance(longer, terms, at)
    decreases |terms| - at.matched
  {
    if at.matched < |terms| && Find(h, terms[at.matched], at.from).Some? {
      FindInPrefix(h, longer, terms[at.matched], at.from);
      var next := AdvanceStep(h, terms, at);
      var same := AdvanceStep(longer, terms, at);
      ResumeFrom(h, longer, terms, next, reached);
    }
  }

  /** Resuming a prefix's scan on the longer string is scanning the longer
      string from the start. */
  lemma ResumeIsScan(h: Bytes, ext: Bytes, terms: seq<Bytes>, at: Progress)
    ensures Advance(h + ext, terms, Advance(h, terms, at)) == Advance(h + ext, terms, at)
  {
    ResumeFrom(h, h + ext, terms, at, Advance(h, terms, at));
  }
}
