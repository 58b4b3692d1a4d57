/** Query predicates and what they match. */
module QueryIR {
  import Text

  /** A UUID as its 32 hexadecimal digits. */
  type Uuid = seq<int>

  /** A literal a query text can hold. */
  datatype Value = IntV(n: int) | FloatV(x: real) | DateTimeV(ms: int) | StringV(s: string) | BoolV(b: bool)

  datatype Aspect = Raw | ValueAspect | ParentAspect | PathAspect

  datatype OsmMode = DirectMode | PathMode

  datatype Cmp = Eq | Neq | Lt | Lte | Gt | Gte

  datatype Query =
    | And(operands: seq<Query>)
    | Or(operands: seq<Query>)
    | Not(operand: Query)
    | IsPresent(field: string, aspect: Aspect)
    | IsAbsent(field: string, aspect: Aspect)
    | IsUnknown(field: string)
    | Compare(cmp: Cmp, field: string, value: Value, aspect: Aspect)
    | In(field: string, values: seq<Value>, aspect: Aspect)
    | Follows(field: string, target: Target)
    | FollowsTransitive(field: string, target: Target, inclusive: bool)
    | Matches(field: string, pattern: string, aspect: Aspect)
    | Osm(field: string, terms: seq<string>, mode: OsmMode)
    | SameAs(field: string, query: Query)
    | UuidIn(uuids: seq<Uuid>)

  datatype Target = PathTarget(path: string) | Condition(query: Query)

  /** Splits a term string on whitespace, dropping empty runs. */
  function SplitTerms(s: string): seq<string> {
    TermsFrom("", s)
  }

  /** The terms of `s` once `word` has been read. */
  function TermsFrom(word: string, s: string): seq<string>
    decreases |s|
  {
    if s == "" then (if word == "" then [] else [word])
    else if Text.IsWhitespace(s[0]) then (if word == "" then [] else [word]) + TermsFrom("", s[1..])
    else TermsFrom(word + [s[0]], s[1..])
  }

  /** Each term is what lies between bounds of `s` with whitespace or an end of the
      text on both sides and none inside, in the order of the text; whatever is no
      whitespace from `start` on lies in one of them. */
  ghost predicate AreRuns(s: string, start: nat, terms: seq<string>, bounds: seq<(nat, nat)>) {
    && |bounds| == |terms| && (forall k :: 0 <= k < |terms| ==> IsTermAt(s, terms[k], bounds[k]))
    && InTurn(start, bounds) && AllIn(s, start, bounds)
  }

  ghost predicate IsTermAt(s: string, term: string, at: (nat, nat)) {
    IsRun(s, at.0, at.1) && term == s[at.0..at.1]
  }

  ghost predicate InTurn(start: nat, bounds: seq<(nat, nat)>) {
    && (forall k :: 0 <= k < |bounds| ==> start <= bounds[k].0)
    && forall k, l :: 0 <= k < l < |bounds| ==> bounds[k].1 < bounds[l].0
  }

  ghost predicate AllIn(s: string, start: nat, bounds: seq<(nat, nat)>) {
    forall i :: start <= i < |s| && !Text.IsWhitespace(s[i]) ==> InOne(bounds, i)
  }

  ghost predicate IsRun(s: string, from: nat, to: nat) {
    && from < to <= |s| && (forall i :: from <= i < to ==> !Text.IsWhitespace(s[i]))
    && (from > 0 ==> Text.IsWhitespace(s[from - 1])) && (to < |s| ==> Text.IsWhitespace(s[to]))
  }

  ghost predicate InOne(bounds: seq<(nat, nat)>, i: nat) {
    exists k :: 0 <= k < |bounds| && bounds[k].0 <= i < bounds[k].1
  }

  /** The terms are the maximal runs without whitespace from `start` on. */
  ghost predicate AllRuns(s: string, start: nat, terms: seq<string>) {
    exists bounds :: AreRuns(s, start, terms, bounds)
  }

  /** The terms of a text are its maximal runs without whitespace. */
  lemma TermsAreRuns(s: string)
    ensures AllRuns(s, 0, SplitTerms(s))
  {
    var bounds := RunsFrom(s, 0, 0);
    TermsAtIs(s, 0, 0);
    assert s[0..0] == "" && s[0..] == s;
  }

  /** The terms once the text is read up to `at`, by positions: one has begun at `start`. */
  ghost function TermsAt(s: string, start: nat, at: nat): seq<string>
    requires start <= at <= |s|
    decreases |s| - at
  {
    if at == |s| then (if start == at then [] else [s[start..at]])
    else if Text.IsWhitespace(s[at])
    then (if start == at then [] else [s[start..at]]) + TermsAt(s, at + 1, at + 1)
    else TermsAt(s, start, at + 1)
  }

  lemma {:induction false} TermsAtIs(s: string, start: nat, at: nat)
    requires start <= at <= |s|
    ensures TermsAt(s, start, at) == TermsFrom(s[start..at], s[at..])
    decreases |s| - at
  {
    TermsStep(s, start, at);
    if at < |s| {
      if Text.IsWhitespace(s[at]) {
        TermsAtIs(s, at + 1, at + 1);
      } else {
        TermsAtIs(s, start, at + 1);
      }
    }
  }

  /** A term, perhaps empty so far, has begun at `start`. */
  ghost predicate Begun(s: string, start: nat, at: nat)
    requires start <= at <= |s|
  {
    if at == start then start > 0 ==> Text.IsWhitespace(s[start - 1])
    else !Text.IsWhitespace(s[at - 1]) && Begun(s, start, at - 1)
  }

  lemma {:induction false} BegunMeans(s: string, start: nat, at: nat)
    requires start <= at <= |s| && Begun(s, start, at)
    ensures start > 0 ==> Text.IsWhitespace(s[start - 1])
    ensures forall i :: start <= i < at ==> !Text.IsWhitespace(s[i])
  {
    if at > start {
      BegunMeans(s, start, at - 1);
    }
  }

  lemma {:induction false} RunsFrom(s: string, start: nat, at: nat) returns (bounds: seq<(nat, nat)>)
    requires start <= at <= |s| && Begun(s, start, at)
    ensures AreRuns(s, start, TermsAt(s, start, at), bounds)
    decreases |s| - at
  {
    if at == |s| {
      bounds := OneRun(s, start, at);
    } else if Text.IsWhitespace(s[at]) {
      var rest := RunsFrom(s, at + 1, at + 1);
      bounds := RunBefore(s, start, at, TermsAt(s, at + 1, at + 1), rest);
    } else {
      bounds := RunsFrom(s, start, at + 1);
    }
  }

  /** A run, if any, before a whitespace and the runs after it. */
  lemma RunBefore(s: string, start: nat, at: nat, terms: seq<string>, rest: seq<(nat, nat)>)
    returns (bounds: seq<(nat, nat)>)
    requires start <= at < |s| && Text.IsWhitespace(s[at]) && Begun(s, start, at)
    requires AreRuns(s, at + 1, terms, rest)
    ensures AreRuns(s, start, (if start == at then [] else [s[start..at]]) + terms, bounds)
  {
    BegunMeans(s, start, at);
    if start == at {
      NoMoreRuns(s, at, terms, rest);
      bounds := rest;
      assert [] + terms == terms;
    } else {
      MoreRuns(s, start, at, terms, rest);
      bounds := [(start, at)] + rest;
    }
  }

  /** One more character read. */
  lemma TermsStep(s: string, start: nat, at: nat)
    requires start <= at <= |s|
    ensures TermsFrom(s[start..at], s[at..]) ==
      if at == |s| then (if start == at then [] else [s[start..at]])
      else if Text.IsWhitespace(s[at]) then
        (if start == at then [] else [s[start..at]]) + TermsFrom(s[at + 1..at + 1], s[at + 1..])
      else TermsFrom(s[start..at + 1], s[at + 1..])
  {
    if at < |s| {
      assert s[at..][1..] == s[at + 1..] && s[at + 1..at + 1] == "";
      assert s[start..at] + [s[at]] == s[start..at + 1];
    }
  }

  /** A run before a whitespace and the runs after it. */
  lemma MoreRuns(s: string, start: nat, at: nat, terms: seq<string>, rest: seq<(nat, nat)>)
    requires start < at < |s| && Text.IsWhitespace(s[at]) && (start > 0 ==> Text.IsWhitespace(s[start - 1]))
    requires forall i :: start <= i < at ==> !Text.IsWhitespace(s[i])
    requires AreRuns(s, at + 1, terms, rest)
    ensures AreRuns(s, start, [s[start..at]] + terms, [(start, at)] + rest)
  {
    var all, bounds := [s[start..at]] + terms, [(start, at)] + rest;
    forall i | start <= i < |s| && !Text.IsWhitespace(s[i]) ensures InOne(bounds, i) {
      InOneMore(start, at, rest, i);
    }
    forall k | 0 <= k < |all| ensures IsTermAt(s, all[k], bounds[k]) {
      assert k > 0 ==> all[k] == terms[k - 1] && bounds[k] == rest[k - 1];
    }
    FirstInTurn(start, at, rest);
  }

  lemma FirstInTurn(start: nat, at: nat, rest: seq<(nat, nat)>)
    requires start <= at && InTurn(at + 1, rest)
    ensures InTurn(start, [(start, at)] + rest)
  {
    var bounds := [(start, at)] + rest;
    assert forall k :: 0 < k < |bounds| ==> bounds[k] == rest[k - 1];
  }

  /** The runs after a whitespace with nothing before it. */
  lemma NoMoreRuns(s: string, at: nat, terms: seq<string>, rest: seq<(nat, nat)>)
    requires at < |s| && Text.IsWhitespace(s[at]) && AreRuns(s, at + 1, terms, rest)
    ensures AreRuns(s, at, terms, rest)
  {
  }

  lemma InOneMore(start: nat, at: nat, rest: seq<(nat, nat)>, i: nat)
    requires start <= i < at || InOne(rest, i)
    ensures InOne([(start, at)] + rest, i)
  {
    var bounds := [(start, at)] + rest;
    if start <= i < at {
      assert bounds[0].0 <= i < bounds[0].1;
    } else {
      var k :| 0 <= k < |rest| && rest[k].0 <= i < rest[k].1;
      assert bounds[k + 1] == rest[k];
    }
  }

  lemma OneRun(s: string, start: nat, at: nat) returns (bounds: seq<(nat, nat)>)
    requires start <= at == |s| && Begun(s, start, at)
    ensures AreRuns(s, start, if start == at then [] else [s[start..at]], bounds)
  {
    BegunMeans(s, start, at);
    bounds := if start == at then [] else [(start, at)];
    forall i | start <= i < |s| ensures InOne(bounds, i) {
      assert bounds[0].0 <= i < bounds[0].1;
    }
  }

  // ── Meaning ──────────────────────────────────────────────────────────────

  type Rec = nat

  /** Any reading of the predicates: which records there are and their UUIDs,
      which records a simple predicate holds of, and which records a traversal
      reaches from the set its target matches. */
  datatype World = World(
    all: set<Rec>,
    uuidOf: Rec -> Uuid,
    simple: Query -> set<Rec>,
    follows: (string, set<Rec>) -> set<Rec>,
    descends: (string, set<Rec>, bool) -> set<Rec>,
    same: (string, set<Rec>) -> set<Rec>)

  /** The records a query matches. */
  ghost function Eval(w: World, q: Query): set<Rec> {
    match q
    case And(ops) => set r | r in w.all && forall i :: 0 <= i < |ops| ==> r in Eval(w, ops[i])
    case Or(ops) => set r | r in w.all && exists i :: 0 <= i < |ops| && r in Eval(w, ops[i])
    case Not(p) => w.all - Eval(w, p)
    case In(field, values, aspect) =>
      set r | r in w.all && exists i :: 0 <= i < |values| && r in w.simple(Compare(Eq, field, values[i], aspect))
    case Follows(field, Condition(p)) => w.all * w.follows(field, Eval(w, p))
    case FollowsTransitive(field, Condition(p), inclusive) => w.all * w.descends(field, Eval(w, p), inclusive)
    case SameAs(field, p) => w.all * w.same(field, Eval(w, p))
    case UuidIn(uuids) => set r | r in w.all && w.uuidOf(r) in uuids
    case _ => w.all * w.simple(q)
  }
}
