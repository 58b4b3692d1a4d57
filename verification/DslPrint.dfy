/** Queries written out fully parenthesised, and what parsing them gives back. */
module DslPrint {
  import opened Prelude
  import Text
  import opened QueryIR
  import opened Dsl
  import opened DslGrammar

  predicate IsUuid(u: Uuid) {
    |u| == 32 && forall i :: 0 <= i < 32 ==> 0 <= u[i] < 16
  }

  function UuidText(u: Uuid): string
    requires IsUuid(u)
  {
    seq(32, i requires 0 <= i < 32 => Text.HexDigit(u[i], 'a') as char)
  }

  lemma UuidTextParses(u: Uuid)
    requires IsUuid(u)
    ensures TryParseUuid(UuidText(u)) == Some(u)
  {
    var text := UuidText(u);
    forall i | 0 <= i < 32 ensures Text.HexValue(text[i] as int) == Some(u[i]) {}
    assert TryParseUuid(text).value == u;
  }

  /** A term: not empty, no whitespace. */
  predicate IsTerm(t: string) {
    t != "" && forall i :: 0 <= i < |t| ==> !Text.IsWhitespace(t[i])
  }

  function JoinTerms(terms: seq<string>): string {
    if terms == [] then ""
    else if |terms| == 1 then terms[0]
    else terms[0] + " " + JoinTerms(terms[1..])
  }

  lemma {:induction false} ReadTerm(word: string, t: string, rest: string)
    requires forall i :: 0 <= i < |t| ==> !Text.IsWhitespace(t[i])
    ensures TermsFrom(word, t + rest) == TermsFrom(word + t, rest)
    decreases |t|
  {
    if t == "" {
      assert t + rest == rest && word + t == word;
    } else {
      assert (t + rest)[1..] == t[1..] + rest;
      ReadTerm(word + [t[0]], t[1..], rest);
      assert word + [t[0]] + t[1..] == word + t;
    }
  }

  /** Joined terms split back. */
  lemma {:induction false} JoinedTermsSplit(terms: seq<string>)
    requires forall i :: 0 <= i < |terms| ==> IsTerm(terms[i])
    ensures SplitTerms(JoinTerms(terms)) == terms
    decreases |terms|
  {
    if terms != [] {
      var t := terms[0];
      if |terms| == 1 {
        ReadTerm("", t, "");
        assert t + "" == t && "" + t == t;
      } else {
        var rest := JoinTerms(terms[1..]);
        assert JoinTerms(terms) == t + (" " + rest);
        ReadTerm("", t, " " + rest);
        assert "" + t == t;
        assert (" " + rest)[1..] == rest;
        JoinedTermsSplit(terms[1..]);
      }
    }
  }

  // ── Writing a query ──────────────────────────────────────────────────────

  /** What a text can express: no empty And or Or, proper UUIDs and terms. */
  predicate Printable(q: Query)
    decreases q
  {
    match q
    case And(ops) => ops != [] && forall i :: 0 <= i < |ops| ==> Printable(ops[i])
    case Or(ops) => ops != [] && forall i :: 0 <= i < |ops| ==> Printable(ops[i])
    case Not(p) => Printable(p)
    case Follows(_, Condition(p)) => Printable(p)
    case FollowsTransitive(_, Condition(p), _) => Printable(p)
    case SameAs(_, p) => Printable(p)
    case Osm(_, terms, _) => forall i :: 0 <= i < |terms| ==> IsTerm(terms[i])
    case UuidIn(uuids) => forall i :: 0 <= i < |uuids| ==> IsUuid(uuids[i])
    case _ => true
  }

  function WordOf(field: string): FieldWord {
    if |field| == 32 && AllHex(field) then HexField(field) else NameField(field)
  }

  function RefOf(field: string, aspect: Aspect): FieldRef {
    FieldRef(WordOf(field), if aspect == Raw then None else Some(aspect))
  }

  function UuidTexts(uuids: seq<Uuid>): (r: seq<string>)
    requires forall i :: 0 <= i < |uuids| ==> IsUuid(uuids[i])
    ensures |r| == |uuids| && forall i :: 0 <= i < |uuids| ==> r[i] == UuidText(uuids[i])
  {
    seq(|uuids|, i requires 0 <= i < |uuids| => UuidText(uuids[i]))
  }

  /** The kind of arrow a traversal is written with. */
  function KindOf(inclusive: bool): ArrowKind {
    if inclusive then Inclusive else Strict
  }

  function Grouped(c: Alt): UnaryT {
    AtomT(NestedA(GroupO, c))
  }

  function Alone(u: UnaryT): Alt {
    OneConj(OneUnary(u))
  }

  /** The fully parenthesised tree of a query. */
  function Tree(q: Query): UnaryT
    requires Printable(q)
    decreases q, 0
  {
    match q
    case And(ops) => Grouped(OneConj(ConjOf(ops)))
    case Or(ops) => Grouped(AltOf(ops))
    case Not(p) => NotT(Tree(p))
    case IsPresent(f, a) => AtomT(SimpleA(PresentS(RefOf(f, a))))
    case IsAbsent(f, a) => AtomT(SimpleA(AbsentS(RefOf(f, a))))
    case IsUnknown(f) => AtomT(SimpleA(UnknownS(RefOf(f, Raw))))
    case Compare(cmp, f, v, a) => AtomT(SimpleA(CompareS(cmp, RefOf(f, a), v)))
    case In(f, values, a) => AtomT(SimpleA(InS(RefOf(f, a), values, false)))
    case Follows(f, PathTarget(path)) => AtomT(SimpleA(PathS(One, RefOf(f, Raw), path)))
    case Follows(f, Condition(p)) => AtomT(NestedA(ArrowO(One, RefOf(f, Raw)), Alone(Tree(p))))
    case FollowsTransitive(f, PathTarget(path), inclusive) =>
      AtomT(SimpleA(PathS(KindOf(inclusive), RefOf(f, Raw), path)))
    case FollowsTransitive(f, Condition(p), inclusive) =>
      AtomT(NestedA(ArrowO(KindOf(inclusive), RefOf(f, Raw)), Alone(Tree(p))))
    case Matches(f, pattern, a) => AtomT(SimpleA(MatchesS(RefOf(f, a), pattern)))
    case Osm(f, terms, mode) => AtomT(SimpleA(OsmS(mode, RefOf(f, Raw), JoinTerms(terms))))
    case SameAs(f, p) => AtomT(NestedA(SameO(WordOf(f)), Alone(Tree(p))))
    case UuidIn(uuids) => AtomT(SimpleA(UuidListS(UuidTexts(uuids), false)))
  }

  function ConjOf(ops: seq<Query>): Conj
    requires ops != [] && forall i :: 0 <= i < |ops| ==> Printable(ops[i])
    decreases ops, 1
  {
    if |ops| == 1 then OneUnary(Tree(ops[0])) else MoreUnary(Tree(ops[0]), ConjOf(ops[1..]))
  }

  function AltOf(ops: seq<Query>): Alt
    requires ops != [] && forall i :: 0 <= i < |ops| ==> Printable(ops[i])
    decreases ops, 1
  {
    if |ops| == 1 then Alone(Tree(ops[0])) else MoreConj(OneUnary(Tree(ops[0])), AltOf(ops[1..]))
  }

  /** The fully parenthesised tokens of a query. */
  function Printed(q: Query): seq<Tok>
    requires Printable(q)
  {
    AltToks(Alone(Tree(q)))
  }

  // ── What parsing makes of it ─────────────────────────────────────────────

  /** One-operand And and Or unwrapped, a disjunction of UUID sets one set. */
  function Normal(q: Query): Query
    decreases q, 0
  {
    match q
    case And(ops) => FinishAnd(NormalAll(ops))
    case Or(ops) => FinishOr(NormalAll(ops))
    case Not(p) => Not(Normal(p))
    case Follows(f, Condition(p)) => Follows(f, Condition(Normal(p)))
    case FollowsTransitive(f, Condition(p), inclusive) => FollowsTransitive(f, Condition(Normal(p)), inclusive)
    case SameAs(f, p) => SameAs(f, Normal(p))
    case _ => q
  }

  function NormalAll(ops: seq<Query>): (r: seq<Query>)
    ensures |r| == |ops| && forall i :: 0 <= i < |ops| ==> r[i] == Normal(ops[i])
    decreases ops, 1
  {
    if ops == [] then [] else [Normal(ops[0])] + NormalAll(ops[1..])
  }

  /** Levels of nesting the written form has. */
  function QueryDepth(q: Query): nat
    decreases q, 0
  {
    match q
    case And(ops) => 1 + DeepestOf(ops)
    case Or(ops) => 1 + DeepestOf(ops)
    case Not(p) => 1 + QueryDepth(p)
    case Follows(_, Condition(p)) => 1 + QueryDepth(p)
    case FollowsTransitive(_, Condition(p), _) => 1 + QueryDepth(p)
    case SameAs(_, p) => 1 + QueryDepth(p)
    case _ => 0
  }

  function DeepestOf(ops: seq<Query>): nat
    decreases ops, 1
  {
    if ops == [] then 0 else Max(QueryDepth(ops[0]), DeepestOf(ops[1..]))
  }

  lemma UuidTextsParse(uuids: seq<Uuid>)
    requires forall i :: 0 <= i < |uuids| ==> IsUuid(uuids[i])
    ensures forall i :: 0 <= i < |uuids| ==> TryParseUuid(UuidTexts(uuids)[i]).Some?
    ensures UuidsOfTexts(UuidTexts(uuids)) == uuids
    decreases |uuids|
  {
    forall i | 0 <= i < |uuids| ensures TryParseUuid(UuidTexts(uuids)[i]) == Some(uuids[i]) {
      UuidTextParses(uuids[i]);
    }
    if uuids != [] {
      UuidTextsParse(uuids[1..]);
      assert UuidTexts(uuids)[1..] == UuidTexts(uuids[1..]);
    }
  }

  lemma NestedFacts(o: Opening, c: Alt)
    requires OpeningOk(o) && AltOk(c)
    ensures var t := AtomT(NestedA(o, c));
      UnaryOk(t) && UnaryQuery(t) == Build(WrapOf(o), AltQuery(c)) && UnaryDepth(t) == 1 + AltDepth(c)
  {
    var a := NestedA(o, c);
    assert AtomOk(a) && AtomQuery(a) == Build(WrapOf(o), AltQuery(c)) && AtomDepth(a) == 1 + AltDepth(c);
  }

  lemma AloneFacts(u: UnaryT)
    requires UnaryOk(u)
    ensures AltOk(Alone(u)) && AltQuery(Alone(u)) == UnaryQuery(u) && AltDepth(Alone(u)) == UnaryDepth(u)
  {
    var k := OneUnary(u);
    assert ConjOk(k) && ConjOps(k) == [UnaryQuery(u)] && ConjQuery(k) == UnaryQuery(u) && ConjDepth(k) == UnaryDepth(u);
    assert AltOps(Alone(u)) == [UnaryQuery(u)];
  }

  lemma {:induction false} TreeMeansNormal(q: Query)
    requires Printable(q)
    ensures UnaryOk(Tree(q)) && UnaryQuery(Tree(q)) == Normal(q) && UnaryDepth(Tree(q)) == QueryDepth(q)
    decreases q, 1
  {
    match q {
      case And(ops) => AndMeansNormal(ops);
      case Or(ops) => OrMeansNormal(ops);
      case Not(p) => TreeMeansNormal(p);
      case SameAs(f, p) => NestedMeansNormal(SameO(WordOf(f)), p);
      case Follows(_, Condition(_)) => ArrowMeansNormal(q);
      case FollowsTransitive(_, Condition(_), _) => ArrowMeansNormal(q);
      case _ => LeafMeansNormal(q);
    }
  }

  lemma {:induction false} ArrowMeansNormal(q: Query)
    requires Printable(q) && (q.Follows? || q.FollowsTransitive?) && q.target.Condition?
    ensures UnaryOk(Tree(q)) && UnaryQuery(Tree(q)) == Normal(q) && UnaryDepth(Tree(q)) == QueryDepth(q)
    decreases q, 0
  {
    match q
    case Follows(f, Condition(p)) => NestedMeansNormal(ArrowO(One, RefOf(f, Raw)), p);
    case FollowsTransitive(f, Condition(p), inclusive) =>
      NestedMeansNormal(ArrowO(KindOf(inclusive), RefOf(f, Raw)), p);
  }

  predicate Nests(q: Query) {
    || q.And? || q.Or? || q.Not? || q.SameAs?
    || ((q.Follows? || q.FollowsTransitive?) && q.target.Condition?)
  }

  lemma LeafMeansNormal(q: Query)
    requires Printable(q) && !Nests(q)
    ensures UnaryOk(Tree(q)) && UnaryQuery(Tree(q)) == Normal(q) && UnaryDepth(Tree(q)) == QueryDepth(q)
  {
    if q.Osm? {
      JoinedTermsSplit(q.terms);
    } else if q.UuidIn? {
      UuidTextsParse(q.uuids);
    }
    var a := Tree(q).a;
    assert AtomOk(a) && AtomQuery(a) == q && AtomDepth(a) == 0;
  }

  lemma GroupedConj(k: Conj)
    requires ConjOk(k)
    ensures var t := Grouped(OneConj(k));
      UnaryOk(t) && UnaryQuery(t) == ConjQuery(k) && UnaryDepth(t) == 1 + ConjDepth(k)
  {
    var c := OneConj(k);
    assert AltOk(c) && AltOps(c) == [ConjQuery(k)] && AltDepth(c) == ConjDepth(k);
    NestedFacts(GroupO, c);
  }

  lemma {:induction false} AndMeansNormal(ops: seq<Query>)
    requires ops != [] && forall i :: 0 <= i < |ops| ==> Printable(ops[i])
    ensures var t := Grouped(OneConj(ConjOf(ops)));
      UnaryOk(t) && UnaryQuery(t) == FinishAnd(NormalAll(ops)) && UnaryDepth(t) == 1 + DeepestOf(ops)
    decreases ops, 2
  {
    ConjMeansNormal(ops);
    GroupedConj(ConjOf(ops));
  }

  lemma {:induction false} OrMeansNormal(ops: seq<Query>)
    requires ops != [] && forall i :: 0 <= i < |ops| ==> Printable(ops[i])
    ensures var t := Grouped(AltOf(ops));
      UnaryOk(t) && UnaryQuery(t) == FinishOr(NormalAll(ops)) && UnaryDepth(t) == 1 + DeepestOf(ops)
    decreases ops, 2
  {
    AltMeansNormal(ops);
    NestedFacts(GroupO, AltOf(ops));
  }

  lemma {:induction false} NestedMeansNormal(o: Opening, p: Query)
    requires Printable(p) && OpeningOk(o)
    ensures var t := AtomT(NestedA(o, Alone(Tree(p))));
      UnaryOk(t) && UnaryQuery(t) == Build(WrapOf(o), Normal(p)) && UnaryDepth(t) == 1 + QueryDepth(p)
    decreases p, 2
  {
    TreeMeansNormal(p);
    AloneFacts(Tree(p));
    NestedFacts(o, Alone(Tree(p)));
  }

  lemma {:induction false} ConjMeansNormal(ops: seq<Query>)
    requires ops != [] && forall i :: 0 <= i < |ops| ==> Printable(ops[i])
    ensures ConjOk(ConjOf(ops)) && ConjOps(ConjOf(ops)) == NormalAll(ops) && ConjDepth(ConjOf(ops)) == DeepestOf(ops)
    decreases ops, 1
  {
    TreeMeansNormal(ops[0]);
    if |ops| > 1 {
      ConjMeansNormal(ops[1..]);
    } else {
      assert ops[1..] == [];
    }
  }

  lemma {:induction false} AltMeansNormal(ops: seq<Query>)
    requires ops != [] && forall i :: 0 <= i < |ops| ==> Printable(ops[i])
    ensures AltOk(AltOf(ops)) && AltOps(AltOf(ops)) == NormalAll(ops) && AltDepth(AltOf(ops)) == DeepestOf(ops)
    decreases ops, 1
  {
    TreeMeansNormal(ops[0]);
    AloneFacts(Tree(ops[0]));
    if |ops| > 1 {
      AltMeansNormal(ops[1..]);
    } else {
      assert ops[1..] == [];
    }
  }

  /** The written form of any query parses to its normal form, consuming every
      token; it is refused exactly when it nests beyond the bound. */
  lemma PrintedParses(q: Query)
    requires Printable(q)
    ensures ParseTokens(Printed(q)) == if 1 + QueryDepth(q) <= MAX_DEPTH then Ok(Normal(q)) else Err(TooDeep)
  {
    TreeMeansNormal(q);
    var c := Alone(Tree(q));
    AloneFacts(Tree(q));
    TextParses(c);
  }

  // ── The rewrite keeps the meaning ────────────────────────────────────────

  lemma {:induction false} InAllUuids(ops: seq<Query>, u: Uuid)
    requires forall i :: 0 <= i < |ops| ==> ops[i].UuidIn?
    ensures u in AllUuids(ops) <==> exists i :: 0 <= i < |ops| && u in ops[i].uuids
    decreases |ops|
  {
    if ops != [] {
      InAllUuids(ops[1..], u);
      if i :| 0 <= i < |ops[1..]| && u in ops[1..][i].uuids {
        assert ops[i + 1] == ops[1..][i];
      }
      if i :| 0 <= i < |ops| && u in ops[i].uuids {
        assert i > 0 ==> ops[1..][i - 1] == ops[i];
      }
    }
  }

  /** Folding a disjunction of UUID sets, or unwrapping a single operand,
      matches the same records. */
  lemma FoldKeepsMeaning(w: World, ops: seq<Query>)
    requires ops != []
    requires forall i :: 0 <= i < |ops| ==> Eval(w, ops[i]) <= w.all
    ensures Eval(w, FinishOr(ops)) == Eval(w, Or(ops))
    ensures Eval(w, FinishAnd(ops)) == Eval(w, And(ops))
  {
    if |ops| == 1 {
      assert Eval(w, ops[0]) == Eval(w, Or(ops)) == Eval(w, And(ops));
    } else if forall i :: 0 <= i < |ops| ==> ops[i].UuidIn? {
      forall r | r in w.all ensures r in Eval(w, UuidIn(AllUuids(ops))) <==> r in Eval(w, Or(ops)) {
        InAllUuids(ops, w.uuidOf(r));
        if i :| 0 <= i < |ops| && w.uuidOf(r) in ops[i].uuids {
          assert r in Eval(w, ops[i]);
        }
        if i :| 0 <= i < |ops| && r in Eval(w, ops[i]) {
          assert w.uuidOf(r) in ops[i].uuids;
        }
      }
    }
  }

  lemma MatchesWithin(w: World, q: Query)
    ensures Eval(w, q) <= w.all
  {
  }

  lemma SameOperands(w: World, ops: seq<Query>, ps: seq<Query>)
    requires |ops| == |ps| && forall i :: 0 <= i < |ops| ==> Eval(w, ops[i]) == Eval(w, ps[i])
    ensures Eval(w, And(ops)) == Eval(w, And(ps)) && Eval(w, Or(ops)) == Eval(w, Or(ps))
  {
  }

  /** The normal form matches the same records, under any reading. */
  lemma {:induction false} NormalKeepsMeaning(w: World, q: Query)
    requires Printable(q)
    ensures Eval(w, Normal(q)) == Eval(w, q)
    decreases q
  {
    match q {
      case And(ops) => OperandsKeepMeaning(w, q, ops);
      case Or(ops) => OperandsKeepMeaning(w, q, ops);
      case Not(p) => NormalKeepsMeaning(w, p);
      case Follows(f, Condition(p)) => NormalKeepsMeaning(w, p);
      case FollowsTransitive(f, Condition(p), inclusive) => NormalKeepsMeaning(w, p);
      case SameAs(f, p) => NormalKeepsMeaning(w, p);
      case _ =>
    }
  }

  lemma {:induction false} OperandsKeepMeaning(w: World, q: Query, ops: seq<Query>)
    requires Printable(q) && (q == And(ops) || q == Or(ops))
    ensures Eval(w, Normal(q)) == Eval(w, q)
    decreases q, 0
  {
    var ps := NormalAll(ops);
    forall i | 0 <= i < |ops| ensures Eval(w, ops[i]) == Eval(w, ps[i]) && Eval(w, ps[i]) <= w.all {
      NormalKeepsMeaning(w, ops[i]);
      MatchesWithin(w, ps[i]);
    }
    SameOperands(w, ops, ps);
    FoldKeepsMeaning(w, ps);
  }

  /** A query in normal form is what its written form parses to. */
  lemma {:induction false} NormalTwice(q: Query)
    requires Printable(q)
    ensures Normal(Normal(q)) == Normal(q)
    decreases q
  {
    match q {
      case And(ops) =>
        var ps := NormalAll(ops);
        forall i | 0 <= i < |ops| ensures Normal(ps[i]) == ps[i] {
          NormalTwice(ops[i]);
        }
        assert NormalAll(ps) == ps;
      case Or(ops) =>
        var ps := NormalAll(ops);
        forall i | 0 <= i < |ops| ensures Normal(ps[i]) == ps[i] {
          NormalTwice(ops[i]);
        }
        assert NormalAll(ps) == ps;
      case Not(p) => NormalTwice(p);
      case Follows(f, Condition(p)) => NormalTwice(p);
      case FollowsTransitive(f, Condition(p), inclusive) => NormalTwice(p);
      case SameAs(f, p) => NormalTwice(p);
      case _ =>
    }
  }

  /** Parsing the written form of any query within the bound succeeds and the
      result matches the same records, under any reading of the predicates. */
  lemma ParsedFormMeansTheQuery(w: World, q: Query)
    requires Printable(q) && 1 + QueryDepth(q) <= MAX_DEPTH
    ensures ParseTokens(Printed(q)).Ok? && Eval(w, ParseTokens(Printed(q)).value) == Eval(w, q)
  {
    PrintedParses(q);
    NormalKeepsMeaning(w, q);
  }
}
