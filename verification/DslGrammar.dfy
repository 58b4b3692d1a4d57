/**
 The grammar of the query language as syntax trees, each with the tokens it is
 written as and the query it means. The parser accepts exactly these texts.
 */
module DslGrammar {
  import opened Prelude
  import opened QueryIR
  import opened Dsl

  /** A field as it is spelled: a name, or 32 hexadecimal digits. */
  datatype FieldWord = NameField(name: string) | HexField(text: string)

  /** A field with the aspect written after it, if any. */
  datatype FieldRef = FieldRef(word: FieldWord, aspect: Option<Aspect>)

  datatype Simple =
    | PresentS(f: FieldRef)
    | AbsentS(f: FieldRef)
    | UnknownS(f: FieldRef)
    | CompareS(cmp: Cmp, f: FieldRef, v: Value)
    | MatchesS(f: FieldRef, pattern: string)
    | PathS(kind: ArrowKind, f: FieldRef, path: string)
    | OsmS(mode: OsmMode, f: FieldRef, text: string)
    | UuidListS(texts: seq<string>, trailing: bool)
    | InS(f: FieldRef, values: seq<Value>, trailing: bool)
    | BareS(text: string)

  datatype Opening = GroupO | SameO(word: FieldWord) | ArrowO(kind: ArrowKind, f: FieldRef)

  datatype Alt = OneConj(c: Conj) | MoreConj(c: Conj, tail: Alt)

  datatype Conj = OneUnary(u: UnaryT) | MoreUnary(u: UnaryT, tail: Conj)

  datatype UnaryT = NotT(u: UnaryT) | AtomT(a: AtomTree)

  datatype AtomTree = SimpleA(s: Simple) | NestedA(o: Opening, inner: Alt)

  // ── What is written ──────────────────────────────────────────────────────

  function WordTok(w: FieldWord): Tok {
    match w case NameField(name) => Ident(name) case HexField(text) => Hex(text)
  }

  function AspectName(a: Aspect): string {
    match a
    case Raw => "raw"
    case ValueAspect => "value"
    case ParentAspect => "parent"
    case PathAspect => "path"
  }

  function FieldToks(f: FieldRef): seq<Tok> {
    [WordTok(f.word)] + AspectToks(f.aspect)
  }

  function AspectToks(a: Option<Aspect>): seq<Tok> {
    if a.Some? then [Colon, Ident(AspectName(a.value))] else []
  }

  function ValueTok(v: Value): Tok {
    match v
    case IntV(n) => IntTok(n)
    case FloatV(x) => FloatTok(x)
    case DateTimeV(ms) => DateTimeTok(ms)
    case StringV(s) => Str(s)
    case BoolV(b) => if b then True else False
  }

  function InToks(values: seq<Value>, trailing: bool): seq<Tok> {
    if values == [] then (if trailing then [Comma] else []) + [RParen]
    else [Comma, ValueTok(values[0])] + InToks(values[1..], trailing)
  }

  function UuidToks(texts: seq<string>, trailing: bool): seq<Tok> {
    if texts == [] then [RParen]
    else if |texts| == 1 then [Hex(texts[0])] + (if trailing then [Comma] else []) + [RParen]
    else [Hex(texts[0]), Comma] + UuidToks(texts[1..], trailing)
  }

  function ArrowTok(kind: ArrowKind): Tok {
    match kind case One => Arrow case Strict => ArrowStar case Inclusive => FatArrowStar
  }

  function OsmName(mode: OsmMode): string {
    match mode case PathMode => "osm" case DirectMode => "osmd"
  }

  function SimpleToks(s: Simple): seq<Tok> {
    match s
    case PresentS(f) => FieldToks(f) + [Is, Present]
    case AbsentS(f) => FieldToks(f) + [Is, Absent]
    case UnknownS(f) => FieldToks(f) + [Is, Unknown]
    case CompareS(cmp, f, v) => FieldToks(f) + [CmpTok(cmp), ValueTok(v)]
    case MatchesS(f, pattern) => FieldToks(f) + [MatchesTok, Str(pattern)]
    case PathS(kind, f, path) => FieldToks(f) + [ArrowTok(kind), Str(path)]
    case OsmS(mode, f, text) => [Ident(OsmName(mode)), LParen] + FieldToks(f) + [Comma, Str(text), RParen]
    case UuidListS(texts, trailing) => [Ident("uuid_in"), LParen] + UuidToks(texts, trailing)
    case InS(f, values, trailing) => [Ident("in"), LParen] + FieldToks(f) + InToks(values, trailing)
    case BareS(text) => [Hex(text)]
  }

  function OpeningToks(o: Opening): seq<Tok> {
    match o
    case GroupO => [LParen]
    case SameO(w) => [Ident("same"), LParen, WordTok(w), Comma]
    case ArrowO(kind, f) => FieldToks(f) + [ArrowTok(kind), LParen]
  }

  function AltToks(c: Alt): seq<Tok> {
    match c
    case OneConj(k) => ConjToks(k)
    case MoreConj(k, tail) => ConjToks(k) + [OrTok] + AltToks(tail)
  }

  function ConjToks(c: Conj): seq<Tok> {
    match c
    case OneUnary(u) => UnaryToks(u)
    case MoreUnary(u, tail) => UnaryToks(u) + [AndTok] + ConjToks(tail)
  }

  function UnaryToks(u: UnaryT): seq<Tok> {
    match u
    case NotT(v) => [NotTok] + UnaryToks(v)
    case AtomT(a) => AtomToks(a)
  }

  function AtomToks(a: AtomTree): seq<Tok> {
    match a
    case SimpleA(s) => SimpleToks(s)
    case NestedA(o, inner) => OpeningToks(o) + AltToks(inner) + [RParen]
  }

  // ── What it means ────────────────────────────────────────────────────────

  function WordName(w: FieldWord): string {
    match w case NameField(name) => name case HexField(text) => text
  }

  function AspectOf(f: FieldRef): Aspect {
    if f.aspect.Some? then f.aspect.value else Raw
  }

  function UuidsOfTexts(texts: seq<string>): seq<Uuid>
    requires forall i :: 0 <= i < |texts| ==> TryParseUuid(texts[i]).Some?
  {
    if texts == [] then [] else [TryParseUuid(texts[0]).value] + UuidsOfTexts(texts[1..])
  }

  /** The side conditions of the grammar. */
  predicate SimpleOk(s: Simple) {
    match s
    case UnknownS(f) => AspectOf(f) == Raw
    case PathS(_, f, _) => AspectOf(f) == Raw
    case OsmS(mode, f, _) => AspectOf(f) == Raw || AspectOf(f) == (if mode.PathMode? then PathAspect else ValueAspect)
    case UuidListS(texts, _) => forall i :: 0 <= i < |texts| ==> TryParseUuid(texts[i]).Some?
    case BareS(text) => TryParseUuid(text).Some?
    case _ => true
  }

  predicate OpeningOk(o: Opening) {
    o.ArrowO? ==> AspectOf(o.f) == Raw
  }

  predicate AltOk(c: Alt) {
    match c case OneConj(k) => ConjOk(k) case MoreConj(k, tail) => ConjOk(k) && AltOk(tail)
  }

  predicate ConjOk(c: Conj) {
    match c case OneUnary(u) => UnaryOk(u) case MoreUnary(u, tail) => UnaryOk(u) && ConjOk(tail)
  }

  predicate UnaryOk(u: UnaryT) {
    match u case NotT(v) => UnaryOk(v) case AtomT(a) => AtomOk(a)
  }

  predicate AtomOk(a: AtomTree) {
    match a case SimpleA(s) => SimpleOk(s) case NestedA(o, inner) => OpeningOk(o) && AltOk(inner)
  }

  function SimpleQuery(s: Simple): Query
    requires SimpleOk(s)
  {
    match s
    case PresentS(f) => IsPresent(WordName(f.word), AspectOf(f))
    case AbsentS(f) => IsAbsent(WordName(f.word), AspectOf(f))
    case UnknownS(f) => IsUnknown(WordName(f.word))
    case CompareS(cmp, f, v) => Compare(cmp, WordName(f.word), v, AspectOf(f))
    case MatchesS(f, pattern) => Matches(WordName(f.word), pattern, AspectOf(f))
    case PathS(kind, f, path) => ArrowQuery(kind, WordName(f.word), PathTarget(path))
    case OsmS(mode, f, text) => Osm(WordName(f.word), SplitTerms(text), mode)
    case UuidListS(texts, _) => UuidIn(UuidsOfTexts(texts))
    case InS(f, values, _) => In(WordName(f.word), values, AspectOf(f))
    case BareS(text) => UuidIn([TryParseUuid(text).value])
  }

  function WrapOf(o: Opening): Wrap {
    match o
    case GroupO => Group
    case SameO(w) => SameOf(WordName(w))
    case ArrowO(kind, f) => Arrows(kind, WordName(f.word))
  }

  function AltOps(c: Alt): seq<Query>
    requires AltOk(c)
    decreases c, 0
  {
    match c
    case OneConj(k) => [ConjQuery(k)]
    case MoreConj(k, tail) => [ConjQuery(k)] + AltOps(tail)
  }

  function AltQuery(c: Alt): Query
    requires AltOk(c)
    decreases c, 1
  {
    FinishOr(AltOps(c))
  }

  function ConjOps(c: Conj): seq<Query>
    requires ConjOk(c)
    decreases c, 0
  {
    match c
    case OneUnary(u) => [UnaryQuery(u)]
    case MoreUnary(u, tail) => [UnaryQuery(u)] + ConjOps(tail)
  }

  function ConjQuery(c: Conj): Query
    requires ConjOk(c)
    decreases c, 1
  {
    FinishAnd(ConjOps(c))
  }

  function UnaryQuery(u: UnaryT): Query
    requires UnaryOk(u)
  {
    match u case NotT(v) => Not(UnaryQuery(v)) case AtomT(a) => AtomQuery(a)
  }

  function AtomQuery(a: AtomTree): Query
    requires AtomOk(a)
  {
    match a
    case SimpleA(s) => SimpleQuery(s)
    case NestedA(o, inner) => Build(WrapOf(o), AltQuery(inner))
  }

  // ── How deep it nests ────────────────────────────────────────────────────

  function Max(a: nat, b: nat): nat {
    if a > b then a else b
  }

  /** Levels below a disjunction already entered. */
  function AltDepth(c: Alt): nat {
    match c case OneConj(k) => ConjDepth(k) case MoreConj(k, tail) => Max(ConjDepth(k), AltDepth(tail))
  }

  function ConjDepth(c: Conj): nat {
    match c case OneUnary(u) => UnaryDepth(u) case MoreUnary(u, tail) => Max(UnaryDepth(u), ConjDepth(tail))
  }

  function UnaryDepth(u: UnaryT): nat {
    match u case NotT(v) => 1 + UnaryDepth(v) case AtomT(a) => AtomDepth(a)
  }

  function AtomDepth(a: AtomTree): nat {
    match a case SimpleA(_) => 0 case NestedA(_, inner) => 1 + AltDepth(inner)
  }

  // ── The pieces parse ─────────────────────────────────────────────────────

  lemma AspectParses(a: Option<Aspect>, rest: seq<Tok>)
    requires rest != [] && !rest[0].Colon?
    ensures AspectPart(AspectToks(a) + rest) == Parsed(if a.Some? then a.value else Raw, rest)
  {
    if a.Some? {
      assert (AspectToks(a) + rest)[2..] == rest;
      assert (AspectToks(a) + rest)[1] == Ident(AspectName(a.value));
    } else {
      assert AspectToks(a) + rest == rest;
    }
  }

  lemma {:induction false} InParses(values: seq<Value>, trailing: bool, rest: seq<Tok>, before: seq<Value>)
    ensures InItems(InToks(values, trailing) + rest, before) == Parsed(before + values, rest)
    decreases |values|
  {
    var ts := InToks(values, trailing) + rest;
    if values == [] {
      assert before + values == before;
      if trailing {
        assert ts == [Comma, RParen] + rest;
        assert ts[1..] == [RParen] + rest;
        assert ts[1..][1..] == rest;
      } else {
        assert ts == [RParen] + rest;
        assert ts[1..] == rest;
      }
    } else {
      var tail := InToks(values[1..], trailing) + rest;
      assert ts == [Comma, ValueTok(values[0])] + tail;
      assert ts[1..] == [ValueTok(values[0])] + tail;
      assert ts[1..][1..] == tail;
      assert Literal(ts[1..]) == Parsed(values[0], tail);
      InParses(values[1..], trailing, rest, before + [values[0]]);
      assert before + [values[0]] + values[1..] == before + values;
    }
  }

  lemma {:induction false} UuidsParse(texts: seq<string>, trailing: bool, rest: seq<Tok>, before: seq<Uuid>)
    requires forall i :: 0 <= i < |texts| ==> TryParseUuid(texts[i]).Some?
    ensures UuidItems(UuidToks(texts, trailing) + rest, before) == Parsed(before + UuidsOfTexts(texts), rest)
    decreases |texts|
  {
    var ts := UuidToks(texts, trailing) + rest;
    if texts == [] {
      assert ts[1..] == rest;
      assert before + [] == before;
    } else {
      var u := TryParseUuid(texts[0]).value;
      if |texts| == 1 {
        assert UuidsOfTexts(texts[1..]) == [];
        assert UuidsOfTexts(texts) == [u];
        if trailing {
          assert ts == [Hex(texts[0]), Comma, RParen] + rest;
          assert ts[2..] == [RParen] + rest;
          assert ts[2..][1..] == rest;
        } else {
          assert ts == [Hex(texts[0]), RParen] + rest;
          assert ts[2..] == rest;
        }
      } else {
        var tail := UuidToks(texts[1..], trailing) + rest;
        assert ts == [Hex(texts[0]), Comma] + tail;
        assert ts[2..] == tail;
        UuidsParse(texts[1..], trailing, rest, before + [u]);
        assert before + [u] + UuidsOfTexts(texts[1..]) == before + UuidsOfTexts(texts);
      }
    }
  }

  lemma FieldParses(f: FieldRef, rest: seq<Tok>)
    requires rest != [] && !rest[0].Colon?
    ensures FieldName(FieldToks(f) + rest) == Parsed(WordName(f.word), AspectToks(f.aspect) + rest)
    ensures AspectPart(AspectToks(f.aspect) + rest) == Parsed(AspectOf(f), rest)
  {
    assert (FieldToks(f) + rest)[1..] == AspectToks(f.aspect) + rest;
    AspectParses(f.aspect, rest);
  }

  lemma PredicateDispatch(word: Tok, ts: seq<Tok>)
    requires (word.Ident? || word.Hex?) && NextFollowsAField(ts)
    ensures AtomHead([word] + ts) == PredicateHead([word] + ts)
  {
    assert ([word] + ts)[1..] == ts;
  }

  /** A field and its aspect, then an operation, reads as a predicate. */
  lemma PredicateParses(f: FieldRef, op: seq<Tok>)
    requires op != [] && IsOperator(op[0])
    ensures AtomHead(FieldToks(f) + op) == Operation(WordName(f.word), AspectOf(f), op)
  {
    var ts1 := AspectToks(f.aspect) + op;
    assert FieldToks(f) + op == [WordTok(f.word)] + ts1;
    assert NextFollowsAField(ts1);
    PredicateDispatch(WordTok(f.word), ts1);
    FieldParses(f, op);
  }

  lemma OsmDispatch(mode: OsmMode, ts: seq<Tok>)
    ensures AtomHead([Ident(OsmName(mode)), LParen] + ts) == OsmCall(ts, mode)
  {
    assert ([Ident(OsmName(mode)), LParen] + ts)[2..] == ts;
  }

  lemma SameDispatch(ts: seq<Tok>)
    ensures AtomHead([Ident("same"), LParen] + ts) == SameHead(ts)
  {
    assert ([Ident("same"), LParen] + ts)[2..] == ts;
  }

  lemma UuidDispatch(ts: seq<Tok>)
    ensures AtomHead([Ident("uuid_in"), LParen] + ts) == UuidInCall(ts)
  {
    assert ([Ident("uuid_in"), LParen] + ts)[2..] == ts;
  }

  lemma InDispatch(ts: seq<Tok>)
    ensures AtomHead([Ident("in"), LParen] + ts) == InCall(ts)
  {
    assert ([Ident("in"), LParen] + ts)[2..] == ts;
  }

  lemma OsmParses(mode: OsmMode, f: FieldRef, text: string, rest: seq<Tok>)
    requires SimpleOk(OsmS(mode, f, text))
    ensures OsmCall(FieldToks(f) + ([Comma, Str(text), RParen] + rest), mode)
      == Parsed(Leaf(SimpleQuery(OsmS(mode, f, text))), rest)
  {
    var tail := [Comma, Str(text), RParen] + rest;
    FieldParses(f, tail);
    assert tail[3..] == rest;
  }

  lemma InCallParses(f: FieldRef, values: seq<Value>, trailing: bool, rest: seq<Tok>)
    ensures InCall(FieldToks(f) + (InToks(values, trailing) + rest))
      == Parsed(Leaf(SimpleQuery(InS(f, values, trailing))), rest)
  {
    var tail := InToks(values, trailing) + rest;
    InParses(values, trailing, rest, []);
    assert [] + values == values;
    assert InItems(tail, []) == Parsed(values, rest);
    FieldParses(f, tail);
  }

  lemma UuidCallParses(texts: seq<string>, trailing: bool, rest: seq<Tok>)
    requires SimpleOk(UuidListS(texts, trailing))
    ensures UuidInCall(UuidToks(texts, trailing) + rest) == Parsed(Leaf(SimpleQuery(UuidListS(texts, trailing))), rest)
  {
    UuidsParse(texts, trailing, rest, []);
    assert [] + UuidsOfTexts(texts) == UuidsOfTexts(texts);
  }

  predicate IsOperation(s: Simple) {
    s.PresentS? || s.AbsentS? || s.UnknownS? || s.CompareS? || s.MatchesS? || s.PathS?
  }

  /** The two tokens after the field of a predicate. */
  function OperationToks(s: Simple): seq<Tok>
    requires IsOperation(s)
  {
    match s
    case PresentS(_) => [Is, Present]
    case AbsentS(_) => [Is, Absent]
    case UnknownS(_) => [Is, Unknown]
    case CompareS(cmp, _, v) => [CmpTok(cmp), ValueTok(v)]
    case MatchesS(_, pattern) => [MatchesTok, Str(pattern)]
    case PathS(kind, _, path) => [ArrowTok(kind), Str(path)]
  }

  lemma OperationParses(s: Simple, rest: seq<Tok>)
    requires IsOperation(s) && SimpleOk(s)
    ensures Operation(WordName(s.f.word), AspectOf(s.f), OperationToks(s) + rest) == Parsed(Leaf(SimpleQuery(s)), rest)
  {
    var ts := OperationToks(s) + rest;
    assert ts[2..] == rest;
    assert ts[1..] == [OperationToks(s)[1]] + rest;
    assert ts[1..][1..] == rest;
  }

  lemma OsmToksSplit(mode: OsmMode, f: FieldRef, text: string, rest: seq<Tok>)
    requires SimpleOk(OsmS(mode, f, text))
    ensures SimpleToks(OsmS(mode, f, text)) + rest
      == [Ident(OsmName(mode)), LParen] + (FieldToks(f) + ([Comma, Str(text), RParen] + rest))
  {
  }

  lemma OsmTextParses(mode: OsmMode, f: FieldRef, text: string, rest: seq<Tok>)
    requires SimpleOk(OsmS(mode, f, text))
    ensures AtomHead(SimpleToks(OsmS(mode, f, text)) + rest) == Parsed(Leaf(SimpleQuery(OsmS(mode, f, text))), rest)
  {
    var ts0 := FieldToks(f) + ([Comma, Str(text), RParen] + rest);
    OsmToksSplit(mode, f, text, rest);
    OsmDispatch(mode, ts0);
    OsmParses(mode, f, text, rest);
  }

  lemma InToksSplit(f: FieldRef, values: seq<Value>, trailing: bool, rest: seq<Tok>)
    ensures SimpleToks(InS(f, values, trailing)) + rest
      == [Ident("in"), LParen] + (FieldToks(f) + (InToks(values, trailing) + rest))
  {
  }

  lemma InTextParses(f: FieldRef, values: seq<Value>, trailing: bool, rest: seq<Tok>)
    ensures AtomHead(SimpleToks(InS(f, values, trailing)) + rest)
      == Parsed(Leaf(SimpleQuery(InS(f, values, trailing))), rest)
  {
    var ts0 := FieldToks(f) + (InToks(values, trailing) + rest);
    InToksSplit(f, values, trailing, rest);
    InDispatch(ts0);
    InCallParses(f, values, trailing, rest);
  }

  lemma UuidListToks(texts: seq<string>, trailing: bool, rest: seq<Tok>)
    ensures SimpleToks(UuidListS(texts, trailing)) + rest
      == [Ident("uuid_in"), LParen] + (UuidToks(texts, trailing) + rest)
  {
  }

  lemma UuidTextParses(texts: seq<string>, trailing: bool, rest: seq<Tok>)
    requires SimpleOk(UuidListS(texts, trailing))
    ensures AtomHead(SimpleToks(UuidListS(texts, trailing)) + rest)
      == Parsed(Leaf(SimpleQuery(UuidListS(texts, trailing))), rest)
  {
    UuidListToks(texts, trailing, rest);
    UuidDispatch(UuidToks(texts, trailing) + rest);
    UuidCallParses(texts, trailing, rest);
  }

  lemma PredicateTextParses(s: Simple, rest: seq<Tok>)
    requires IsOperation(s) && SimpleOk(s)
    ensures AtomHead(SimpleToks(s) + rest) == Parsed(Leaf(SimpleQuery(s)), rest)
  {
    OperationSplits(s, rest);
    PredicateParses(s.f, OperationToks(s) + rest);
    OperationParses(s, rest);
  }

  /** A simple predicate reads as itself, whatever follows it; a bare uuid where
      nothing follows that makes it a field. */
  lemma SimpleParses(s: Simple, rest: seq<Tok>)
    requires SimpleOk(s) && (s.BareS? ==> !NextFollowsAField(rest))
    ensures AtomHead(SimpleToks(s) + rest) == Parsed(Leaf(SimpleQuery(s)), rest)
  {
    match s {
      case OsmS(mode, f, text) => OsmTextParses(mode, f, text, rest);
      case InS(f, values, trailing) => InTextParses(f, values, trailing, rest);
      case UuidListS(texts, trailing) => UuidTextParses(texts, trailing, rest);
      case BareS(text) => BareParses(text, rest);
      case _ => PredicateTextParses(s, rest);
    }
  }

  lemma BareParses(text: string, rest: seq<Tok>)
    requires TryParseUuid(text).Some? && !NextFollowsAField(rest)
    ensures AtomHead([Hex(text)] + rest) == Parsed(Leaf(UuidIn([TryParseUuid(text).value])), rest)
  {
    assert ([Hex(text)] + rest)[1..] == rest;
  }

  lemma OperationSplits(s: Simple, rest: seq<Tok>)
    requires IsOperation(s)
    ensures SimpleToks(s) + rest == FieldToks(s.f) + (OperationToks(s) + rest)
  {
    assert SimpleToks(s) == FieldToks(s.f) + OperationToks(s);
  }

  lemma OpeningParses(o: Opening, rest: seq<Tok>)
    requires OpeningOk(o)
    ensures AtomHead(OpeningToks(o) + rest) == Parsed(Open(WrapOf(o)), rest)
  {
    var ts := OpeningToks(o) + rest;
    match o {
      case GroupO =>
        assert ts[1..] == rest;
      case SameO(w) =>
        var ts0 := [WordTok(w), Comma] + rest;
        assert ts == [Ident("same"), LParen] + ts0;
        assert ts0[1..] == [Comma] + rest && ts0[1..][1..] == rest;
        SameDispatch(ts0);
      case ArrowO(kind, f) =>
        assert ts == FieldToks(f) + ([ArrowTok(kind), LParen] + rest);
        ArrowParses(kind, f, rest);
    }
  }

  lemma ArrowParses(kind: ArrowKind, f: FieldRef, rest: seq<Tok>)
    requires AspectOf(f) == Raw
    ensures AtomHead(FieldToks(f) + ([ArrowTok(kind), LParen] + rest))
      == Parsed(Open(Arrows(kind, WordName(f.word))), rest)
  {
    var op := [ArrowTok(kind), LParen] + rest;
    PredicateParses(f, op);
    assert op[1..] == [LParen] + rest && op[1..][1..] == rest;
  }

  // ── Every tree parses back ───────────────────────────────────────────────

  predicate EndsUnary(rest: seq<Tok>) {
    !NextFollowsAField(rest)
  }

  predicate EndsConj(rest: seq<Tok>) {
    EndsUnary(rest) && (rest == [] || !rest[0].AndTok?)
  }

  predicate EndsAlt(rest: seq<Tok>) {
    EndsConj(rest) && (rest == [] || !rest[0].OrTok?)
  }

  lemma {:induction false} UnaryParses(u: UnaryT, rest: seq<Tok>, depth: nat)
    requires UnaryOk(u) && EndsUnary(rest) && depth <= MAX_DEPTH
    ensures Unary(UnaryToks(u) + rest, depth)
         == if depth + UnaryDepth(u) <= MAX_DEPTH then Parsed(UnaryQuery(u), rest) else Failed(TooDeep)
    decreases u
  {
    var ts := UnaryToks(u) + rest;
    match u {
      case NotT(v) =>
        assert ts == [NotTok] + (UnaryToks(v) + rest);
        assert ts[1..] == UnaryToks(v) + rest;
        if depth < MAX_DEPTH {
          UnaryParses(v, rest, depth + 1);
        }
      case AtomT(a) =>
        AtomParses(a, rest, depth);
    }
  }

  lemma {:induction false} AtomParses(a: AtomTree, rest: seq<Tok>, depth: nat)
    requires AtomOk(a) && EndsUnary(rest) && depth <= MAX_DEPTH
    ensures AtomToks(a) + rest != [] && !(AtomToks(a) + rest)[0].NotTok?
    ensures Atom(AtomToks(a) + rest, depth)
         == if depth + AtomDepth(a) <= MAX_DEPTH then Parsed(AtomQuery(a), rest) else Failed(TooDeep)
    decreases a
  {
    match a {
      case SimpleA(s) =>
        SimpleParses(s, rest);
      case NestedA(o, inner) =>
        var after := [RParen] + rest;
        assert AtomToks(a) + rest == OpeningToks(o) + (AltToks(inner) + after);
        OpeningParses(o, AltToks(inner) + after);
        if depth < MAX_DEPTH {
          AltParses(inner, after, depth + 1, []);
          assert [] + AltOps(inner) == AltOps(inner);
        }
        assert after[1..] == rest;
    }
  }

  lemma {:induction false} ConjParses(c: Conj, rest: seq<Tok>, depth: nat, before: seq<Query>)
    requires ConjOk(c) && EndsConj(rest) && depth <= MAX_DEPTH
    ensures AndItems(before, ConjToks(c) + rest, depth)
         == if depth + ConjDepth(c) <= MAX_DEPTH then Parsed(FinishAnd(before + ConjOps(c)), rest) else Failed(TooDeep)
    decreases c
  {
    var ts := ConjToks(c) + rest;
    match c {
      case OneUnary(u) =>
        UnaryParses(u, rest, depth);
      case MoreUnary(u, tail) =>
        var after := [AndTok] + (ConjToks(tail) + rest);
        assert ts == UnaryToks(u) + after;
        UnaryParses(u, after, depth);
        assert after[1..] == ConjToks(tail) + rest;
        ConjParses(tail, rest, depth, before + [UnaryQuery(u)]);
        assert before + [UnaryQuery(u)] + ConjOps(tail) == before + ConjOps(c);
    }
  }

  lemma {:induction false} AltParses(c: Alt, rest: seq<Tok>, depth: nat, before: seq<Query>)
    requires AltOk(c) && EndsAlt(rest) && depth <= MAX_DEPTH
    ensures OrItems(before, AltToks(c) + rest, depth)
         == if depth + AltDepth(c) <= MAX_DEPTH then Parsed(FinishOr(before + AltOps(c)), rest) else Failed(TooDeep)
    decreases c
  {
    var ts := AltToks(c) + rest;
    match c {
      case OneConj(k) =>
        ConjParses(k, rest, depth, []);
        assert [] + ConjOps(k) == ConjOps(k);
      case MoreConj(k, tail) =>
        var after := [OrTok] + (AltToks(tail) + rest);
        assert ts == ConjToks(k) + after;
        ConjParses(k, after, depth, []);
        assert [] + ConjOps(k) == ConjOps(k);
        assert after[1..] == AltToks(tail) + rest;
        AltParses(tail, rest, depth, before + [ConjQuery(k)]);
        assert before + [ConjQuery(k)] + AltOps(tail) == before + AltOps(c);
    }
  }

  /** Every text of the grammar parses to what its tree means, or is refused as
      too deep — exactly when it nests beyond the bound. */
  lemma TextParses(c: Alt)
    requires AltOk(c)
    ensures ParseTokens(AltToks(c)) == if 1 + AltDepth(c) <= MAX_DEPTH then Ok(AltQuery(c)) else Err(TooDeep)
  {
    AltParses(c, [], 1, []);
    assert AltToks(c) + [] == AltToks(c);
    assert [] + AltOps(c) == AltOps(c);
  }

  // ── The traversals, token by token ───────────────────────────────────────

  function Named(f: string): FieldRef {
    FieldRef(NameField(f), None)
  }

  function JustSimple(s: Simple): Alt {
    OneConj(OneUnary(AtomT(SimpleA(s))))
  }

  function JustNested(o: Opening, inner: Simple): Alt {
    OneConj(OneUnary(AtomT(NestedA(o, JustSimple(inner)))))
  }

  /** A tree of one atom means what the atom does. */
  lemma JustAtom(a: AtomTree)
    requires AtomOk(a)
    ensures
      var c := OneConj(OneUnary(AtomT(a)));
      && AltOk(c) && AltQuery(c) == AtomQuery(a) && AltDepth(c) == AtomDepth(a) && AltToks(c) == AtomToks(a)
  {
    var u := AtomT(a);
    var k := OneUnary(u);
    assert UnaryOk(u) && UnaryQuery(u) == AtomQuery(a) && UnaryDepth(u) == AtomDepth(a) && UnaryToks(u) == AtomToks(a);
    assert ConjOk(k) && ConjOps(k) == [UnaryQuery(u)] && ConjDepth(k) == UnaryDepth(u) && ConjToks(k) == UnaryToks(u);
    assert AltOps(OneConj(k)) == [ConjQuery(k)];
  }

  lemma SimpleText(s: Simple)
    requires SimpleOk(s)
    ensures ParseTokens(SimpleToks(s)) == Ok(SimpleQuery(s))
  {
    JustAtom(SimpleA(s));
    TextParses(JustSimple(s));
  }

  lemma NestedText(o: Opening, inner: Simple)
    requires OpeningOk(o) && SimpleOk(inner)
    ensures ParseTokens(OpeningToks(o) + SimpleToks(inner) + [RParen]) == Ok(Build(WrapOf(o), SimpleQuery(inner)))
  {
    JustAtom(SimpleA(inner));
    JustAtom(NestedA(o, JustSimple(inner)));
    TextParses(JustNested(o, inner));
  }

  /** An arrow to a path: one step, or any number with or without none. */
  lemma ArrowsRead(f: string, path: string)
    ensures ParseTokens([Ident(f), Arrow, Str(path)]) == Ok(Follows(f, PathTarget(path)))
    ensures ParseTokens([Ident(f), ArrowStar, Str(path)]) == Ok(FollowsTransitive(f, PathTarget(path), false))
    ensures ParseTokens([Ident(f), FatArrowStar, Str(path)]) == Ok(FollowsTransitive(f, PathTarget(path), true))
  {
    SimpleText(PathS(One, Named(f), path));
    SimpleText(PathS(Strict, Named(f), path));
    SimpleText(PathS(Inclusive, Named(f), path));
    assert SimpleToks(PathS(One, Named(f), path)) == [Ident(f), Arrow, Str(path)];
    assert SimpleToks(PathS(Strict, Named(f), path)) == [Ident(f), ArrowStar, Str(path)];
    assert SimpleToks(PathS(Inclusive, Named(f), path)) == [Ident(f), FatArrowStar, Str(path)];
  }

  /** The same arrows to a nested query, and the call that compares by a field. */
  lemma NestedRead(f: string, g: string)
    ensures
      var (inner, q) := ([Ident(g), Is, Present, RParen], IsPresent(g, Raw));
      && ParseTokens([Ident(f), Arrow, LParen] + inner) == Ok(Follows(f, Condition(q)))
      && ParseTokens([Ident(f), ArrowStar, LParen] + inner) == Ok(FollowsTransitive(f, Condition(q), false))
      && ParseTokens([Ident(f), FatArrowStar, LParen] + inner) == Ok(FollowsTransitive(f, Condition(q), true))
      && ParseTokens([Ident("same"), LParen, Ident(f), Comma] + inner) == Ok(SameAs(f, q))
      && ParseTokens([LParen] + inner) == Ok(q)
  {
    var inner := PresentS(Named(g));
    var text: seq<Tok> := [Ident(g), Is, Present];
    assert SimpleToks(inner) == text;
    NestedAs(ArrowO(One, Named(f)), inner, [Ident(f), Arrow, LParen]);
    NestedAs(ArrowO(Strict, Named(f)), inner, [Ident(f), ArrowStar, LParen]);
    NestedAs(ArrowO(Inclusive, Named(f)), inner, [Ident(f), FatArrowStar, LParen]);
    NestedAs(SameO(NameField(f)), inner, [Ident("same"), LParen, Ident(f), Comma]);
    NestedAs(GroupO, inner, [LParen]);
    assert text + [RParen] == [Ident(g), Is, Present, RParen];
  }

  lemma NestedAs(o: Opening, inner: Simple, opening: seq<Tok>)
    requires OpeningOk(o) && SimpleOk(inner) && OpeningToks(o) == opening
    ensures ParseTokens(opening + (SimpleToks(inner) + [RParen])) == Ok(Build(WrapOf(o), SimpleQuery(inner)))
  {
    NestedText(o, inner);
    assert opening + (SimpleToks(inner) + [RParen]) == opening + SimpleToks(inner) + [RParen];
  }
}
