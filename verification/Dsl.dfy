/**
 The query language: tokens, and the recursive-descent parser as functions of
 the tokens left to read.
 */
module Dsl {
  import opened Prelude
  import Text
  import opened QueryIR

  datatype Tok =
    | LParen | RParen | Comma | Colon
    | Arrow | ArrowStar | FatArrowStar
    | Hex(text: string)
    | CmpTok(cmp: Cmp)
    | Str(s: string) | IntTok(n: int) | FloatTok(x: real) | DateTimeTok(ms: int)
    | Ident(name: string)
    | AndTok | OrTok | NotTok
    | Is | Present | Absent | Unknown | MatchesTok
    | True | False

  /** The nesting bound, and every other refusal. */
  datatype ParseError = TooDeep | Syntax

  datatype Parse<+T> = Parsed(value: T, rest: seq<Tok>) | Failed(error: ParseError)

  const MAX_DEPTH: nat := 128

  const TRUNCATED_UUID_MIN := 8

  // ── Words ────────────────────────────────────────────────────────────────

  predicate AllHex(text: string) {
    forall i :: 0 <= i < |text| ==> Text.HexValue(text[i] as int).Some?
  }

  /** A UUID written as 32 hexadecimal digits. */
  function TryParseUuid(text: string): Option<Uuid> {
    if |text| == 32 && AllHex(text)
    then Some(seq(32, i requires 0 <= i < 32 => Text.HexValue(text[i] as int).value))
    else None
  }

  predicate LooksLikeTruncatedUuid(text: string) {
    |text| >= TRUNCATED_UUID_MIN && |text| != 32 && AllHex(text)
  }

  function AspectFromName(name: string): Option<Aspect> {
    if name == "raw" then Some(Raw)
    else if name == "value" then Some(ValueAspect)
    else if name == "parent" then Some(ParentAspect)
    else if name == "path" then Some(PathAspect)
    else None
  }

  predicate IsOperator(tok: Tok) {
    tok.Is? || tok.CmpTok? || tok.MatchesTok? || tok.Arrow? || tok.ArrowStar? || tok.FatArrowStar?
  }

  /** Whether a token after a name makes that name a field. */
  predicate FollowsAField(tok: Tok) {
    IsOperator(tok) || tok.Colon?
  }

  predicate NextFollowsAField(ts: seq<Tok>) {
    ts != [] && FollowsAField(ts[0])
  }

  // ── Pieces without a nested query ────────────────────────────────────────

  /** What an atom begins with: a whole predicate, or the opening of a nested query. */
  datatype Head = Leaf(query: Query) | Open(wrap: Wrap)

  /** How a nested query is used. */
  datatype Wrap = Group | SameOf(field: string) | Arrows(kind: ArrowKind, field: string)

  datatype ArrowKind = One | Strict | Inclusive

  function ArrowQuery(kind: ArrowKind, field: string, target: Target): Query {
    match kind
    case One => Follows(field, target)
    case Strict => FollowsTransitive(field, target, false)
    case Inclusive => FollowsTransitive(field, target, true)
  }

  function Build(w: Wrap, q: Query): Query {
    match w
    case Group => q
    case SameOf(field) => SameAs(field, q)
    case Arrows(kind, field) => ArrowQuery(kind, field, Condition(q))
  }

  function FieldName(ts: seq<Tok>): (r: Parse<string>)
    ensures r.Parsed? ==> ts != [] && r.rest == ts[1..]
  {
    if ts == [] then Failed(Syntax)
    else match ts[0]
      case Ident(name) => Parsed(name, ts[1..])
      case Hex(text) => Parsed(text, ts[1..])
      case _ => Failed(Syntax)
  }

  function AspectPart(ts: seq<Tok>): (r: Parse<Aspect>)
    ensures r.Parsed? ==> |r.rest| <= |ts|
  {
    if ts == [] || !ts[0].Colon? then Parsed(Raw, ts)
    else if |ts| > 1 && ts[1].Ident? && AspectFromName(ts[1].name).Some?
    then Parsed(AspectFromName(ts[1].name).value, ts[2..])
    else Failed(Syntax)
  }

  function Expect(ts: seq<Tok>, tok: Tok): (r: Parse<()>)
    ensures r.Parsed? ==> ts != [] && ts[0] == tok && r.rest == ts[1..]
  {
    if ts != [] && ts[0] == tok then Parsed((), ts[1..]) else Failed(Syntax)
  }

  function Literal(ts: seq<Tok>): (r: Parse<Value>)
    ensures r.Parsed? ==> ts != [] && r.rest == ts[1..]
  {
    if ts == [] then Failed(Syntax)
    else match ts[0]
      case IntTok(n) => Parsed(IntV(n), ts[1..])
      case FloatTok(x) => Parsed(FloatV(x), ts[1..])
      case DateTimeTok(ms) => Parsed(DateTimeV(ms), ts[1..])
      case Str(s) => Parsed(StringV(s), ts[1..])
      case True => Parsed(BoolV(true), ts[1..])
      case False => Parsed(BoolV(false), ts[1..])
      case _ => Failed(Syntax)
  }

  predicate IsCall(ts: seq<Tok>, name: string) {
    |ts| > 1 && ts[0] == Ident(name) && ts[1].LParen?
  }

  /** The rest of `in(field:aspect` once `values` have been read. */
  function InItems(ts: seq<Tok>, values: seq<Value>): (r: Parse<seq<Value>>)
    ensures r.Parsed? ==> |r.rest| < |ts|
    decreases |ts|
  {
    if ts == [] then Failed(Syntax)
    else if ts[0].RParen? then Parsed(values, ts[1..])
    else if !ts[0].Comma? then Failed(Syntax)
    else if |ts| > 1 && ts[1].RParen? then InItems(ts[1..], values)
    else match Literal(ts[1..])
      case Failed(e) => Failed(e)
      case Parsed(v, rest) => InItems(rest, values + [v])
  }

  /** The rest of `uuid_in(` once `uuids` have been read. */
  function UuidItems(ts: seq<Tok>, uuids: seq<Uuid>): (r: Parse<seq<Uuid>>)
    ensures r.Parsed? ==> |r.rest| < |ts|
    decreases |ts|
  {
    if ts == [] then Failed(Syntax)
    else if ts[0].RParen? then Parsed(uuids, ts[1..])
    else if !ts[0].Hex? || TryParseUuid(ts[0].text).None? then Failed(Syntax)
    else
      var more := uuids + [TryParseUuid(ts[0].text).value];
      if |ts| < 2 then Failed(Syntax)
      else if ts[1].Comma? then UuidItems(ts[2..], more)
      else if ts[1].RParen? then Parsed(more, ts[2..])
      else Failed(Syntax)
  }

  /** `osm(` or `osmd(` has been read. */
  function OsmCall(ts: seq<Tok>, mode: OsmMode): (r: Parse<Head>)
    ensures r.Parsed? ==> |r.rest| < |ts|
  {
    match FieldName(ts)
    case Failed(e) => Failed(e)
    case Parsed(field, ts1) =>
      match AspectPart(ts1)
      case Failed(e) => Failed(e)
      case Parsed(aspect, ts2) =>
        if aspect != Raw && aspect != (if mode.PathMode? then PathAspect else ValueAspect) then Failed(Syntax)
        else match OsmTerms(ts2)
          case Failed(e) => Failed(e)
          case Parsed(terms, rest) => Parsed(Leaf(Osm(field, terms, mode)), rest)
  }

  /** The term string of an `osm` call and its closing parenthesis. */
  function OsmTerms(ts: seq<Tok>): (r: Parse<seq<string>>)
    ensures r.Parsed? ==> |r.rest| < |ts|
  {
    if |ts| >= 3 && ts[0].Comma? && ts[1].Str? && ts[2].RParen?
    then Parsed(SplitTerms(ts[1].s), ts[3..])
    else Failed(Syntax)
  }

  function InCall(ts: seq<Tok>): (r: Parse<Head>)
    ensures r.Parsed? ==> |r.rest| < |ts|
  {
    match FieldName(ts)
    case Failed(e) => Failed(e)
    case Parsed(field, ts1) =>
      match AspectPart(ts1)
      case Failed(e) => Failed(e)
      case Parsed(aspect, ts2) =>
        match InItems(ts2, [])
        case Failed(e) => Failed(e)
        case Parsed(values, ts3) => Parsed(Leaf(In(field, values, aspect)), ts3)
  }

  /** `same(` has been read: the field and the comma before the nested query. */
  function SameHead(ts: seq<Tok>): (r: Parse<Head>)
    ensures r.Parsed? ==> |r.rest| < |ts|
  {
    match FieldName(ts)
    case Failed(e) => Failed(e)
    case Parsed(field, ts1) =>
      if ts1 != [] && ts1[0].Comma? then Parsed(Open(SameOf(field)), ts1[1..]) else Failed(Syntax)
  }

  function UuidInCall(ts: seq<Tok>): (r: Parse<Head>)
    ensures r.Parsed? ==> |r.rest| < |ts|
  {
    match UuidItems(ts, [])
    case Failed(e) => Failed(e)
    case Parsed(uuids, rest) => Parsed(Leaf(UuidIn(uuids)), rest)
  }

  /** The right-hand side of an arrow: a path, or the opening of a nested query. */
  function ArrowTail(kind: ArrowKind, field: string, aspect: Aspect, ts: seq<Tok>): (r: Parse<Head>)
    ensures r.Parsed? ==> |r.rest| < |ts|
  {
    if aspect != Raw || ts == [] then Failed(Syntax)
    else match ts[0]
      case Str(path) => Parsed(Leaf(ArrowQuery(kind, field, PathTarget(path))), ts[1..])
      case LParen => Parsed(Open(Arrows(kind, field)), ts[1..])
      case _ => Failed(Syntax)
  }

  /** What follows `field:aspect` in a predicate. */
  function Operation(field: string, aspect: Aspect, ts: seq<Tok>): (r: Parse<Head>)
    ensures r.Parsed? ==> |r.rest| < |ts|
  {
    if ts == [] then Failed(Syntax)
    else match ts[0]
      case Is =>
        if |ts| < 2 then Failed(Syntax)
        else if ts[1].Present? then Parsed(Leaf(IsPresent(field, aspect)), ts[2..])
        else if ts[1].Absent? then Parsed(Leaf(IsAbsent(field, aspect)), ts[2..])
        else if ts[1].Unknown? && aspect == Raw then Parsed(Leaf(IsUnknown(field)), ts[2..])
        else Failed(Syntax)
      case CmpTok(cmp) =>
        (match Literal(ts[1..])
         case Failed(e) => Failed(e)
         case Parsed(v, rest) => Parsed(Leaf(Compare(cmp, field, v, aspect)), rest))
      case MatchesTok =>
        if |ts| > 1 && ts[1].Str? then Parsed(Leaf(Matches(field, ts[1].s, aspect)), ts[2..]) else Failed(Syntax)
      case Arrow => ArrowTail(One, field, aspect, ts[1..])
      case ArrowStar => ArrowTail(Strict, field, aspect, ts[1..])
      case FatArrowStar => ArrowTail(Inclusive, field, aspect, ts[1..])
      case _ => Failed(Syntax)
  }

  function PredicateHead(ts: seq<Tok>): (r: Parse<Head>)
    ensures r.Parsed? ==> |r.rest| < |ts|
  {
    match FieldName(ts)
    case Failed(e) => Failed(e)
    case Parsed(field, ts1) =>
      if ts[0].Ident? && LooksLikeTruncatedUuid(field) && !NextFollowsAField(ts1) then Failed(Syntax)
      else match AspectPart(ts1)
        case Failed(e) => Failed(e)
        case Parsed(aspect, ts2) => Operation(field, aspect, ts2)
  }

  predicate IsBareUuid(ts: seq<Tok>) {
    ts != [] && ts[0].Hex? && !NextFollowsAField(ts[1..]) && TryParseUuid(ts[0].text).Some?
  }

  function AtomHead(ts: seq<Tok>): (r: Parse<Head>)
    ensures r.Parsed? ==> |r.rest| < |ts|
  {
    if ts == [] then Failed(Syntax)
    else if ts[0].LParen? then Parsed(Open(Group), ts[1..])
    else if IsCall(ts, "osm") then OsmCall(ts[2..], PathMode)
    else if IsCall(ts, "osmd") then OsmCall(ts[2..], DirectMode)
    else if IsCall(ts, "same") then SameHead(ts[2..])
    else if IsCall(ts, "uuid_in") then UuidInCall(ts[2..])
    else if IsCall(ts, "in") then InCall(ts[2..])
    else if IsBareUuid(ts) then Parsed(Leaf(UuidIn([TryParseUuid(ts[0].text).value])), ts[1..])
    else PredicateHead(ts)
  }

  // ── The precedence chain ─────────────────────────────────────────────────

  function AllUuids(ops: seq<Query>): (r: seq<Uuid>)
    requires forall i :: 0 <= i < |ops| ==> ops[i].UuidIn?
  {
    if ops == [] then [] else ops[0].uuids + AllUuids(ops[1..])
  }

  /** One operand is itself; a chain of UUID sets is one set. */
  function FinishOr(ops: seq<Query>): Query {
    if |ops| == 1 then ops[0]
    else if forall i :: 0 <= i < |ops| ==> ops[i].UuidIn? then UuidIn(AllUuids(ops))
    else Or(ops)
  }

  function FinishAnd(ops: seq<Query>): Query {
    if |ops| == 1 then ops[0] else And(ops)
  }

  /** A nested query, one level deeper than `depth`. */
  function OrExpr(ts: seq<Tok>, depth: nat): (r: Parse<Query>)
    ensures r.Parsed? ==> |r.rest| < |ts|
    decreases |ts|, 5
  {
    if depth >= MAX_DEPTH then Failed(TooDeep) else OrItems([], ts, depth + 1)
  }

  /** The rest of a disjunction, `ops` read so far. */
  function OrItems(ops: seq<Query>, ts: seq<Tok>, depth: nat): (r: Parse<Query>)
    ensures r.Parsed? ==> |r.rest| < |ts|
    decreases |ts|, 4
  {
    match AndItems([], ts, depth)
    case Failed(e) => Failed(e)
    case Parsed(q, rest) =>
      if rest != [] && rest[0].OrTok? then OrItems(ops + [q], rest[1..], depth)
      else Parsed(FinishOr(ops + [q]), rest)
  }

  /** The rest of a conjunction, `ops` read so far. */
  function AndItems(ops: seq<Query>, ts: seq<Tok>, depth: nat): (r: Parse<Query>)
    ensures r.Parsed? ==> |r.rest| < |ts|
    decreases |ts|, 3
  {
    match Unary(ts, depth)
    case Failed(e) => Failed(e)
    case Parsed(q, rest) =>
      if rest != [] && rest[0].AndTok? then AndItems(ops + [q], rest[1..], depth)
      else Parsed(FinishAnd(ops + [q]), rest)
  }

  function Unary(ts: seq<Tok>, depth: nat): (r: Parse<Query>)
    ensures r.Parsed? ==> |r.rest| < |ts|
    decreases |ts|, 2
  {
    if ts != [] && ts[0].NotTok? then
      if depth >= MAX_DEPTH then Failed(TooDeep)
      else match Unary(ts[1..], depth + 1)
        case Failed(e) => Failed(e)
        case Parsed(q, rest) => Parsed(Not(q), rest)
    else Atom(ts, depth)
  }

  function Atom(ts: seq<Tok>, depth: nat): (r: Parse<Query>)
    ensures r.Parsed? ==> |r.rest| < |ts|
    decreases |ts|, 1
  {
    match AtomHead(ts)
    case Failed(e) => Failed(e)
    case Parsed(Leaf(q), rest) => Parsed(q, rest)
    case Parsed(Open(w), inner) =>
      match OrExpr(inner, depth)
      case Failed(e) => Failed(e)
      case Parsed(q, rest) =>
        if rest != [] && rest[0].RParen? then Parsed(Build(w, q), rest[1..]) else Failed(Syntax)
  }

  /** The whole input as one query. */
  function ParseTokens(ts: seq<Tok>): Result<Query, ParseError> {
    match OrExpr(ts, 0)
    case Failed(e) => Err(e)
    case Parsed(q, rest) => if rest == [] then Ok(q) else Err(Syntax)
  }
}
