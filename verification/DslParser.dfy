/**
 The parser as it runs: a position in the tokens and a nesting depth, moved by
 each method. Every method does what the functions of `Dsl` say.
 */
module DslParser {
  import opened Prelude
  import opened QueryIR
  import opened Dsl

  /** What is left of a disjunction after `ops`: more of it, or its end. */
  ghost function OrTail(ops: seq<Query>, ts: seq<Tok>, depth: nat): Parse<Query> {
    if ts != [] && ts[0].OrTok? then OrItems(ops, ts[1..], depth) else Parsed(FinishOr(ops), ts)
  }

  ghost function AndTail(ops: seq<Query>, ts: seq<Tok>, depth: nat): Parse<Query> {
    if ts != [] && ts[0].AndTok? then AndItems(ops, ts[1..], depth) else Parsed(FinishAnd(ops), ts)
  }

  /** An atom from its beginning: done, or the nested query and its `)`. */
  ghost function Finish(p: Parse<Head>, depth: nat): Parse<Query> {
    match p
    case Failed(e) => Failed(e)
    case Parsed(Leaf(q), rest) => Parsed(q, rest)
    case Parsed(Open(w), inner) =>
      match OrExpr(inner, depth)
      case Failed(e) => Failed(e)
      case Parsed(q, rest) =>
        if rest != [] && rest[0].RParen? then Parsed(Build(w, q), rest[1..]) else Failed(Syntax)
  }

  lemma AtomFinishes(ts: seq<Tok>, depth: nat)
    ensures Atom(ts, depth) == Finish(AtomHead(ts), depth)
  {
  }

  class Parser {
    const tokens: seq<Tok>
    var pos: nat
    var depth: nat

    constructor (ts: seq<Tok>)
      ensures tokens == ts && pos == 0 && depth == 0
    {
      tokens, pos, depth := ts, 0, 0;
    }

    ghost predicate Valid()
      reads this
    {
      pos <= |tokens|
    }

    /** The tokens not read yet. */
    ghost function Left(): seq<Tok>
      requires Valid()
      reads this
    {
      tokens[pos..]
    }

    /** The method's answer and position are what `p` says. */
    ghost predicate Agrees<T>(r: Result<T, ParseError>, p: Parse<T>)
      reads this
    {
      match p
      case Failed(e) => r == Err(e)
      case Parsed(v, rest) => r == Ok(v) && Valid() && Left() == rest
    }

    function Peek(): (r: Option<Tok>)
      requires Valid()
      reads this
      ensures r == if Left() == [] then None else Some(Left()[0])
    {
      if pos < |tokens| then Some(tokens[pos]) else None
    }

    function PeekSecond(): (r: Option<Tok>)
      requires Valid()
      reads this
      ensures r == if |Left()| < 2 then None else Some(Left()[1])
    {
      if pos + 1 < |tokens| then Some(tokens[pos + 1]) else None
    }

    method Next() returns (r: Option<Tok>)
      requires Valid()
      modifies this`pos
      ensures Valid()
      ensures old(Left()) == [] ==> r == None && Left() == []
      ensures old(Left()) != [] ==> r == Some(old(Left())[0]) && Left() == old(Left())[1..]
    {
      if pos < |tokens| {
        r := Some(tokens[pos]);
        pos := pos + 1;
      } else {
        r := None;
      }
    }

    method ExpectTok(tok: Tok) returns (r: Result<(), ParseError>)
      requires Valid()
      modifies this`pos
      ensures Valid() && Agrees(r, Expect(old(Left()), tok))
    {
      var t := Next();
      if t == Some(tok) {
        return Ok(());
      }
      return Err(Syntax);
    }

    method ReadField() returns (r: Result<string, ParseError>)
      requires Valid()
      modifies this`pos
      ensures Valid() && Agrees(r, FieldName(old(Left())))
    {
      var t := Next();
      match t {
        case Some(Ident(name)) => return Ok(name);
        case Some(Hex(text)) => return Ok(text);
        case _ => return Err(Syntax);
      }
    }

    method ReadAspect() returns (r: Result<Aspect, ParseError>)
      requires Valid()
      modifies this`pos
      ensures Valid() && Agrees(r, AspectPart(old(Left())))
    {
      if Peek() != Some(Colon) {
        return Ok(Raw);
      }
      var colon := Next();
      var t := Next();
      if t.Some? && t.value.Ident? && AspectFromName(t.value.name).Some? {
        return Ok(AspectFromName(t.value.name).value);
      }
      return Err(Syntax);
    }

    method ReadLiteral() returns (r: Result<Value, ParseError>)
      requires Valid()
      modifies this`pos
      ensures Valid() && Agrees(r, Literal(old(Left())))
    {
      var t := Next();
      match t {
        case Some(IntTok(n)) => return Ok(IntV(n));
        case Some(FloatTok(x)) => return Ok(FloatV(x));
        case Some(DateTimeTok(ms)) => return Ok(DateTimeV(ms));
        case Some(Str(s)) => return Ok(StringV(s));
        case Some(True) => return Ok(BoolV(true));
        case Some(False) => return Ok(BoolV(false));
        case _ => return Err(Syntax);
      }
    }

    /** The values of an `in(...)` call, to its closing parenthesis. */
    method ReadInItems() returns (r: Result<seq<Value>, ParseError>)
      requires Valid()
      modifies this`pos
      ensures Valid() && Agrees(r, InItems(old(Left()), []))
    {
      var values: seq<Value> := [];
      while true
        invariant Valid()
        invariant InItems(Left(), values) == InItems(old(Left()), [])
        decreases |Left()|
      {
        var t := Next();
        match t {
          case Some(RParen) => return Ok(values);
          case Some(Comma) =>
          case _ => return Err(Syntax);
        }
        if Peek() == Some(RParen) {
          continue;
        }
        var v := ReadLiteral();
        if v.Err? {
          return Err(v.error);
        }
        values := values + [v.value];
      }
    }

    /** The elements of a `uuid_in(...)` call, to its closing parenthesis. */
    method ReadUuidItems() returns (r: Result<seq<Uuid>, ParseError>)
      requires Valid()
      modifies this`pos
      ensures Valid() && Agrees(r, UuidItems(old(Left()), []))
    {
      var uuids: seq<Uuid> := [];
      while true
        invariant Valid()
        invariant UuidItems(Left(), uuids) == UuidItems(old(Left()), [])
        decreases |Left()|
      {
        if Peek() == Some(RParen) {
          var close := Next();
          return Ok(uuids);
        }
        var element := Next();
        if element.None? || !element.value.Hex? || TryParseUuid(element.value.text).None? {
          return Err(Syntax);
        }
        uuids := uuids + [TryParseUuid(element.value.text).value];
        var t := Next();
        match t {
          case Some(Comma) =>
          case Some(RParen) => return Ok(uuids);
          case _ => return Err(Syntax);
        }
      }
    }

    method ReadInCall() returns (r: Result<Query, ParseError>)
      requires Valid() && IsCall(Left(), "in")
      modifies this`pos
      ensures Valid() && Agrees(r, Finish(InCall(old(Left())[2..]), depth))
    {
      var name := Next();
      var open := ExpectTok(LParen);
      var field := ReadField();
      if field.Err? { return Err(field.error); }
      var aspect := ReadAspect();
      if aspect.Err? { return Err(aspect.error); }
      var values := ReadInItems();
      if values.Err? { return Err(values.error); }
      return Ok(In(field.value, values.value, aspect.value));
    }

    method ReadUuidInCall() returns (r: Result<Query, ParseError>)
      requires Valid() && IsCall(Left(), "uuid_in")
      modifies this`pos
      ensures Valid() && Agrees(r, Finish(UuidInCall(old(Left())[2..]), depth))
    {
      var name := Next();
      var open := ExpectTok(LParen);
      var uuids := ReadUuidItems();
      if uuids.Err? { return Err(uuids.error); }
      return Ok(UuidIn(uuids.value));
    }

    method ReadOsmCall(mode: OsmMode) returns (r: Result<Query, ParseError>)
      requires Valid() && |Left()| > 1 && Left()[1].LParen?
      modifies this`pos
      ensures Valid() && Agrees(r, Finish(OsmCall(old(Left())[2..], mode), depth))
    {
      var name := Next();
      var open := ExpectTok(LParen);
      var field := ReadField();
      if field.Err? { return Err(field.error); }
      var wanted := if mode.PathMode? then PathAspect else ValueAspect;
      var aspect := ReadAspect();
      if aspect.Err? { return Err(aspect.error); }
      if aspect.value != Raw && aspect.value != wanted {
        return Err(Syntax);
      }
      var terms := ReadOsmTerms();
      if terms.Err? { return Err(terms.error); }
      return Ok(Osm(field.value, terms.value, mode));
    }

    method ReadOsmTerms() returns (r: Result<seq<string>, ParseError>)
      requires Valid()
      modifies this`pos
      ensures Valid() && Agrees(r, OsmTerms(old(Left())))
    {
      var comma := ExpectTok(Comma);
      if comma.Err? { return Err(comma.error); }
      var text := Next();
      if text.None? || !text.value.Str? {
        return Err(Syntax);
      }
      var close := ExpectTok(RParen);
      if close.Err? { return Err(close.error); }
      return Ok(SplitTerms(text.value.s));
    }

    // ── Nested queries ─────────────────────────────────────────────────────

    /** The one place, with `ReadNot`, where the depth bound is enforced. */
    method ReadOrExpr() returns (r: Result<Query, ParseError>)
      requires Valid()
      modifies this
      ensures Valid() && depth == old(depth) && Agrees(r, OrExpr(old(Left()), old(depth)))
      decreases |tokens| - pos, 5
    {
      if depth >= MAX_DEPTH {
        return Err(TooDeep);
      }
      depth := depth + 1;
      r := ReadOrInner();
      depth := depth - 1;
    }

    method ReadOrInner() returns (r: Result<Query, ParseError>)
      requires Valid()
      modifies this
      ensures Valid() && depth == old(depth) && Agrees(r, OrItems([], old(Left()), old(depth)))
      decreases |tokens| - pos, 4
    {
      var first := ReadAndExpr();
      if first.Err? { return Err(first.error); }
      var operands := [first.value];
      assert [] + operands == operands;
      while Peek() == Some(OrTok)
        invariant Valid() && depth == old(depth) && |Left()| < |old(Left())|
        invariant OrTail(operands, Left(), depth) == OrItems([], old(Left()), old(depth))
        decreases |Left()|
      {
        var or := Next();
        var more := ReadAndExpr();
        if more.Err? { return Err(more.error); }
        operands := operands + [more.value];
      }
      return Ok(FinishOr(operands));
    }

    method ReadAndExpr() returns (r: Result<Query, ParseError>)
      requires Valid()
      modifies this
      ensures Valid() && depth == old(depth) && Agrees(r, AndItems([], old(Left()), old(depth)))
      decreases |tokens| - pos, 3
    {
      var first := ReadUnary();
      if first.Err? { return Err(first.error); }
      var operands := [first.value];
      assert [] + operands == operands;
      while Peek() == Some(AndTok)
        invariant Valid() && depth == old(depth) && |Left()| < |old(Left())|
        invariant AndTail(operands, Left(), depth) == AndItems([], old(Left()), old(depth))
        decreases |Left()|
      {
        var and := Next();
        var more := ReadUnary();
        if more.Err? { return Err(more.error); }
        operands := operands + [more.value];
      }
      return Ok(FinishAnd(operands));
    }

    method ReadUnary() returns (r: Result<Query, ParseError>)
      requires Valid()
      modifies this
      ensures Valid() && depth == old(depth) && Agrees(r, Unary(old(Left()), old(depth)))
      decreases |tokens| - pos, 2
    {
      if Peek() == Some(NotTok) {
        var not := Next();
        if depth >= MAX_DEPTH {
          return Err(TooDeep);
        }
        depth := depth + 1;
        var operand := ReadUnary();
        depth := depth - 1;
        if operand.Err? { return Err(operand.error); }
        return Ok(Not(operand.value));
      }
      r := ReadAtom();
    }

    method ReadAtom() returns (r: Result<Query, ParseError>)
      requires Valid()
      modifies this
      ensures Valid() && depth == old(depth) && Agrees(r, Atom(old(Left()), old(depth)))
      decreases |tokens| - pos, 1
    {
      AtomFinishes(Left(), depth);
      var t, second := Peek(), PeekSecond();
      if t == Some(LParen) {
        var open := Next();
        r := ReadNested(Group);
      } else if t == Some(Ident("osm")) && second == Some(LParen) {
        r := ReadOsmCall(PathMode);
      } else if t == Some(Ident("osmd")) && second == Some(LParen) {
        r := ReadOsmCall(DirectMode);
      } else if t == Some(Ident("same")) && second == Some(LParen) {
        r := ReadSameCall();
      } else if t == Some(Ident("uuid_in")) && second == Some(LParen) {
        r := ReadUuidInCall();
      } else if t == Some(Ident("in")) && second == Some(LParen) {
        r := ReadInCall();
      } else if t.Some? && t.value.Hex? && !(second.Some? && FollowsAField(second.value))
                && TryParseUuid(t.value.text).Some? {
        var atom := Next();
        r := Ok(UuidIn([TryParseUuid(t.value.text).value]));
      } else {
        r := ReadPredicate();
      }
    }

    /** A nested query and the parenthesis that closes it. */
    method ReadNested(w: Wrap) returns (r: Result<Query, ParseError>)
      requires Valid()
      modifies this
      ensures Valid() && depth == old(depth) && Agrees(r, Finish(Parsed(Open(w), old(Left())), old(depth)))
      decreases |tokens| - pos, 6
    {
      var inner := ReadOrExpr();
      if inner.Err? { return Err(inner.error); }
      var close := ExpectTok(RParen);
      if close.Err? { return Err(close.error); }
      return Ok(Build(w, inner.value));
    }

    method ReadSameCall() returns (r: Result<Query, ParseError>)
      requires Valid() && IsCall(Left(), "same")
      modifies this
      ensures Valid() && depth == old(depth) && Agrees(r, Finish(SameHead(old(Left())[2..]), old(depth)))
      decreases |tokens| - pos, 0
    {
      var name := Next();
      var open := ExpectTok(LParen);
      var field := ReadField();
      if field.Err? { return Err(field.error); }
      var comma := ExpectTok(Comma);
      if comma.Err? { return Err(comma.error); }
      r := ReadNested(SameOf(field.value));
    }

    method ReadPredicate() returns (r: Result<Query, ParseError>)
      requires Valid()
      modifies this
      ensures Valid() && depth == old(depth) && Agrees(r, Finish(PredicateHead(old(Left())), old(depth)))
      decreases |tokens| - pos, 0
    {
      var isName := Peek().Some? && Peek().value.Ident?;
      var field := ReadField();
      if field.Err? { return Err(field.error); }
      if isName && LooksLikeTruncatedUuid(field.value) && !(Peek().Some? && FollowsAField(Peek().value)) {
        return Err(Syntax);
      }
      var aspect := ReadAspect();
      if aspect.Err? { return Err(aspect.error); }
      r := ReadOperation(field.value, aspect.value);
    }

    method ReadOperation(field: string, aspect: Aspect) returns (r: Result<Query, ParseError>)
      requires Valid()
      modifies this
      ensures Valid() && depth == old(depth) && Agrees(r, Finish(Operation(field, aspect, old(Left())), old(depth)))
      decreases |tokens| - pos, 8
    {
      var op := Next();
      match op {
        case Some(Is) =>
          var what := Next();
          match what {
            case Some(Present) => return Ok(IsPresent(field, aspect));
            case Some(Absent) => return Ok(IsAbsent(field, aspect));
            case Some(Unknown) =>
              if aspect != Raw {
                return Err(Syntax);
              }
              return Ok(IsUnknown(field));
            case _ => return Err(Syntax);
          }
        case Some(CmpTok(cmp)) =>
          var v := ReadLiteral();
          if v.Err? { return Err(v.error); }
          return Ok(Compare(cmp, field, v.value, aspect));
        case Some(MatchesTok) =>
          var pattern := Next();
          if pattern.Some? && pattern.value.Str? {
            return Ok(Matches(field, pattern.value.s, aspect));
          }
          return Err(Syntax);
        case Some(Arrow) => r := ReadTarget(One, field, aspect);
        case Some(ArrowStar) => r := ReadTarget(Strict, field, aspect);
        case Some(FatArrowStar) => r := ReadTarget(Inclusive, field, aspect);
        case _ => return Err(Syntax);
      }
    }

    /** The right-hand side of an arrow. */
    method ReadTarget(kind: ArrowKind, field: string, aspect: Aspect) returns (r: Result<Query, ParseError>)
      requires Valid()
      modifies this
      ensures Valid() && depth == old(depth)
      ensures Agrees(r, Finish(ArrowTail(kind, field, aspect, old(Left())), old(depth)))
      decreases |tokens| - pos, 7
    {
      if aspect != Raw {
        return Err(Syntax);
      }
      var t := Next();
      match t {
        case Some(Str(path)) => return Ok(ArrowQuery(kind, field, PathTarget(path)));
        case Some(LParen) => r := ReadNested(Arrows(kind, field));
        case _ => return Err(Syntax);
      }
    }
  }

  /** The whole token sequence as one query. */
  method ParseQuery(tokens: seq<Tok>) returns (r: Result<Query, ParseError>)
    ensures r == ParseTokens(tokens)
  {
    var parser := new Parser(tokens);
    assert parser.Left() == tokens;
    var query := parser.ReadOrExpr();
    if query.Err? {
      return Err(query.error);
    }
    match parser.Peek() {
      case None => return Ok(query.value);
      case Some(_) => return Err(Syntax);
    }
  }
}
