/** Conversely, every text the parser accepts is a text of the grammar. */
module DslSound {
  import opened Prelude
  import opened QueryIR
  import opened Dsl
  import opened DslGrammar

  lemma FieldRefOf(ts: seq<Tok>, ts1: seq<Tok>, ts2: seq<Tok>, field: string, aspect: Aspect) returns (f: FieldRef)
    requires FieldName(ts) == Parsed(field, ts1) && AspectPart(ts1) == Parsed(aspect, ts2)
    ensures ts == FieldToks(f) + ts2 && WordName(f.word) == field && AspectOf(f) == aspect
  {
    var word := if ts[0].Ident? then NameField(ts[0].name) else HexField(ts[0].text);
    assert ts == [WordTok(word)] + ts1;
    if ts1 == [] || !ts1[0].Colon? {
      f := FieldRef(word, None);
      assert ts == FieldToks(f) + ts2;
    } else {
      f := FieldRef(word, Some(aspect));
      assert ts1 == [ts1[0], ts1[1]] + ts2;
      assert ts == [WordTok(word), ts1[0], ts1[1]] + ts2;
    }
  }

  lemma LiteralIs(ts: seq<Tok>, v: Value, rest: seq<Tok>)
    requires Literal(ts) == Parsed(v, rest)
    ensures ts == [ValueTok(v)] + rest
  {
    assert ts == [ts[0]] + ts[1..];
  }

  lemma InItemsMore(ts: seq<Tok>, before: seq<Value>, v: Value, rest: seq<Tok>)
    requires InItems(ts, before).Parsed? && ts != [] && !ts[0].RParen? && !(|ts| > 1 && ts[1].RParen?)
    requires Literal(ts[1..]) == Parsed(v, rest)
    ensures InItems(ts, before) == InItems(rest, before + [v])
  {
  }

  lemma {:induction false} InSound(ts: seq<Tok>, before: seq<Value>) returns (values: seq<Value>, trailing: bool)
    requires InItems(ts, before).Parsed?
    ensures InItems(ts, before).value == before + values
    ensures ts == InToks(values, trailing) + InItems(ts, before).rest
    decreases |ts|
  {
    if ts[0].RParen? {
      values, trailing := [], false;
      assert ts == [RParen] + ts[1..];
    } else if |ts| > 1 && ts[1].RParen? {
      values, trailing := [], true;
      assert ts == [Comma, RParen] + ts[1..][1..];
    } else {
      var v, rest := Literal(ts[1..]).value, Literal(ts[1..]).rest;
      LiteralIs(ts[1..], v, rest);
      InItemsMore(ts, before, v, rest);
      var more;
      more, trailing := InSound(rest, before + [v]);
      values := [v] + more;
      assert ts == [Comma, ValueTok(v)] + rest;
      MoreValues(v, more, trailing, ts, rest, InItems(ts, before).rest);
      assert before + [v] + more == before + values;
    }
  }

  lemma MoreValues(v: Value, more: seq<Value>, trailing: bool, ts: seq<Tok>, rest: seq<Tok>, tail: seq<Tok>)
    requires ts == [Comma, ValueTok(v)] + rest && rest == InToks(more, trailing) + tail
    ensures ts == InToks([v] + more, trailing) + tail
  {
    assert ([v] + more)[1..] == more;
  }

  lemma {:induction false} UuidSound(ts: seq<Tok>, before: seq<Uuid>) returns (texts: seq<string>, trailing: bool)
    requires UuidItems(ts, before).Parsed?
    ensures forall i :: 0 <= i < |texts| ==> TryParseUuid(texts[i]).Some?
    ensures UuidItems(ts, before).value == before + UuidsOfTexts(texts)
    ensures ts == UuidToks(texts, trailing) + UuidItems(ts, before).rest
    decreases |ts|
  {
    if ts[0].RParen? {
      texts, trailing := [], false;
      assert ts == [RParen] + ts[1..];
    } else {
      var t := ts[0].text;
      var u := TryParseUuid(t).value;
      if ts[1].RParen? {
        texts, trailing := [t], false;
        assert ts == [Hex(t), RParen] + ts[2..];
        assert UuidsOfTexts([t]) == [u] + UuidsOfTexts([t][1..]);
      } else {
        var more, last := UuidSound(ts[2..], before + [u]);
        texts := [t] + more;
        trailing := more == [] || last;
        UuidBefore(before, t, more);
        MoreUuidsSpelled(ts, t, more, last, UuidItems(ts[2..], before + [u]).rest);
      }
    }
  }

  lemma UuidBefore(before: seq<Uuid>, t: string, more: seq<string>)
    requires TryParseUuid(t).Some? && forall i :: 0 <= i < |more| ==> TryParseUuid(more[i]).Some?
    ensures forall i :: 0 <= i < |[t] + more| ==> TryParseUuid(([t] + more)[i]).Some?
    ensures before + UuidsOfTexts([t] + more) == before + [TryParseUuid(t).value] + UuidsOfTexts(more)
  {
    assert ([t] + more)[1..] == more;
  }

  lemma MoreUuidsSpelled(ts: seq<Tok>, t: string, more: seq<string>, last: bool, rest: seq<Tok>)
    requires |ts| > 1 && ts[0] == Hex(t) && ts[1] == Comma && ts[2..] == UuidToks(more, last) + rest
    ensures ts == UuidToks([t] + more, more == [] || last) + rest
  {
    assert ([t] + more)[1..] == more;
    assert ts == [Hex(t), Comma] + ts[2..];
    assert UuidToks([t] + more, more == [] || last) == [Hex(t), Comma] + UuidToks(more, last);
  }

  /** The opening of an atom as a piece of the grammar. */
  ghost predicate Spells(a: Simple, q: Query, ts: seq<Tok>, rest: seq<Tok>) {
    SimpleOk(a) && SimpleQuery(a) == q && ts == SimpleToks(a) + rest
  }

  ghost predicate Opens(o: Opening, w: Wrap, ts: seq<Tok>, rest: seq<Tok>) {
    OpeningOk(o) && WrapOf(o) == w && ts == OpeningToks(o) + rest
  }

  ghost predicate HeadWritten(h: Head, ts: seq<Tok>, rest: seq<Tok>) {
    match h
    case Leaf(q) => exists s :: Spells(s, q, ts, rest)
    case Open(w) => exists o :: Opens(o, w, ts, rest)
  }

  lemma OsmSound(ts: seq<Tok>, mode: OsmMode, h: Head, rest: seq<Tok>)
    requires OsmCall(ts, mode) == Parsed(h, rest)
    ensures HeadWritten(h, [Ident(OsmName(mode)), LParen] + ts, rest)
  {
    var field, ts1 := FieldName(ts).value, FieldName(ts).rest;
    var aspect, ts2 := AspectPart(ts1).value, AspectPart(ts1).rest;
    var f := FieldRefOf(ts, ts1, ts2, field, aspect);
    assert ts2 == [Comma, Str(ts2[1].s), RParen] + rest;
    OsmSpelled(f, mode, ts2[1].s, rest);
    assert Spells(OsmS(mode, f, ts2[1].s), h.query, [Ident(OsmName(mode)), LParen] + ts, rest);
  }

  lemma OsmSpelled(f: FieldRef, mode: OsmMode, text: string, rest: seq<Tok>)
    ensures [Ident(OsmName(mode)), LParen] + (FieldToks(f) + ([Comma, Str(text), RParen] + rest))
      == SimpleToks(OsmS(mode, f, text)) + rest
  {
  }

  lemma InCallSound(ts: seq<Tok>, h: Head, rest: seq<Tok>)
    requires InCall(ts) == Parsed(h, rest)
    ensures HeadWritten(h, [Ident("in"), LParen] + ts, rest)
  {
    var field, ts1 := FieldName(ts).value, FieldName(ts).rest;
    var aspect, ts2 := AspectPart(ts1).value, AspectPart(ts1).rest;
    var f := FieldRefOf(ts, ts1, ts2, field, aspect);
    var values, trailing := InSound(ts2, []);
    assert [] + values == values;
    InSpelled(f, values, trailing, ts2, rest);
  }

  lemma InSpelled(f: FieldRef, values: seq<Value>, trailing: bool, ts2: seq<Tok>, rest: seq<Tok>)
    requires ts2 == InToks(values, trailing) + rest
    ensures Spells(
      InS(f, values, trailing), In(WordName(f.word), values, AspectOf(f)),
      [Ident("in"), LParen] + (FieldToks(f) + ts2), rest)
  {
    assert [Ident("in"), LParen] + (FieldToks(f) + ts2) == SimpleToks(InS(f, values, trailing)) + rest;
  }

  lemma UuidCallSound(ts: seq<Tok>, h: Head, rest: seq<Tok>)
    requires UuidInCall(ts) == Parsed(h, rest)
    ensures HeadWritten(h, [Ident("uuid_in"), LParen] + ts, rest)
  {
    var texts, trailing := UuidSound(ts, []);
    assert [] + UuidsOfTexts(texts) == UuidsOfTexts(texts);
    UuidSpelled(texts, trailing, rest);
    assert Spells(UuidListS(texts, trailing), h.query, [Ident("uuid_in"), LParen] + ts, rest);
  }

  lemma UuidSpelled(texts: seq<string>, trailing: bool, rest: seq<Tok>)
    ensures [Ident("uuid_in"), LParen] + (UuidToks(texts, trailing) + rest)
      == SimpleToks(UuidListS(texts, trailing)) + rest
  {
  }

  lemma SameSound(ts: seq<Tok>, h: Head, rest: seq<Tok>)
    requires SameHead(ts) == Parsed(h, rest)
    ensures HeadWritten(h, [Ident("same"), LParen] + ts, rest)
  {
    var word := if ts[0].Ident? then NameField(ts[0].name) else HexField(ts[0].text);
    assert ts == [WordTok(word), Comma] + rest;
    assert Opens(SameO(word), h.wrap, [Ident("same"), LParen] + ts, rest);
  }

  lemma ArrowSound(kind: ArrowKind, f: FieldRef, ts: seq<Tok>, h: Head, rest: seq<Tok>)
    requires ArrowTail(kind, WordName(f.word), AspectOf(f), ts) == Parsed(h, rest)
    ensures HeadWritten(h, FieldToks(f) + ([ArrowTok(kind)] + ts), rest)
  {
    var all := FieldToks(f) + ([ArrowTok(kind)] + ts);
    assert ts == [ts[0]] + rest;
    if ts[0].Str? {
      assert Spells(PathS(kind, f, ts[0].s), h.query, all, rest);
    } else {
      assert Opens(ArrowO(kind, f), h.wrap, all, rest);
    }
  }

  lemma OperationSound(f: FieldRef, ts: seq<Tok>, h: Head, rest: seq<Tok>)
    requires Operation(WordName(f.word), AspectOf(f), ts) == Parsed(h, rest)
    ensures HeadWritten(h, FieldToks(f) + ts, rest)
  {
    assert ts == [ts[0]] + ts[1..];
    match ts[0] {
      case Arrow => ArrowSound(One, f, ts[1..], h, rest);
      case ArrowStar => ArrowSound(Strict, f, ts[1..], h, rest);
      case FatArrowStar => ArrowSound(Inclusive, f, ts[1..], h, rest);
      case _ => PlainSound(f, ts, h, rest);
    }
  }

  lemma PlainSound(f: FieldRef, ts: seq<Tok>, h: Head, rest: seq<Tok>)
    requires Operation(WordName(f.word), AspectOf(f), ts) == Parsed(h, rest)
    requires ts[0].Is? || ts[0].CmpTok? || ts[0].MatchesTok?
    ensures HeadWritten(h, FieldToks(f) + ts, rest)
  {
    if ts[0].CmpTok? {
      LiteralIs(ts[1..], Literal(ts[1..]).value, rest);
    }
    assert ts == [ts[0], ts[1]] + rest;
    var state := if ts[1].Present? then PresentS(f) else if ts[1].Absent? then AbsentS(f) else UnknownS(f);
    var s := if ts[0].Is? then state
      else if ts[0].CmpTok? then CompareS(ts[0].cmp, f, Literal(ts[1..]).value)
      else MatchesS(f, ts[1].s);
    OperationSplits(s, rest);
    assert Spells(s, h.query, FieldToks(f) + ts, rest);
  }

  lemma PredicateSound(ts: seq<Tok>, h: Head, rest: seq<Tok>)
    requires PredicateHead(ts) == Parsed(h, rest)
    ensures HeadWritten(h, ts, rest)
  {
    var field, ts1 := FieldName(ts).value, FieldName(ts).rest;
    var aspect, ts2 := AspectPart(ts1).value, AspectPart(ts1).rest;
    var f := FieldRefOf(ts, ts1, ts2, field, aspect);
    OperationSound(f, ts2, h, rest);
  }

  lemma HeadSound(ts: seq<Tok>, h: Head, rest: seq<Tok>)
    requires AtomHead(ts) == Parsed(h, rest)
    ensures HeadWritten(h, ts, rest)
  {
    if ts[0].LParen? {
      assert Opens(GroupO, h.wrap, ts, rest) by {
        assert ts == [LParen] + rest;
      }
    } else if IsCall(ts, "osm") || IsCall(ts, "osmd") || IsCall(ts, "same")
              || IsCall(ts, "uuid_in") || IsCall(ts, "in") {
      CallSound(ts, h, rest);
    } else if IsBareUuid(ts) {
      assert Spells(BareS(ts[0].text), h.query, ts, rest) by {
        assert ts == [Hex(ts[0].text)] + rest;
      }
    } else {
      PredicateSound(ts, h, rest);
    }
  }

  lemma CallSound(ts: seq<Tok>, h: Head, rest: seq<Tok>)
    requires AtomHead(ts) == Parsed(h, rest)
    requires IsCall(ts, "osm") || IsCall(ts, "osmd") || IsCall(ts, "same") || IsCall(ts, "uuid_in") || IsCall(ts, "in")
    ensures HeadWritten(h, ts, rest)
  {
    assert ts == [ts[0], ts[1]] + ts[2..];
    if IsCall(ts, "osm") {
      OsmSound(ts[2..], PathMode, h, rest);
    } else if IsCall(ts, "osmd") {
      OsmSound(ts[2..], DirectMode, h, rest);
    } else if IsCall(ts, "same") {
      SameSound(ts[2..], h, rest);
    } else if IsCall(ts, "uuid_in") {
      UuidCallSound(ts[2..], h, rest);
    } else {
      InCallSound(ts[2..], h, rest);
    }
  }

  // ── Every accepted text has a tree ───────────────────────────────────────

  lemma {:induction false} UnarySound(ts: seq<Tok>, depth: nat) returns (u: UnaryT)
    requires Unary(ts, depth).Parsed?
    ensures UnaryOk(u) && UnaryQuery(u) == Unary(ts, depth).value && ts == UnaryToks(u) + Unary(ts, depth).rest
    decreases |ts|, 2
  {
    if ts != [] && ts[0].NotTok? {
      var v := UnarySound(ts[1..], depth + 1);
      u := NotT(v);
      assert ts == [NotTok] + ts[1..];
    } else {
      var a := AtomSound(ts, depth);
      u := AtomT(a);
    }
  }

  lemma {:induction false} AtomSound(ts: seq<Tok>, depth: nat) returns (a: AtomTree)
    requires Atom(ts, depth).Parsed?
    ensures AtomOk(a) && AtomQuery(a) == Atom(ts, depth).value && ts == AtomToks(a) + Atom(ts, depth).rest
    decreases |ts|, 1
  {
    var h, inner := AtomHead(ts).value, AtomHead(ts).rest;
    HeadSound(ts, h, inner);
    match h {
      case Leaf(q) =>
        var s :| Spells(s, q, ts, inner);
        a := SimpleA(s);
      case Open(w) =>
        var o :| Opens(o, w, ts, inner);
        a := NestedSound(o, ts, inner, depth);
    }
  }

  lemma {:induction false} NestedSound(o: Opening, ts: seq<Tok>, inner: seq<Tok>, depth: nat) returns (a: AtomTree)
    requires OpeningOk(o) && ts == OpeningToks(o) + inner && |inner| < |ts| && depth < MAX_DEPTH
    requires var r := OrItems([], inner, depth + 1); r.Parsed? && r.rest != [] && r.rest[0].RParen?
    ensures var r := OrItems([], inner, depth + 1);
      AtomOk(a) && AtomQuery(a) == Build(WrapOf(o), r.value) && ts == AtomToks(a) + r.rest[1..]
    decreases |ts|, 0
  {
    var r := OrItems([], inner, depth + 1);
    var c := AltSound([], inner, depth + 1);
    assert [] + AltOps(c) == AltOps(c);
    a := NestedA(o, c);
    NestedSpelled(o, c, r.rest);
  }

  lemma NestedSpelled(o: Opening, c: Alt, after: seq<Tok>)
    requires after != [] && after[0].RParen?
    ensures OpeningToks(o) + (AltToks(c) + after) == AtomToks(NestedA(o, c)) + after[1..]
  {
    assert after == [RParen] + after[1..];
  }

  lemma MoreUnarySpelled(u: UnaryT, tail: Conj, rest: seq<Tok>, after: seq<Tok>)
    requires rest != [] && rest[0].AndTok? && rest[1..] == ConjToks(tail) + after
    ensures UnaryToks(u) + rest == ConjToks(MoreUnary(u, tail)) + after
  {
    assert rest == [AndTok] + rest[1..];
  }

  lemma MoreConjSpelled(k: Conj, tail: Alt, rest: seq<Tok>, after: seq<Tok>)
    requires rest != [] && rest[0].OrTok? && rest[1..] == AltToks(tail) + after
    ensures ConjToks(k) + rest == AltToks(MoreConj(k, tail)) + after
  {
    assert rest == [OrTok] + rest[1..];
  }

  lemma {:induction false} ConjSound(before: seq<Query>, ts: seq<Tok>, depth: nat) returns (c: Conj)
    requires AndItems(before, ts, depth).Parsed?
    ensures ConjOk(c) && AndItems(before, ts, depth).value == FinishAnd(before + ConjOps(c))
    ensures ts == ConjToks(c) + AndItems(before, ts, depth).rest
    decreases |ts|, 3
  {
    var u := UnarySound(ts, depth);
    var q, rest := Unary(ts, depth).value, Unary(ts, depth).rest;
    if rest != [] && rest[0].AndTok? {
      AndItemsMore(before, ts, depth, q, rest);
      var tail := ConjSound(before + [q], rest[1..], depth);
      c := MoreUnary(u, tail);
      MoreUnarySpelled(u, tail, rest, AndItems(before, ts, depth).rest);
      MoreUnaryMeans(before, u, tail);
    } else {
      c := OneUnary(u);
    }
  }

  lemma AndItemsMore(before: seq<Query>, ts: seq<Tok>, depth: nat, q: Query, rest: seq<Tok>)
    requires Unary(ts, depth) == Parsed(q, rest) && rest != [] && rest[0].AndTok?
    ensures AndItems(before, ts, depth) == AndItems(before + [q], rest[1..], depth)
  {
  }

  lemma MoreUnaryMeans(before: seq<Query>, u: UnaryT, tail: Conj)
    requires UnaryOk(u) && ConjOk(tail)
    ensures ConjOk(MoreUnary(u, tail))
    ensures before + [UnaryQuery(u)] + ConjOps(tail) == before + ConjOps(MoreUnary(u, tail))
  {
    assert ConjOps(MoreUnary(u, tail)) == [UnaryQuery(u)] + ConjOps(tail);
  }

  lemma {:induction false} AltSound(before: seq<Query>, ts: seq<Tok>, depth: nat) returns (c: Alt)
    requires OrItems(before, ts, depth).Parsed?
    ensures AltOk(c) && OrItems(before, ts, depth).value == FinishOr(before + AltOps(c))
    ensures ts == AltToks(c) + OrItems(before, ts, depth).rest
    decreases |ts|, 4
  {
    var k := ConjSound([], ts, depth);
    var q, rest := AndItems([], ts, depth).value, AndItems([], ts, depth).rest;
    assert [] + ConjOps(k) == ConjOps(k);
    if rest != [] && rest[0].OrTok? {
      assert OrItems(before, ts, depth) == OrItems(before + [q], rest[1..], depth);
      var tail := AltSound(before + [q], rest[1..], depth);
      c := MoreConj(k, tail);
      MoreConjSpelled(k, tail, rest, OrItems(before, ts, depth).rest);
      assert before + [q] + AltOps(tail) == before + ([q] + AltOps(tail));
    } else {
      c := OneConj(k);
    }
  }

  /** `c` is a tree of the grammar within the nesting bound, written `ts`, meaning `q`. */
  ghost predicate TreeOf(c: Alt, ts: seq<Tok>, q: Query) {
    AltOk(c) && 1 + AltDepth(c) <= MAX_DEPTH && AltToks(c) == ts && AltQuery(c) == q
  }

  /** The parser accepts exactly the texts of the grammar within the nesting
      bound, and answers what they mean. */
  lemma ParserIsGrammar(ts: seq<Tok>, q: Query)
    ensures ParseTokens(ts) == Ok(q) <==> exists c :: TreeOf(c, ts, q)
  {
    if c :| TreeOf(c, ts, q) {
      TextParses(c);
    }
    if ParseTokens(ts) == Ok(q) {
      var c := AltSound([], ts, 1);
      assert AltToks(c) + [] == AltToks(c);
      assert [] + AltOps(c) == AltOps(c);
      TextParses(c);
      assert TreeOf(c, ts, q);
    }
  }
}
