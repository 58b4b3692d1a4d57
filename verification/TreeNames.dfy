/**
 Names and paths as exact bytes: the text shown for a name that is not UTF-8, the
 reading back of that text, and the splitting of a path into its names.
 */
module TreeNames {
  import opened Prelude
  import Text

  type Byte = b: int | 0 <= b < 256

  const PERCENT: Byte := 0x25
  const SLASH: Byte := 0x2F
  /** U+FFFD in UTF-8. */
  const REPLACEMENT: seq<Byte> := [0xEF, 0xBF, 0xBD]

  // ── UTF-8 (section 4 of RFC 3629) ────────────────────────────────────────

  predicate Tail(b: Byte) {
    0x80 <= b <= 0xBF
  }

  /** The length the first byte of a sequence announces, 0 for none. */
  function Width(b: Byte): nat {
    if b < 0x80 then 1
    else if 0xC2 <= b <= 0xDF then 2
    else if 0xE0 <= b <= 0xEF then 3
    else if 0xF0 <= b <= 0xF4 then 4
    else 0
  }

  /** Which second bytes may follow a first one. */
  predicate Second(first: Byte, b: Byte) {
    if first == 0xE0 then 0xA0 <= b <= 0xBF
    else if first == 0xED then 0x80 <= b <= 0x9F
    else if first == 0xF0 then 0x90 <= b <= 0xBF
    else if first == 0xF4 then 0x80 <= b <= 0x8F
    else Tail(b)
  }

  /** What bytes start with: a character, or so many unusable ones. */
  datatype Piece = Char(len: nat) | Broken(len: nat)

  /** An unexpected byte ends the broken sequence before it; the end of the
      input makes everything left unusable. */
  function Head(b: seq<Byte>): (r: Piece)
    requires b != []
    ensures 1 <= r.len <= |b|
  {
    var w := Width(b[0]);
    if w == 1 then Char(1)
    else if w == 0 then Broken(1)
    else if |b| == 1 then Broken(1)
    else if !Second(b[0], b[1]) then Broken(1)
    else if w == 2 then Char(2)
    else if |b| == 2 then Broken(2)
    else if !Tail(b[2]) then Broken(2)
    else if w == 3 then Char(3)
    else if |b| == 3 then Broken(3)
    else if !Tail(b[3]) then Broken(3)
    else Char(4)
  }

  /** A piece starts with the byte that announces it, and only tails follow. */
  lemma HeadIs(b: seq<Byte>)
    requires b != []
    ensures Head(b).Char? ==> Head(b).len == Width(b[0])
    ensures (Head(b).Broken? || Head(b).len > 1) ==> b[0] >= 0x80
    ensures forall i :: 1 <= i < Head(b).len ==> Tail(b[i])
    ensures b[0] < 0x80 ==> Head(b) == Char(1)
    ensures REPLACEMENT <= b ==> Head(b) == Char(3)
  {
  }

  /** The code points that are characters. */
  predicate IsScalar(c: nat) {
    c < 0xD800 || 0xE000 <= c < 0x11_0000
  }

  /** The bytes of a character (section 3 of RFC 3629). */
  function Encoded(c: nat): seq<Byte>
    requires IsScalar(c)
  {
    if c < 0x80 then [c]
    else if c < 0x800 then [0xC0 + c / 64, 0x80 + c % 64]
    else if c < 0x1_0000 then [0xE0 + c / 64 / 64, 0x80 + c / 64 % 64, 0x80 + c % 64]
    else [0xF0 + c / 64 / 64 / 64, 0x80 + c / 64 / 64 % 64, 0x80 + c / 64 % 64, 0x80 + c % 64]
  }

  /** The six bits a tail carries. */
  function Low(b: Byte): int {
    b as int - 0x80
  }

  /** The code point a character's bytes hold. */
  function Decoded(b: seq<Byte>): int
    requires b != [] && Head(b).Char?
  {
    var first: int, n := b[0], Head(b).len;
    if n == 1 then first
    else if n == 2 then (first - 0xC0) * 64 + Low(b[1])
    else if n == 3 then ((first - 0xE0) * 64 + Low(b[1])) * 64 + Low(b[2])
    else (((first - 0xF0) * 64 + Low(b[1])) * 64 + Low(b[2])) * 64 + Low(b[3])
  }

  lemma SixBits(hi: nat, lo: nat)
    requires lo < 64
    ensures (hi * 64 + lo) / 64 == hi && (hi * 64 + lo) % 64 == lo
  {
  }

  /** What is taken for a character is the bytes of one. */
  lemma CharIsEncoded(b: seq<Byte>)
    requires b != [] && Head(b).Char?
    ensures 0 <= Decoded(b) && IsScalar(Decoded(b)) && Encoded(Decoded(b)) == b[..Head(b).len]
  {
    match Head(b).len
    case 1 =>
    case 2 => SixBits(b[0] as int - 0xC0, Low(b[1]));
    case 3 => ThreeIsEncoded(b);
    case _ => FourIsEncoded(b);
  }

  lemma ThreeIsEncoded(b: seq<Byte>)
    requires b != [] && Head(b) == Char(3)
    ensures 0 <= Decoded(b) && IsScalar(Decoded(b)) && Encoded(Decoded(b)) == b[..3]
  {
    ThreeBytes(b[0] as int - 0xE0, Low(b[1]), Low(b[2]));
  }

  lemma FourIsEncoded(b: seq<Byte>)
    requires b != [] && Head(b) == Char(4)
    ensures 0 <= Decoded(b) && IsScalar(Decoded(b)) && Encoded(Decoded(b)) == b[..4]
  {
    FourBytes(b[0] as int - 0xF0, Low(b[1]), Low(b[2]), Low(b[3]));
  }

  lemma ThreeBytes(a: nat, x: nat, y: nat)
    requires a < 16 && x < 64 && y < 64 && (a == 0 ==> x >= 32) && (a == 13 ==> x < 32)
    ensures
      var c := (a * 64 + x) * 64 + y;
      && 0x800 <= c < 0x1_0000 && IsScalar(c) && c % 64 == y && c / 64 % 64 == x && c / 64 / 64 == a
  {
    SixBits(a * 64 + x, y);
    SixBits(a, x);
  }

  lemma FourBytes(a: nat, x: nat, y: nat, z: nat)
    requires a <= 4 && x < 64 && y < 64 && z < 64 && (a == 0 ==> x >= 16) && (a == 4 ==> x < 16)
    ensures
      var c := ((a * 64 + x) * 64 + y) * 64 + z;
      && 0x1_0000 <= c < 0x11_0000 && c % 64 == z && c / 64 % 64 == y && c / 64 / 64 % 64 == x && c / 64 / 64 / 64 == a
  {
    SixBits((a * 64 + x) * 64 + y, z);
    SixBits(a * 64 + x, y);
    SixBits(a, x);
  }

  /** And the bytes of every character are taken for it. */
  lemma EncodedIsChar(c: nat, rest: seq<Byte>)
    requires IsScalar(c)
    ensures Head(Encoded(c) + rest) == Char(|Encoded(c)|)
  {
  }

  predicate Utf8(b: seq<Byte>) {
    b == [] || (Head(b).Char? && Utf8(b[Head(b).len..]))
  }

  /** The length of the characters `b` starts with. */
  function ValidUpTo(b: seq<Byte>): (r: nat)
    ensures r <= |b|
  {
    if b == [] || Head(b).Broken? then 0
    else Head(b).len + ValidUpTo(b[Head(b).len..])
  }

  // ── Escaping ─────────────────────────────────────────────────────────────

  function Escape(b: Byte): seq<Byte> {
    [PERCENT, Text.HexDigit(b / 16, 'A'), Text.HexDigit(b % 16, 'A')]
  }

  /** Two upper-case digits. */
  lemma EscapesInHex()
    ensures Escape(0xE9) == [0x25, 'E' as int, '9' as int] && Escape(0x8A) == [0x25, '8' as int, 'A' as int]
  {
  }

  function EscapeAll(b: seq<Byte>): seq<Byte> {
    if b == [] then [] else Escape(b[0]) + EscapeAll(b[1..])
  }

  /** The text shown: characters as they are, each unusable byte escaped. */
  function Escaped(b: seq<Byte>): seq<Byte> {
    if b == [] then []
    else
      var n := Head(b).len;
      (if Head(b).Char? then b[..n] else EscapeAll(b[..n])) + Escaped(b[n..])
  }

  lemma {:induction false} ValidStops(b: seq<Byte>)
    ensures Utf8(b) <==> ValidUpTo(b) == |b|
    ensures ValidUpTo(b) < |b| ==> Head(b[ValidUpTo(b)..]).Broken?
  {
    if b != [] && Head(b).Char? {
      var n := Head(b).len;
      ValidStops(b[n..]);
      assert b[n + ValidUpTo(b[n..])..] == b[n..][ValidUpTo(b[n..])..];
    }
  }

  lemma CharEscapes(b: seq<Byte>, rest: seq<Byte>)
    requires b != [] && Head(b).Char? && rest == b[Head(b).len..]
    ensures Escaped(b) == b[..Head(b).len] + Escaped(rest) && ValidUpTo(b) == Head(b).len + ValidUpTo(rest)
  {
  }

  lemma {:induction false} EscapedSkipsValid(b: seq<Byte>)
    ensures Escaped(b) == b[..ValidUpTo(b)] + Escaped(b[ValidUpTo(b)..])
  {
    if b == [] || Head(b).Broken? {
      assert b[..0] == [] && b[0..] == b;
    } else {
      var n, rest := Head(b).len, b[Head(b).len..];
      EscapedSkipsValid(rest);
      CharEscapes(b, rest);
      Regroup(b, n, ValidUpTo(rest), Escaped(b), Escaped(rest), Escaped(rest[ValidUpTo(rest)..]));
    }
  }

  lemma Regroup(b: seq<Byte>, n: nat, v: nat, all: seq<Byte>, some: seq<Byte>, last: seq<Byte>)
    requires n + v <= |b| && all == b[..n] + some && some == b[n..][..v] + last
    ensures b[n + v..] == b[n..][v..] && all == b[..n + v] + last
  {
    assert b[..n + v] == b[..n] + b[n..][..v];
  }

  lemma {:induction false} EscapeAllAppend(b: seq<Byte>, x: Byte)
    ensures EscapeAll(b + [x]) == EscapeAll(b) + Escape(x)
  {
    if b == [] {
      assert [x][1..] == [];
    } else {
      EscapeAllAppend(b[1..], x);
      assert (b + [x])[1..] == b[1..] + [x];
    }
  }

  /** The escapes of a broken sequence. */
  method PushEscapes(out: seq<Byte>, bad: seq<Byte>) returns (r: seq<Byte>)
    ensures r == out + EscapeAll(bad)
  {
    r := out;
    for i := 0 to |bad|
      invariant r == out + EscapeAll(bad[..i])
    {
      EscapeAllAppend(bad[..i], bad[i]);
      assert bad[..i + 1] == bad[..i] + [bad[i]];
      r := r + Escape(bad[i]);
    }
    assert bad[..|bad|] == bad;
  }

  lemma BrokenEscapes(bad: seq<Byte>)
    requires bad != [] && Head(bad).Broken?
    ensures Escaped(bad) == EscapeAll(bad[..Head(bad).len]) + Escaped(bad[Head(bad).len..])
  {
  }

  lemma TurnEscapes(rest: seq<Byte>, bad: seq<Byte>)
    requires bad == rest[ValidUpTo(rest)..] && bad != []
    ensures Head(bad).Broken?
    ensures Escaped(rest) == rest[..ValidUpTo(rest)] + (EscapeAll(bad[..Head(bad).len]) + Escaped(bad[Head(bad).len..]))
  {
    ValidStops(rest);
    EscapedSkipsValid(rest);
    BrokenEscapes(bad);
  }

  lemma Reassociate(out: seq<Byte>, good: seq<Byte>, escapes: seq<Byte>, t: seq<Byte>)
    ensures out + good + escapes + t == out + (good + (escapes + t))
  {
  }

  /** One turn of the escaping: the characters, then a broken sequence. */
  method EscapeTurn(out: seq<Byte>, rest: seq<Byte>) returns (r: seq<Byte>, left: seq<Byte>)
    ensures r + Escaped(left) == out + Escaped(rest)
    ensures left == [] || |left| < |rest|
  {
    var valid := ValidUpTo(rest);
    var good, bad := rest[..valid], rest[valid..];
    if bad == [] {
      EscapedSkipsValid(rest);
      assert Escaped(bad) == [];
      return out + good, [];
    }
    TurnEscapes(rest, bad);
    var broken := Head(bad).len;
    left := bad[broken..];
    r := PushEscapes(out + good, bad[..broken]);
    Reassociate(out, good, EscapeAll(bad[..broken]), Escaped(left));
  }

  /** Copies the characters and escapes each broken sequence until none is left. */
  method EscapeBytes(bytes: seq<Byte>) returns (out: seq<Byte>)
    ensures out == Escaped(bytes)
  {
    out := [];
    var rest := bytes;
    while rest != []
      invariant out + Escaped(rest) == Escaped(bytes)
      decreases |rest|
    {
      out, rest := EscapeTurn(out, rest);
    }
    assert out + [] == out;
  }

  // ── Reading the text back ────────────────────────────────────────────────

  /** The byte an escape at the head of `t` stands for. */
  function EscapeAt(t: seq<Byte>): (r: Option<Byte>)
    ensures r.Some? ==> |t| >= 3 && r.value >= 0x80
  {
    if |t| < 3 then None
    else
      var (hi, lo) := (Text.HexValue(t[1]), Text.HexValue(t[2]));
      if hi.None? || lo.None? || hi.value < 8 then None else Some(hi.value * 16 + lo.value)
  }

  /** The bytes of `t` with its escapes undone. */
  function Unescaped(t: seq<Byte>): Option<seq<Byte>> {
    if t == [] then Some([])
    else if t[0] != PERCENT then Before([t[0]], Unescaped(t[1..]))
    else match EscapeAt(t)
      case None => None
      case Some(b) => Before([b], Unescaped(t[3..]))
  }

  function Before(p: seq<Byte>, r: Option<seq<Byte>>): Option<seq<Byte>> {
    match r case None => None case Some(s) => Some(p + s)
  }

  predicate HasReplacement(t: seq<Byte>) {
    |t| >= 3 && (t[..3] == REPLACEMENT || HasReplacement(t[1..]))
  }

  /** Reads `text` as an escaped name; `None` where it is to be searched verbatim. */
  method EscapedToBytes(text: seq<Byte>) returns (r: Option<seq<Byte>>)
    ensures r == Read(text)
  {
    if HasReplacement(text) {
      return None;
    }
    var out: seq<Byte>, escapes, i := [], 0, 0;
    BeforeNothing(Unescaped(text));
    assert text[0..] == text;
    while i < |text|
      invariant i <= |text|
      invariant Unescaped(text) == Before(out, Unescaped(text[i..]))
      invariant escapes > 0 <==> PERCENT in text[..i]
    {
      var rest := text[i..];
      if text[i] != PERCENT {
        BeforeTwice(out, [text[i]], Unescaped(rest[1..]));
        assert rest[1..] == text[i + 1..];
        out, i := out + [text[i]], i + 1;
      } else {
        var byte := EscapeAt(rest);
        if byte.None? {
          return None;
        }
        BeforeTwice(out, [byte.value], Unescaped(rest[3..]));
        assert rest[3..] == text[i + 3..];
        assert text[..i + 3][i] == PERCENT;
        out, escapes, i := out + [byte.value], escapes + 1, i + 3;
      }
    }
    assert text[i..] == [] && text[..i] == text;
    assert out + [] == out;
    return if escapes > 0 then Some(out) else None;
  }

  function Read(text: seq<Byte>): Option<seq<Byte>> {
    if HasReplacement(text) || PERCENT !in text then None else Unescaped(text)
  }

  lemma BeforeNothing(r: Option<seq<Byte>>)
    ensures Before([], r) == r
  {
    if r.Some? {
      assert [] + r.value == r.value;
    }
  }

  lemma BeforeTwice(p: seq<Byte>, q: seq<Byte>, r: Option<seq<Byte>>)
    ensures Before(p, Before(q, r)) == Before(p + q, r)
  {
    if r.Some? {
      assert p + (q + r.value) == p + q + r.value;
    }
  }

  // ── The round trip ───────────────────────────────────────────────────────

  lemma {:induction false} PlainUnescapes(p: seq<Byte>, t: seq<Byte>)
    requires PERCENT !in p
    ensures Unescaped(p + t) == Before(p, Unescaped(t))
  {
    if p == [] {
      assert p + t == t;
      BeforeNothing(Unescaped(t));
    } else {
      PlainUnescapes(p[1..], t);
      assert (p + t)[1..] == p[1..] + t;
      BeforeTwice([p[0]], p[1..], Unescaped(t));
      assert [p[0]] + p[1..] == p;
    }
  }

  lemma EscapeReads(b: Byte, t: seq<Byte>)
    requires b >= 0x80
    ensures EscapeAt(Escape(b) + t) == Some(b) && Unescaped(Escape(b) + t) == Before([b], Unescaped(t))
  {
    var hi, lo := b / 16, b % 16;
    assert Text.HexValue(Text.HexDigit(hi, 'A')) == Some(hi) && Text.HexValue(Text.HexDigit(lo, 'A')) == Some(lo);
    assert (Escape(b) + t)[3..] == t;
  }

  lemma {:induction false} EscapesUnescape(p: seq<Byte>, t: seq<Byte>)
    requires forall i :: 0 <= i < |p| ==> p[i] >= 0x80
    ensures Unescaped(EscapeAll(p) + t) == Before(p, Unescaped(t))
  {
    if p == [] {
      PlainUnescapes([], t);
    } else {
      EscapesUnescape(p[1..], t);
      EscapeReads(p[0], EscapeAll(p[1..]) + t);
      assert EscapeAll(p) + t == Escape(p[0]) + (EscapeAll(p[1..]) + t);
      BeforeTwice([p[0]], p[1..], Unescaped(t));
      assert [p[0]] + p[1..] == p;
    }
  }

  /** A piece holding no `%` is read back and the rest after it. */
  lemma PieceUnescapes(b: seq<Byte>)
    requires b != [] && b[0] != PERCENT
    ensures Unescaped(Escaped(b)) == Before(b[..Head(b).len], Unescaped(Escaped(b[Head(b).len..])))
  {
    var n := Head(b).len;
    HeadIs(b);
    assert forall i :: 0 <= i < n ==> b[..n][i] == b[i];
    if Head(b).Char? {
      PlainUnescapes(b[..n], Escaped(b[n..]));
    } else {
      EscapesUnescape(b[..n], Escaped(b[n..]));
    }
  }

  /** Undoing the escapes gives the bytes back exactly where no `%` was among them. */
  lemma {:induction false} UnescapesIffPlain(b: seq<Byte>)
    ensures Unescaped(Escaped(b)) == Some(b) <==> PERCENT !in b
  {
    if b != [] {
      var n := Head(b).len;
      var rest := b[n..];
      HeadIs(b);
      assert b == b[..n] + rest;
      if b[0] == PERCENT {
        var t := Escaped(b);
        assert t[0] == PERCENT;
        assert Unescaped(t).Some? ==> Unescaped(t).value[0] >= 0x80;
      } else {
        PieceUnescapes(b);
        UnescapesIffPlain(rest);
        PrefixCancels(b[..n], rest, Unescaped(Escaped(rest)));
        assert PERCENT !in b[..n] by {
          assert forall i :: 0 <= i < n ==> b[..n][i] == b[i];
        }
      }
    }
  }

  lemma PrefixCancels(p: seq<Byte>, s: seq<Byte>, r: Option<seq<Byte>>)
    ensures Before(p, r) == Some(p + s) <==> r == Some(s)
  {
    if r.Some? && p + r.value == p + s {
      assert r.value == (p + r.value)[|p|..] == (p + s)[|p|..] == s;
    }
  }

  // ── U+FFFD is in the text exactly where it is in the name ────────────────

  /** No occurrence starts inside `p` or across its end. */
  lemma {:induction false} NoneStartsIn(p: seq<Byte>, t: seq<Byte>)
    requires forall i :: 0 <= i < |p| ==> p[i] != 0xEF
    ensures HasReplacement(p + t) == HasReplacement(t)
  {
    if p == [] {
      assert p + t == t;
    } else {
      NoneStartsIn(p[1..], t);
      assert (p + t)[1..] == p[1..] + t;
      assert (p + t)[0] == p[0];
      assert HasReplacement(t) ==> |p + t| >= 3;
    }
  }

  lemma {:induction false} EscapesAreAscii(p: seq<Byte>)
    ensures forall i :: 0 <= i < |EscapeAll(p)| ==> EscapeAll(p)[i] < 0x80
    ensures p != [] ==> PERCENT in EscapeAll(p)
  {
    if p != [] {
      EscapesAreAscii(p[1..]);
      assert EscapeAll(p)[0] == PERCENT;
    }
  }

  lemma ByteOfPiece(b: seq<Byte>, t: seq<Byte>)
    requires b != [] && t == b[..Head(b).len]
    ensures forall i :: 1 <= i < |t| ==> t[i] != 0xEF
  {
    HeadIs(b);
    assert forall i :: 0 <= i < |t| ==> t[i] == b[i];
  }

  /** After the first byte of a piece, no occurrence starts before its end. */
  lemma PieceReplacement(p: seq<Byte>, t: seq<Byte>)
    requires p != [] && forall i :: 1 <= i < |p| ==> p[i] != 0xEF
    ensures HasReplacement(p + t) <==> REPLACEMENT <= p + t || HasReplacement(t)
  {
    var s := p + t;
    assert s[1..] == p[1..] + t;
    NoneStartsIn(p[1..], t);
    assert |s| >= 3 && REPLACEMENT <= s <==> |s| >= 3 && s[..3] == REPLACEMENT;
    assert HasReplacement(t) ==> |s| >= 3;
  }

  lemma {:induction false} EscapedKeepsReplacement(b: seq<Byte>)
    ensures HasReplacement(Escaped(b)) == HasReplacement(b)
  {
    if b != [] {
      var n := Head(b).len;
      var p, rest := b[..n], b[n..];
      HeadIs(b);
      assert b == p + rest;
      EscapedKeepsReplacement(rest);
      ByteOfPiece(b, p);
      PieceReplacement(p, rest);
      if Head(b).Char? {
        PieceReplacement(p, Escaped(rest));
        StartsWithReplacement(b, p, rest, Escaped(rest));
      } else {
        EscapesAreAscii(p);
        NoneStartsIn(EscapeAll(p), Escaped(rest));
      }
    }
  }

  /** A character is U+FFFD whatever follows it. */
  lemma StartsWithReplacement(b: seq<Byte>, p: seq<Byte>, rest: seq<Byte>, other: seq<Byte>)
    requires b != [] && b == p + rest && Head(b).Char? && p == b[..Head(b).len]
    ensures REPLACEMENT <= p + rest <==> REPLACEMENT <= p + other
  {
    HeadIs(b);
    assert p[0] == b[0] && (p + other)[0] == b[0];
    if b[0] == 0xEF {
      assert |p| == 3;
      assert (p + rest)[..3] == p && (p + other)[..3] == p;
    }
  }

  // ── Results ──────────────────────────────────────────────────────────────

  lemma {:induction false} EscapesIffBroken(b: seq<Byte>)
    requires PERCENT !in b
    ensures PERCENT in Escaped(b) <==> !Utf8(b)
  {
    if b != [] {
      var n := Head(b).len;
      assert b == b[..n] + b[n..];
      EscapesIffBroken(b[n..]);
      EscapesAreAscii(b[..n]);
    }
  }

  /** The text of a name reads back as its bytes exactly when the name is not
      UTF-8 and holds neither `%` nor U+FFFD. */
  lemma RoundTripExactly(b: seq<Byte>)
    ensures Read(Escaped(b)) == Some(b) <==> !Utf8(b) && PERCENT !in b && !HasReplacement(b)
  {
    EscapedKeepsReplacement(b);
    UnescapesIffPlain(b);
    if PERCENT !in b {
      EscapesIffBroken(b);
    }
  }

  /** Two such names are never shown alike. */
  lemma ShownApart(b: seq<Byte>, c: seq<Byte>)
    requires !Utf8(b) && PERCENT !in b && !HasReplacement(b)
    requires !Utf8(c) && PERCENT !in c && !HasReplacement(c)
    ensures Escaped(b) == Escaped(c) ==> b == c
  {
    RoundTripExactly(b);
    RoundTripExactly(c);
  }

  /** A name with `%` can be shown as another: the pair is not a bijection. */
  lemma ShownAlike()
    ensures
      var name, escaped := [0x63, 0xE9], [0x63, PERCENT, 0x45, 0x39];
      name != escaped && Utf8(escaped) && Escaped(name) == escaped
  {
    var name, escaped := [0x63, 0xE9], [0x63, PERCENT, 0x45, 0x39];
    assert name[1..] == [0xE9] && [0xE9][1..] == [] && [0xE9][..1] == [0xE9] && name[..1] == [0x63];
    assert EscapeAll([0xE9]) == Escape(0xE9) + EscapeAll([]);
    assert Escaped([0xE9]) == EscapeAll([0xE9]) + Escaped([]);
    assert escaped[1..][1..][1..][1..] == [];
    assert Utf8(escaped[1..][1..][1..]);
    assert Utf8(escaped[1..][1..]);
  }

  /** What is shown is always text. */
  lemma {:induction false} ShownIsText(b: seq<Byte>)
    ensures Utf8(Escaped(b))
  {
    if b != [] {
      var n := Head(b).len;
      ShownIsText(b[n..]);
      if Head(b).Char? {
        SameHead(b, Escaped(b[n..]));
      } else {
        EscapesAreAscii(b[..n]);
        AsciiFirst(EscapeAll(b[..n]), Escaped(b[n..]));
      }
    }
  }

  lemma SameHead(b: seq<Byte>, t: seq<Byte>)
    requires b != [] && Head(b).Char?
    ensures var c := b[..Head(b).len] + t; Head(c) == Head(b) && c[Head(b).len..] == t
  {
  }

  lemma {:induction false} AsciiFirst(p: seq<Byte>, t: seq<Byte>)
    requires Utf8(t) && forall i :: 0 <= i < |p| ==> p[i] < 0x80
    ensures Utf8(p + t)
  {
    if p == [] {
      assert p + t == t;
    } else {
      AsciiFirst(p[1..], t);
      assert (p + t)[1..] == p[1..] + t;
    }
  }

  // ── Paths ────────────────────────────────────────────────────────────────

  /** The names of a path: what is between its slashes. */
  function Names(path: seq<Byte>): (r: seq<seq<Byte>>)
    ensures |r| > 0
  {
    if path == [] then [[]] else Extended(path[0], Names(path[1..]))
  }

  /** One more byte in front of some names. */
  function Extended(b: Byte, names: seq<seq<Byte>>): (r: seq<seq<Byte>>)
    requires names != []
    ensures r != []
  {
    if b == SLASH then [[]] + names else [[b] + names[0]] + names[1..]
  }

  lemma ExtendedApart(b: Byte, names: seq<seq<Byte>>, more: seq<seq<Byte>>)
    requires names != []
    ensures Extended(b, names + more) == Extended(b, names) + more
  {
    assert (names + more)[1..] == names[1..] + more;
  }

  /** The path of some names. */
  function Joined(names: seq<seq<Byte>>): seq<Byte> {
    if names == [] then []
    else if |names| == 1 then names[0]
    else Joined(names[..|names| - 1]) + [SLASH] + names[|names| - 1]
  }

  method FromNames(names: seq<seq<Byte>>) returns (out: seq<Byte>)
    ensures out == Joined(names)
  {
    out := [];
    for i := 0 to |names|
      invariant out == Joined(names[..i])
    {
      if i > 0 {
        out := out + [SLASH];
      }
      out := out + names[i];
      assert names[..i + 1][..i] == names[..i];
    }
    assert names[..|names|] == names;
  }

  lemma {:induction false} NamesOfPlain(name: seq<Byte>)
    requires SLASH !in name
    ensures Names(name) == [name]
  {
    if name != [] {
      NamesOfPlain(name[1..]);
      assert [name[0]] + name[1..] == name;
    }
  }

  /** A slash separates the names on its two sides. */
  lemma {:induction false} NamesSplit(p: seq<Byte>, q: seq<Byte>)
    ensures Names(p + [SLASH] + q) == Names(p) + Names(q)
  {
    var s := p + [SLASH] + q;
    if p == [] {
      assert s[1..] == q;
    } else {
      NamesSplit(p[1..], q);
      assert s[1..] == p[1..] + [SLASH] + q && s[0] == p[0];
      ExtendedApart(p[0], Names(p[1..]), Names(q));
    }
  }

  /** Names without slashes come back from the path they make. */
  lemma {:induction false} NamesOfJoined(names: seq<seq<Byte>>)
    requires names != [] && forall i :: 0 <= i < |names| ==> SLASH !in names[i]
    ensures Names(Joined(names)) == names
  {
    var n := |names| - 1;
    NamesOfPlain(names[n]);
    assert names == names[..n] + [names[n]];
    if n > 0 {
      NamesOfJoined(names[..n]);
      NamesSplit(Joined(names[..n]), names[n]);
      JoinedUnfolds(names);
    }
  }

  lemma JoinedUnfolds(names: seq<seq<Byte>>)
    requires |names| > 1
    ensures Joined(names) == Joined(names[..|names| - 1]) + [SLASH] + names[|names| - 1]
  {
  }

  lemma {:induction false} NamesArePlain(path: seq<Byte>)
    ensures forall i :: 0 <= i < |Names(path)| ==> SLASH !in Names(path)[i]
  {
    if path != [] {
      NamesArePlain(path[1..]);
    }
  }

  lemma {:induction false} JoinedGrowsLeft(first: seq<Byte>, names: seq<seq<Byte>>)
    requires names != []
    ensures Joined([first] + names) == first + [SLASH] + Joined(names)
  {
    var n := |names| - 1;
    var all := [first] + names;
    assert all[..|all| - 1] == [first] + names[..n] && all[|all| - 1] == names[n];
    if n == 0 {
      assert [first] + names[..n] == [first];
    } else {
      JoinedGrowsLeft(first, names[..n]);
      var left, mid := Joined(names[..n]), first + [SLASH];
      assert (mid + left) + [SLASH] + names[n] == mid + (left + [SLASH] + names[n]);
    }
  }

  lemma {:induction false} JoinedFirstByte(b: Byte, names: seq<seq<Byte>>)
    requires names != []
    ensures Joined([[b] + names[0]] + names[1..]) == [b] + Joined(names)
  {
    if |names| > 1 {
      JoinedGrowsLeft([b] + names[0], names[1..]);
      JoinedGrowsLeft(names[0], names[1..]);
      assert [names[0]] + names[1..] == names;
    }
  }

  /** Every path is the path of its names. */
  lemma {:induction false} JoinedNames(path: seq<Byte>)
    ensures Joined(Names(path)) == path
  {
    if path != [] {
      var r := Names(path[1..]);
      JoinedNames(path[1..]);
      if path[0] == SLASH {
        JoinedGrowsLeft([], r);
      } else {
        JoinedFirstByte(path[0], r);
      }
    }
  }

  /** The parent path and the last name; no parent for a named root, and nothing
      for the filesystem root. */
  method SplitLast(path: seq<Byte>) returns (r: Option<(Option<seq<Byte>>, seq<Byte>)>)
    ensures r.None? <==> path == []
    ensures r.Some? ==>
      && Names(path) == (if r.value.0.None? then [] else Names(r.value.0.value)) + [r.value.1]
      && Joined(Names(path)) == path
  {
    if path == [] {
      return None;
    }
    JoinedNames(path);
    var i := |path|;
    while i > 0 && path[i - 1] != SLASH
      invariant 0 <= i <= |path| && SLASH !in path[i..]
    {
      i := i - 1;
    }
    NamesOfPlain(path[i..]);
    if i == 0 {
      assert path[0..] == path;
      return Some((None, path));
    }
    NamesSplit(path[..i - 1], path[i..]);
    assert path == path[..i - 1] + [SLASH] + path[i..];
    return Some((Some(path[..i - 1]), path[i..]));
  }
}
