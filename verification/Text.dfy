/** The string library operations the sources use. */
module Text {
  import opened Prelude

  /** Characters with the Unicode White_Space property. */
  predicate IsWhitespace(c: char) {
    var u := c as int;
    || 0x9 <= u <= 0xD || u == 0x20 || u == 0x85 || u == 0xA0 || u == 0x1680
    || 0x2000 <= u <= 0x200A || u == 0x2028 || u == 0x2029 || u == 0x202F || u == 0x205F || u == 0x3000
  }

  function TrimStart(s: string): string {
    if s != "" && IsWhitespace(s[0]) then TrimStart(s[1..]) else s
  }

  function TrimEnd(s: string): string {
    if s != "" && IsWhitespace(s[|s| - 1]) then TrimEnd(s[..|s| - 1]) else s
  }

  function Trim(s: string): string {
    TrimEnd(TrimStart(s))
  }

  /** The pieces between the occurrences of `sep`, always at least one. */
  function Split(s: string, sep: char): (r: seq<string>)
    ensures |r| >= 1
  {
    if s == "" then [""]
    else
      var rest := Split(s[1..], sep);
      if s[0] == sep then [""] + rest else [[s[0]] + rest[0]] + rest[1..]
  }

  lemma {:induction false} SplitPlain(s: string, sep: char)
    requires sep !in s
    ensures Split(s, sep) == [s]
  {
    if s != "" {
      SplitPlain(s[1..], sep);
      assert s == [s[0]] + s[1..];
    }
  }

  lemma {:induction false} SplitAtFirst(a: string, sep: char, b: string)
    requires sep !in a
    ensures Split(a + [sep] + b, sep) == [a] + Split(b, sep)
  {
    var s := a + [sep] + b;
    if a == "" {
      assert s[1..] == b;
    } else {
      assert s[1..] == a[1..] + [sep] + b;
      SplitAtFirst(a[1..], sep, b);
      assert a == [a[0]] + a[1..];
      assert ([a[1..]] + Split(b, sep))[1..] == Split(b, sep);
    }
  }

  // ── Decimal numbers ──────────────────────────────────────────────────────

  predicate IsDigit(c: char) {
    '0' <= c <= '9'
  }

  predicate AllDigits(s: string) {
    forall i :: 0 <= i < |s| ==> IsDigit(s[i])
  }

  function Digit(k: int): char
    requires 0 <= k <= 9
  {
    ('0' as int + k) as char
  }

  function DigitValue(c: char): int
    requires IsDigit(c)
  {
    c as int - '0' as int
  }

  function DigitsValue(s: string): (n: int)
    requires AllDigits(s)
    ensures n >= 0
  {
    if s == "" then 0 else 10 * DigitsValue(s[..|s| - 1]) + DigitValue(s[|s| - 1])
  }

  /** A natural number in decimal. */
  function Decimal(n: nat): (s: string)
    ensures s != "" && AllDigits(s)
  {
    if n < 10 then [Digit(n)] else Decimal(n / 10) + [Digit(n % 10)]
  }

  function Zeros(k: nat): (s: string)
    ensures |s| == k && forall i :: 0 <= i < k ==> s[i] == '0'
  {
    seq(k, _ => '0')
  }

  /** A natural number in decimal, zero-padded to at least `width` digits. */
  function Padded(n: nat, width: nat): (s: string)
    ensures s != "" && AllDigits(s)
  {
    var s := Decimal(n);
    if |s| < width then Zeros(width - |s|) + s else s
  }

  lemma {:induction false} DecimalValue(n: nat)
    ensures DigitsValue(Decimal(n)) == n
  {
    if n < 10 {
      assert Decimal(n)[..0] == "";
    } else {
      DecimalValue(n / 10);
      assert Decimal(n)[..|Decimal(n)| - 1] == Decimal(n / 10);
    }
  }

  lemma {:induction false} LeadingZeros(k: nat, s: string)
    requires AllDigits(s)
    ensures AllDigits(Zeros(k) + s) && DigitsValue(Zeros(k) + s) == DigitsValue(s)
  {
    var z := Zeros(k) + s;
    if s != "" {
      assert z[..|z| - 1] == Zeros(k) + s[..|s| - 1];
      LeadingZeros(k, s[..|s| - 1]);
    } else if k > 0 {
      assert z[..k - 1] == Zeros(k - 1) + "";
      LeadingZeros(k - 1, "");
    }
  }

  lemma PaddedValue(n: nat, width: nat)
    ensures DigitsValue(Padded(n, width)) == n
  {
    DecimalValue(n);
    if |Decimal(n)| < width {
      LeadingZeros(width - |Decimal(n)|, Decimal(n));
    }
  }

  // ── Hexadecimal digits, by their code points ─────────────────────────────

  function HexValue(code: int): (r: Option<nat>)
    ensures r.Some? ==> r.value < 16
  {
    if '0' as int <= code <= '9' as int then Some(code - '0' as int)
    else if 'A' as int <= code <= 'F' as int then Some(code - 'A' as int + 10)
    else if 'a' as int <= code <= 'f' as int then Some(code - 'a' as int + 10)
    else None
  }

  /** A digit, its letters counted from `letter`. */
  function HexDigit(k: nat, letter: char): (r: int)
    requires k < 16 && (letter == 'a' || letter == 'A')
    ensures 0 <= r < 0x80 && HexValue(r) == Some(k)
  {
    if k < 10 then '0' as int + k else letter as int + k - 10
  }

  // ── 64-bit integers ──────────────────────────────────────────────────────

  const I64_MIN := -0x8000_0000_0000_0000
  const I64_MAX := 0x7FFF_FFFF_FFFF_FFFF

  type I64 = x: int | I64_MIN <= x <= I64_MAX

  /** The value when it fits 64 bits, as a checked operation answers it. */
  function CheckedI64(n: int): Option<int> {
    if I64_MIN <= n <= I64_MAX then Some(n) else None
  }

  /** An optional sign, at least one digit, nothing else, no overflow. */
  function ParseI64(s: string): Option<int> {
    var negative := s != "" && s[0] == '-';
    var digits := if s != "" && (s[0] == '-' || s[0] == '+') then s[1..] else s;
    if digits == "" || !AllDigits(digits) then None
    else CheckedI64(if negative then -DigitsValue(digits) else DigitsValue(digits))
  }

  /** What is written zero-padded reads back. */
  lemma ParsePadded(n: nat, width: nat)
    requires n <= I64_MAX
    ensures ParseI64(Padded(n, width)) == Some(n)
  {
    PaddedValue(n, width);
    assert IsDigit(Padded(n, width)[0]);
  }
}
