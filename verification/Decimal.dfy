/** Decimal text of 64-bit integers, as Go's strconv prints and reads it. */
module Decimal {
  import opened Outcomes
  import opened Text

  const INT64_LIMIT: int := 0x8000_0000_0000_0000

  predicate IsDigit(c: char) {
    '0' <= c <= '9'
  }

  function Digit(d: nat): char
    requires d < 10
  {
    '0' + d as char
  }

  function Digits(n: nat): (s: string)
    ensures s != ""
  {
    if n < 10 then [Digit(n)] else Digits(n / 10) + [Digit(n % 10)]
  }

  function Itoa(n: int): string {
    if n < 0 then "-" + Digits(-n) else Digits(n)
  }

  /** The value of a non-empty run of digits. */
  function ParseDigits(s: string): Option<nat> {
    if s == "" || !IsDigit(s[|s| - 1]) then None
    else
      var d := (s[|s| - 1] - '0') as nat;
      if |s| == 1 then Some(d)
      else
        match ParseDigits(s[..|s| - 1])
        case None => None
        case Some(high) => Some(10 * high + d)
  }

  /** An optional sign and digits, within 64 bits. */
  function Atoi(s: string): Option<int> {
    var signed := s != "" && (s[0] == '-' || s[0] == '+');
    match ParseDigits(if signed then s[1..] else s)
    case None => None
    case Some(m) =>
      var magnitude: int := m;
      var n := if signed && s[0] == '-' then -magnitude else magnitude;
      if -INT64_LIMIT <= n < INT64_LIMIT then Some(n) else None
  }

  lemma {:induction false} DigitsRoundTrip(n: nat)
    ensures ParseDigits(Digits(n)) == Some(n)
    ensures forall k | 0 <= k < |Digits(n)| :: IsDigit(Digits(n)[k])
  {
    if n >= 10 {
      DigitsRoundTrip(n / 10);
      var s := Digits(n);
      assert s[..|s| - 1] == Digits(n / 10);
    }
  }

  lemma AtoiPlain(s: string, m: nat)
    requires s != "" && IsDigit(s[0]) && ParseDigits(s) == Some(m) && m < INT64_LIMIT
    ensures Atoi(s) == Some(m)
  {
  }

  lemma AtoiMinus(s: string, n: int)
    requires -INT64_LIMIT <= n <= 0 && ParseDigits(s) == Some(-n)
    ensures Atoi("-" + s) == Some(n)
  {
    assert ("-" + s)[1..] == s;
  }

  lemma AtoiItoa(n: int)
    requires -INT64_LIMIT <= n < INT64_LIMIT
    ensures Atoi(Itoa(n)) == Some(n)
  {
    if n < 0 {
      DigitsRoundTrip(-n);
      AtoiMinus(Digits(-n), n);
    } else {
      DigitsRoundTrip(n);
      AtoiPlain(Digits(n), n);
    }
  }

  /** Unicode white space, as strings.TrimSpace sees it. */
  predicate IsSpace(c: char) {
    || '\t' <= c <= '\r' || c == ' ' || c == '\U{85}' || c == '\U{A0}' || c == '\U{1680}'
    || '\U{2000}' <= c <= '\U{200A}' || c == '\U{2028}' || c == '\U{2029}'
    || c == '\U{202F}' || c == '\U{205F}' || c == '\U{3000}'
  }

  function TrimLeft(s: string): string {
    if s != "" && IsSpace(s[0]) then TrimLeft(s[1..]) else s
  }

  function TrimSpace(s: string): string {
    TrimRight(TrimLeft(s))
  }

  function TrimRight(s: string): string {
    if s != "" && IsSpace(s[|s| - 1]) then TrimRight(s[..|s| - 1]) else s
  }

  /** The text lo:hi. */
  function FormatRange(lo: int, hi: int): string {
    Itoa(lo) + ":" + Itoa(hi)
  }

  /** The two numbers around the first colon, with blanks around each ignored; they must
      satisfy 0 <= lo <= hi. */
  function ParseRange(s: string): Option<(int, int)> {
    match IndexByte(s, ':')
    case None => None
    case Some(k) =>
      match (Atoi(TrimSpace(s[..k])), Atoi(TrimSpace(s[k + 1..])))
      case (Some(lo), Some(hi)) => if 0 <= lo <= hi then Some((lo, hi)) else None
      case _ => None
  }

  lemma AtoiRange(s: string)
    ensures Atoi(s).Some? ==> -INT64_LIMIT <= Atoi(s).value < INT64_LIMIT
  {
  }

  lemma ParseRangeBounds(s: string)
    requires ParseRange(s).Some?
    ensures 0 <= ParseRange(s).value.0 <= ParseRange(s).value.1 < INT64_LIMIT
  {
    AtoiRange(TrimSpace(s[IndexByte(s, ':').value + 1..]));
  }

  lemma RangeRoundTrip(lo: int, hi: int)
    requires 0 <= lo <= hi < INT64_LIMIT
    ensures ParseRange(FormatRange(lo, hi)) == Some((lo, hi))
  {
    var p, q := Itoa(lo), Itoa(hi);
    DigitsRoundTrip(lo);
    DigitsRoundTrip(hi);
    assert FormatRange(lo, hi)[..|p|] == p;
    FirstIndex(FormatRange(lo, hi), ':', |p|);
    assert FormatRange(lo, hi)[..|p|] == p && FormatRange(lo, hi)[|p| + 1..] == q;
    DigitsAreTrim(lo);
    DigitsAreTrim(hi);
    AtoiItoa(lo);
    AtoiItoa(hi);
  }

  lemma DigitsAreTrim(n: nat)
    ensures TrimSpace(Digits(n)) == Digits(n)
  {
    DigitsRoundTrip(n);
    assert IsDigit(Digits(n)[0]) && IsDigit(Digits(n)[|Digits(n)| - 1]);
  }

  // ----- the texts themselves -----

  /** The decimal digits of a number, the last one first: the remainders by ten. */
  lemma {:induction false} DigitsAt(n: nat, k: nat)
    requires k < |Digits(n)|
    ensures Digits(n)[|Digits(n)| - 1 - k] as int == 48 + Shifted(n, k) % 10
    ensures n > 0 ==> Digits(n)[0] != '0'
  {
    if n >= 10 { DigitsAt(n / 10, if k == 0 then 0 else k - 1); }
  }

  /** n without its last k decimal digits. */
  function Shifted(n: nat, k: nat): nat {
    if k == 0 then n else Shifted(n / 10, k - 1)
  }

  lemma SomeNumbers()
    ensures FormatRange(3, 12) == "3:12" && Itoa(0) == "0" && Itoa(1205) == "1205" && Itoa(-17) == "-17"
    ensures Atoi("+5") == Some(5) && Atoi("-007") == Some(-7)
    ensures Atoi("") == None && Atoi("-") == None && Atoi("1x") == None
  {
    assert Digits(12) == "12";
    assert Digits(120) == "120";
    assert Digits(1205) == "1205";
    assert Digits(17) == "17";
    assert "+5"[1..] == "5" && "-007"[1..] == "007" && "007"[..2] == "00" && "00"[..1] == "0" && "-"[1..] == "";
  }

  /** The text of a number is read only inside 64 bits. */
  lemma Limits(n: nat)
    ensures Atoi(Digits(n)) == if n < 0x8000_0000_0000_0000 then Some(n) else None
    ensures Atoi("-" + Digits(n)) == if n <= 0x8000_0000_0000_0000 then Some(-(n as int)) else None
  {
    DigitsRoundTrip(n);
    assert ("-" + Digits(n))[1..] == Digits(n);
  }

  /** Blanks at either end go, up to the first and the last character that is none. */
  lemma {:induction false} Trimmed(before: string, core: string, behind: string)
    requires core != "" && !IsSpace(core[0]) && !IsSpace(core[|core| - 1])
    requires (forall c | c in before :: IsSpace(c)) && forall c | c in behind :: IsSpace(c)
    ensures TrimSpace(before + core + behind) == core
    decreases |before| + |behind|
  {
    var s := before + core + behind;
    if before != "" {
      assert s[1..] == before[1..] + core + behind;
      Trimmed(before[1..], core, behind);
    } else if behind != "" {
      var front := behind[..|behind| - 1];
      assert s[..|s| - 1] == before + core + front;
      assert s[|s| - 1] == behind[|behind| - 1];
      assert TrimLeft(s) == s && TrimLeft(s[..|s| - 1]) == s[..|s| - 1];
      Trimmed(before, core, front);
    } else {
      assert s == core;
    }
  }

  /** Blanks by code point. */
  lemma Blanks(c: char)
    ensures var n := c as int;
            IsSpace(c) <==> 9 <= n <= 13 || n in {0x20, 0x85, 0xA0, 0x1680, 0x2028, 0x2029, 0x202F, 0x205F, 0x3000}
                            || 0x2000 <= n <= 0x200A
  {
  }

  /** A range is two numbers around the first colon, blanks apart; they may not be negative or
      out of order. */
  lemma RangeAround(lo: string, hi: string, n: int, m: int)
    requires ':' !in lo && Atoi(TrimSpace(lo)) == Some(n) && Atoi(TrimSpace(hi)) == Some(m)
    ensures ParseRange(lo + ":" + hi) == if 0 <= n <= m then Some((n, m)) else None
  {
    var s := lo + ":" + hi;
    assert s[..|lo|] == lo && s[|lo| + 1..] == hi;
    FirstIndex(s, ':', |lo|);
  }

  lemma RangeIsAround(s: string)
    requires ParseRange(s).Some?
    ensures exists lo, hi ::
              && ':' !in lo && s == lo + ":" + hi
              && Atoi(TrimSpace(lo)) == Some(ParseRange(s).value.0)
              && Atoi(TrimSpace(hi)) == Some(ParseRange(s).value.1)
  {
    IndexByteIsFirst(s, ':');
    var k := IndexByte(s, ':').value;
    assert s == s[..k] + ":" + s[k + 1..];
  }
}
