/**
 * Turning the scraped sell-rate text into a number: every comma is removed
 * (`text.replace(',', '')`) and what is left is read the way Python's
 * `float()` reads a plain decimal literal.
 */
module RateText {
  import opened Wrappers

  predicate IsDigit(c: char) {
    '0' <= c <= '9'
  }

  predicate IsDigits(s: string) {
    forall i :: 0 <= i < |s| ==> IsDigit(s[i])
  }

  function DigitValue(c: char): (d: nat)
    requires IsDigit(c)
    ensures d < 10
  {
    c as int - '0' as int
  }

  function DigitChar(d: nat): (c: char)
    requires d < 10
    ensures IsDigit(c) && DigitValue(c) == d
  {
    ('0' as int + d) as char
  }

  /** The number a digit string denotes in base 10, most significant digit first. */
  function Value(s: string): nat
    requires IsDigits(s)
  {
    if s == [] then 0 else Value(s[..|s| - 1]) * 10 + DigitValue(s[|s| - 1])
  }

  function Pow10(k: nat): (r: nat)
    ensures r >= 1
  {
    if k == 0 then 1 else 10 * Pow10(k - 1)
  }

  /** Position of the first occurrence of `c` in `s`. */
  function FirstIndex(s: string, c: char): (i: nat)
    requires c in s
    ensures i < |s| && s[i] == c && c !in s[..i]
  {
    if s[0] == c then 0 else 1 + FirstIndex(s[1..], c)
  }

  /** `s.replace(',', '')`: the text with every comma removed. */
  function StripCommas(s: string): (r: string)
    ensures ',' !in r
    ensures |r| <= |s|
  {
    if s == [] then []
    else (if s[0] == ',' then [] else [s[0]]) + StripCommas(s[1..])
  }

  /**
   * An unsigned decimal literal: digits with at most one decimal point and
   * at least one digit ("12", "12.5", "12.", ".5").
   */
  predicate IsUnsignedLiteral(s: string) {
    (IsDigits(s) && s != []) ||
    (exists i :: 0 <= i < |s| && s[i] == '.' && IsDigits(s[..i]) && IsDigits(s[i + 1..]) && |s| > 1)
  }

  /** An unsigned decimal literal, optionally preceded by `+` or `-`. */
  predicate IsDecimalLiteral(s: string) {
    IsUnsignedLiteral(s) || (s != [] && (s[0] == '+' || s[0] == '-') && IsUnsignedLiteral(s[1..]))
  }

  /** The value of the literal `whole.frac`. */
  function DecimalValue(whole: string, frac: string): (v: real)
    requires IsDigits(whole) && IsDigits(frac)
    ensures v >= 0.0
  {
    Value(whole) as real + Value(frac) as real / Pow10(|frac|) as real
  }

  function ParseUnsigned(s: string): (r: Option<real>)
    ensures r.Some? ==> s != [] && r.value >= 0.0
    ensures IsDigits(s) && s != [] ==> r == Some(Value(s) as real)
  {
    if '.' in s then
      var i := FirstIndex(s, '.');
      var whole, frac := s[..i], s[i + 1..];
      if IsDigits(whole) && IsDigits(frac) && |whole| + |frac| > 0 then
        Some(DecimalValue(whole, frac))
      else None
    else if IsDigits(s) && s != [] then Some(Value(s) as real)
    else None
  }

  /**
   * Python's `float()` on a plain decimal literal with an optional sign;
   * `None` is a `ValueError`. `ParseFloatIsLiteral` and
   * `ParseFloatAcceptsLiterals` show that exactly the decimal literals parse.
   */
  function ParseFloat(s: string): (r: Option<real>)
    ensures r.Some? ==> s != []
    ensures r.Some? && r.value < 0.0 ==> s[0] == '-'
    ensures IsDigits(s) && s != [] ==> r == Some(Value(s) as real)
  {
    if s != [] && (s[0] == '+' || s[0] == '-') then
      match ParseUnsigned(s[1..])
      case None => None
      case Some(v) => Some(if s[0] == '-' then -v else v)
    else ParseUnsigned(s)
  }

  /** A point between two digit strings is the first point of their concatenation. */
  lemma OnlyPoint(whole: string, frac: string)
    requires IsDigits(whole) && IsDigits(frac)
    ensures var s := whole + ['.'] + frac;
      '.' in s && FirstIndex(s, '.') == |whole| && s[..|whole|] == whole && s[|whole| + 1..] == frac
  {
    var s := whole + ['.'] + frac;
    assert s[|whole|] == '.';
    var j := FirstIndex(s, '.');
    if j != |whole| {
      assert false;
    }
    assert s[..|whole|] == whole;
    assert s[|whole| + 1..] == frac;
  }

  lemma ParseUnsignedOfDecimal(whole: string, frac: string)
    requires IsDigits(whole) && IsDigits(frac) && |whole| + |frac| > 0
    ensures ParseUnsigned(whole + ['.'] + frac) == Some(DecimalValue(whole, frac))
  {
    OnlyPoint(whole, frac);
  }

  /**
   * `float()` of a text that does not start with a sign, and of the same
   * text after a `+` or a `-`: all three read the unsigned value, the
   * last one negated.
   */
  lemma ParseFloatSigned(s: string)
    requires s != [] && s[0] != '+' && s[0] != '-'
    ensures ParseFloat(s) == ParseUnsigned(s)
    ensures ParseFloat(['+'] + s) == ParseUnsigned(s)
    ensures ParseFloat(['-'] + s) == (if ParseUnsigned(s).Some? then Some(-ParseUnsigned(s).value) else None)
  {
    assert (['+'] + s)[1..] == s;
    assert (['-'] + s)[1..] == s;
  }

  /** `float()` of `whole.frac` is `whole + frac / 10^len(frac)`; its signed forms follow by `ParseFloatSigned`. */
  lemma ParseFloatOfDecimal(whole: string, frac: string)
    requires IsDigits(whole) && IsDigits(frac) && |whole| + |frac| > 0
    ensures ParseFloat(whole + ['.'] + frac) == Some(DecimalValue(whole, frac))
  {
    var s := whole + ['.'] + frac;
    ParseUnsignedOfDecimal(whole, frac);
    assert s[0] != '+' && s[0] != '-' by {
      if whole != [] {
        assert s[0] == whole[0];
      }
    }
    ParseFloatSigned(s);
  }

  /** Only a decimal literal parses; any other text is a `ValueError`. */
  lemma ParseFloatIsLiteral(s: string)
    requires ParseFloat(s).Some?
    ensures IsDecimalLiteral(s)
  {
    if s != [] && (s[0] == '+' || s[0] == '-') {
      UnsignedParseIsLiteral(s[1..]);
    } else {
      UnsignedParseIsLiteral(s);
    }
  }

  lemma UnsignedParseIsLiteral(s: string)
    requires ParseUnsigned(s).Some?
    ensures IsUnsignedLiteral(s)
  {
    if '.' in s {
      var i := FirstIndex(s, '.');
      assert s[i] == '.' && IsDigits(s[..i]) && IsDigits(s[i + 1..]) && |s| > 1;
    }
  }

  /** Every decimal literal parses. */
  lemma ParseFloatAcceptsLiterals(s: string)
    requires IsDecimalLiteral(s)
    ensures ParseFloat(s).Some?
  {
    if IsUnsignedLiteral(s) {
      UnsignedLiteralParses(s);
      if s != [] && (s[0] == '+' || s[0] == '-') {
        assert false;
      }
    } else {
      UnsignedLiteralParses(s[1..]);
    }
  }

  lemma UnsignedLiteralParses(s: string)
    requires IsUnsignedLiteral(s)
    ensures ParseUnsigned(s).Some?
  {
    if !(IsDigits(s) && s != []) {
      var i :| 0 <= i < |s| && s[i] == '.' && IsDigits(s[..i]) && IsDigits(s[i + 1..]) && |s| > 1;
      assert s == s[..i] + ['.'] + s[i + 1..];
      ParseUnsignedOfDecimal(s[..i], s[i + 1..]);
    }
  }

  /** `float(text.replace(',', ''))`, `None` when it raises. */
  function ParseRate(text: string): Option<real> {
    ParseFloat(StripCommas(text))
  }

  /** The decimal digits of `n`, without leading zeros. */
  function Digits(n: nat): (s: string)
    ensures IsDigits(s) && s != []
    ensures ',' !in s
  {
    if n < 10 then [DigitChar(n)] else Digits(n / 10) + [DigitChar(n % 10)]
  }

  /** A digit string written with a comma between groups of three, counted from the right ("1650000" as "1,650,000"). */
  function Grouped(s: string): string {
    if |s| <= 3 then s else Grouped(s[..|s| - 3]) + [','] + s[|s| - 3..]
  }

  lemma {:induction false} StripCommasAppend(a: string, b: string)
    ensures StripCommas(a + b) == StripCommas(a) + StripCommas(b)
  {
    if a == [] {
      assert a + b == b;
    } else {
      assert (a + b)[0] == a[0] && (a + b)[1..] == a[1..] + b;
      StripCommasAppend(a[1..], b);
    }
  }

  lemma {:induction false} StripCommasKeeps(s: string)
    requires ',' !in s
    ensures StripCommas(s) == s
  {
    if s != [] {
      StripCommasKeeps(s[1..]);
    }
  }

  lemma StripCommasDropsComma(a: string, b: string)
    ensures StripCommas(a + [','] + b) == StripCommas(a + b)
  {
    StripCommasAppend(a + [','], b);
    StripCommasAppend(a, [',']);
    StripCommasAppend(a, b);
    assert StripCommas([',']) == [];
  }

  /** A comma anywhere in the scraped text has no effect on the rate read from it. */
  lemma ParseRateIgnoresComma(a: string, b: string)
    ensures ParseRate(a + [','] + b) == ParseRate(a + b)
  {
    StripCommasDropsComma(a, b);
  }

  lemma {:induction false} ValueOfDigits(n: nat)
    ensures Value(Digits(n)) == n
  {
    if n >= 10 {
      var s := Digits(n);
      assert s[..|s| - 1] == Digits(n / 10);
      ValueOfDigits(n / 10);
    }
  }

  lemma {:induction false} StripGrouped(s: string)
    requires ',' !in s
    ensures StripCommas(Grouped(s)) == s
  {
    if |s| <= 3 {
      StripCommasKeeps(s);
    } else {
      var head, tail := s[..|s| - 3], s[|s| - 3..];
      assert s == head + tail;
      StripGrouped(head);
      StripCommasAppend(Grouped(head) + [','], tail);
      StripCommasAppend(Grouped(head), [',']);
      StripCommasKeeps(tail);
    }
  }

  /** A whole number shown with thousands separators reads back as that number. */
  lemma ParseRateOfGrouped(n: nat)
    ensures ParseRate(Grouped(Digits(n))) == Some(n as real)
  {
    StripGrouped(Digits(n));
    ValueOfDigits(n);
  }

  /** Empty text, or text of commas alone, never parses. */
  lemma ParseRateRejectsBlank(text: string)
    requires forall i :: 0 <= i < |text| ==> text[i] == ','
    ensures ParseRate(text) == None
  {
    StripCommasOfCommas(text);
  }

  lemma {:induction false} StripCommasOfCommas(text: string)
    requires forall i :: 0 <= i < |text| ==> text[i] == ','
    ensures StripCommas(text) == []
  {
    if text != [] {
      StripCommasOfCommas(text[1..]);
    }
  }
}
