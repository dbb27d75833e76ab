/** Character classes, 64-bit integers and their decimal text, as the Rust
    standard library defines them for the interpreter's lexers and printers. */
module Text {
  import opened Wrappers

  const I64_MIN: int := -0x8000_0000_0000_0000
  const I64_MAX: int := 0x7fff_ffff_ffff_ffff

  /** Rust's `i64`. */
  type i64 = n: int | I64_MIN <= n <= I64_MAX

  predicate InI64(n: int) { I64_MIN <= n <= I64_MAX }

  /** `char::is_whitespace`: the Unicode White_Space property. */
  predicate IsWhitespace(c: char) {
    var k := c as int;
    (0x09 <= k <= 0x0D) || k == 0x20 || k == 0x85 || k == 0xA0 || k == 0x1680 ||
    (0x2000 <= k <= 0x200A) || k == 0x2028 || k == 0x2029 || k == 0x202F ||
    k == 0x205F || k == 0x3000
  }

  predicate IsParen(c: char) { c == '(' || c == ')' }

  /** A character that can sit inside a word: neither whitespace nor a parenthesis. */
  predicate IsOrdinary(c: char) { !IsWhitespace(c) && !IsParen(c) }

  predicate AllOrdinary(s: string) { forall i :: 0 <= i < |s| ==> IsOrdinary(s[i]) }

  /** A text of whitespace only. */
  predicate Blank(s: string) { forall i :: 0 <= i < |s| ==> IsWhitespace(s[i]) }

  predicate IsDigit(c: char) { '0' <= c <= '9' }

  predicate AllDigits(s: string) { forall i :: 0 <= i < |s| ==> IsDigit(s[i]) }

  function DigitValue(c: char): nat requires IsDigit(c) { (c as int) - ('0' as int) }

  function DigitChar(d: nat): char requires d < 10 { (('0' as int) + d) as char }

  /** The value of a string of decimal digits, most significant first. */
  function DigitsValue(s: string): nat
    requires AllDigits(s)
  {
    if s == [] then 0 else DigitsValue(s[..|s| - 1]) * 10 + DigitValue(s[|s| - 1])
  }

  /** `str::parse::<i64>`: an optional `+` or `-`, then one or more ASCII
      digits, whose value lies in the i64 range. */
  function ParseI64(w: string): (r: Option<i64>)
    ensures r.Some? ==> |w| > 0 && (IsDigit(w[0]) || w[0] == '+' || w[0] == '-')
    ensures r.Some? ==> forall i :: 0 < i < |w| ==> IsDigit(w[i])
    ensures r.Some? ==> exists i :: 0 <= i < |w| && IsDigit(w[i])
  {
    if |w| == 0 then None
    else if (w[0] == '+' || w[0] == '-') && |w| == 1 then None
    else
      var digits := if w[0] == '+' || w[0] == '-' then w[1..] else w;
      if !AllDigits(digits) then None
      else
        var v: int := DigitsValue(digits);
        var n := if w[0] == '-' then -v else v;
        if InI64(n) then
          assert IsDigit(w[|w| - 1]) by { assert digits[|digits| - 1] == w[|w| - 1]; }
          Some(n)
        else None
  }

  /** The decimal digits of a natural number, without leading zeros. */
  function Digits(m: nat): (s: string)
    ensures |s| > 0 && AllDigits(s)
  {
    if m < 10 then [DigitChar(m)] else Digits(m / 10) + [DigitChar(m % 10)]
  }

  /** `i64`'s `Display`/`to_string`: an optional `-`, then the digits. */
  function Decimal(n: int): string {
    if n < 0 then "-" + Digits(-n) else Digits(n)
  }

  lemma {:induction false} DigitsValueOfDigits(m: nat)
    ensures DigitsValue(Digits(m)) == m
  {
    var s := Digits(m);
    if m >= 10 {
      DigitsValueOfDigits(m / 10);
      assert s[..|s| - 1] == Digits(m / 10);
    }
  }

  /** Decimal text parses back to the number it was printed from. */
  lemma DecimalRoundTrip(n: i64)
    ensures ParseI64(Decimal(n)) == Some(n)
  {
    if n < 0 {
      NegativeRoundTrip(n);
    } else {
      NonNegativeRoundTrip(n);
    }
  }

  lemma NegativeRoundTrip(n: i64)
    requires n < 0
    ensures ParseI64(Decimal(n)) == Some(n)
  {
    var m: int := n;
    var w := Decimal(n);
    assert w == "-" + Digits(-m);
    assert w[0] == '-' && w[1..] == Digits(-m);
    DigitsValueOfDigits(-m);
    assert DigitsValue(w[1..]) == -m;
  }

  lemma NonNegativeRoundTrip(n: i64)
    requires n >= 0
    ensures ParseI64(Decimal(n)) == Some(n)
  {
    var w := Digits(n);
    assert Decimal(n) == w;
    assert IsDigit(w[0]);
    DigitsValueOfDigits(n);
  }

  /** Decimal text is a non-empty run of ordinary characters that starts with
      a digit or a minus sign. */
  /** The text `to_string` writes: a `-` exactly for a negative number, never
      a `+`, and no leading zero except in `0` itself. */
  lemma DecimalShape(n: int)
    ensures |Decimal(n)| > 0 && AllOrdinary(Decimal(n))
    ensures IsDigit(Decimal(n)[0]) || Decimal(n)[0] == '-'
    ensures Decimal(n)[0] == '-' <==> n < 0
    ensures '+' !in Decimal(n)
    ensures n < 0 ==> |Decimal(n)| > 1 && Decimal(n)[1] != '0'
    ensures n > 0 ==> Decimal(n)[0] != '0'
    ensures n == 0 ==> Decimal(n) == "0"
  {
    if n < 0 {
      DigitsLeading(-n);
      assert Decimal(n)[1..] == Digits(-n);
    } else {
      DigitsLeading(n);
    }
  }

  /** The digits of a positive number do not start with `0`. */
  lemma {:induction false} DigitsLeading(m: nat)
    ensures m > 0 ==> Digits(m)[0] != '0'
  {
    if m >= 10 {
      DigitsLeading(m / 10);
    }
  }

  /** Number of bytes of a character in UTF-8. */
  function Utf8Width(c: char): nat {
    if (c as int) < 0x80 then 1
    else if (c as int) < 0x800 then 2
    else if (c as int) < 0x10000 then 3
    else 4
  }

  /** `str::len`: the length of a string in UTF-8 bytes. */
  function Utf8Len(s: string): nat {
    if s == [] then 0 else Utf8Len(s[..|s| - 1]) + Utf8Width(s[|s| - 1])
  }

  lemma {:induction false} Utf8LenAtLeastLength(s: string)
    ensures Utf8Len(s) >= |s|
  {
    if s != [] { Utf8LenAtLeastLength(s[..|s| - 1]); }
  }
}
