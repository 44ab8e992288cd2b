/**
 * Integer helpers: strtol in base 10 with the acceptance rule the
 * domain-metadata parser applies to it (response.c, SDB_RESPONSE_GET_LONG),
 * util.c digits, and the C int conversion a long undergoes when passed
 * to an int parameter.
 */
module Numbers {
  import opened Wrappers
  import opened Text

  const LONG_MAX: int := 0x7FFF_FFFF_FFFF_FFFF
  const LONG_MIN: int := -0x8000_0000_0000_0000

  /** isspace in the C locale. */
  predicate IsSpace(c: char)
  {
    c == ' ' || c == '\t' || c == '\n' || c == '\U{B}' || c == '\U{C}' || c == '\r'
  }

  /** The length of the leading run of characters satisfying IsSpace. */
  function SpaceRun(s: string): (k: nat)
    ensures k <= |s|
    ensures forall i :: 0 <= i < k ==> IsSpace(s[i])
    ensures k < |s| ==> !IsSpace(s[k])
  {
    if |s| == 0 || !IsSpace(s[0]) then 0 else 1 + SpaceRun(s[1..])
  }

  /** The length of the leading run of decimal digits. */
  function DigitRun(s: string): (k: nat)
    ensures k <= |s|
    ensures AllDigits(s[..k])
    ensures k < |s| ==> !IsDigit(s[k])
  {
    if |s| == 0 || !IsDigit(s[0]) then 0
    else
      var k := 1 + DigitRun(s[1..]);
      assert s[..k] == [s[0]] + s[1..][..k - 1];
      k
  }

  function Clamp(v: int): (r: int)
    ensures LONG_MIN <= r <= LONG_MAX
    ensures LONG_MIN <= v <= LONG_MAX ==> r == v
  {
    if v > LONG_MAX then LONG_MAX else if v < LONG_MIN then LONG_MIN else v
  }

  /**
   * strtol(s, &e, 10): the value read and the text e points to. Without
   * any digit the value is 0 and e is the whole input; out-of-range values
   * saturate at the long bounds.
   */
  function Strtol(s: string): (r: (int, string))
    ensures LONG_MIN <= r.0 <= LONG_MAX
    ensures |r.1| <= |s|
  {
    var t := s[SpaceRun(s)..];
    if |t| > 0 && (t[0] == '-' || t[0] == '+') then ReadDigits(s, t[0] == '-', t[1..])
    else ReadDigits(s, false, t)
  }

  /** The digit run at the start of u, negated when neg; the whole of s when u has no digit. */
  function ReadDigits(s: string, neg: bool, u: string): (r: (int, string))
    requires |u| <= |s|
    ensures LONG_MIN <= r.0 <= LONG_MAX
    ensures |r.1| <= |s|
  {
    var n := DigitRun(u);
    if n == 0 then (0, s)
    else
      var magnitude: int := DigitsValue(u[..n]);
      (Clamp(if neg then -magnitude else magnitude), u[n..])
  }

  /**
   * SDB_RESPONSE_GET_LONG's verdict on a text: the value when strtol
   * stopped at the end or in front of exactly ".0", otherwise None (the
   * field is zeroed and INVALID_META_RESPONSE returned).
   */
  function GetLong(s: string): (r: Option<int>)
    ensures r.Some? <==> Strtol(s).1 == "" || Strtol(s).1 == ".0"
    ensures r.Some? ==> r.value == Strtol(s).0 && LONG_MIN <= r.value <= LONG_MAX
  {
    var (v, rest) := Strtol(s);
    if rest == "" || rest == ".0" then Some(v) else None
  }

  /** The decimal text of an integer, with a leading '-' when negative. */
  function ShowInt(v: int): string
  {
    if v < 0 then "-" + Show(-v) else Show(v)
  }

  lemma DigitRunAll(s: string, tail: string)
    requires AllDigits(s) && (tail == "" || !IsDigit(tail[0]))
    ensures DigitRun(s + tail) == |s|
  {
    if |s| > 0 {
      assert (s + tail)[1..] == s[1..] + tail;
      DigitRunAll(s[1..], tail);
    }
  }

  /** Reading a digit run followed by a tail that does not start with a digit. */
  lemma ReadDigitsOf(s: string, neg: bool, digits: string, tail: string)
    requires |digits| >= 1 && AllDigits(digits)
    requires tail == "" || !IsDigit(tail[0])
    requires |digits + tail| <= |s|
    ensures ReadDigits(s, neg, digits + tail) ==
      (Clamp(if neg then -(DigitsValue(digits) as int) else DigitsValue(digits)), tail)
  {
    var u := digits + tail;
    DigitRunAll(digits, tail);
    assert u[..|digits|] == digits;
    assert u[|digits|..] == tail;
  }

  /** strtol on a digit run and a tail that does not start with a digit. */
  lemma StrtolOfDigits(digits: string, tail: string)
    requires |digits| >= 1 && AllDigits(digits)
    requires tail == "" || !IsDigit(tail[0])
    ensures Strtol(digits + tail) == (Clamp(DigitsValue(digits)), tail)
  {
    var s := digits + tail;
    assert s[SpaceRun(s)..] == s by {
      assert !IsSpace(s[0]);
    }
    ReadDigitsOf(s, false, digits, tail);
  }

  /** strtol on '-', a digit run and a tail that does not start with a digit. */
  lemma StrtolOfNegative(digits: string, tail: string)
    requires |digits| >= 1 && AllDigits(digits)
    requires tail == "" || !IsDigit(tail[0])
    ensures Strtol("-" + digits + tail) == (Clamp(-(DigitsValue(digits) as int)), tail)
  {
    var u := digits + tail;
    var s := "-" + digits + tail;
    assert s == "-" + u;
    assert s[SpaceRun(s)..] == s by {
      assert !IsSpace(s[0]);
    }
    assert s[1..] == u;
    ReadDigitsOf(s, true, digits, tail);
  }

  /**
   * The server's integers are read back exactly, with or without the
   * ".0" suffix.
   */
  lemma GetLongRoundTrip(v: int, suffix: string)
    requires LONG_MIN <= v <= LONG_MAX
    requires suffix == "" || suffix == ".0"
    ensures GetLong(ShowInt(v) + suffix) == Some(v)
  {
    if v < 0 {
      StrtolOfNegative(Show(-v), suffix);
    } else {
      StrtolOfDigits(Show(v), suffix);
    }
  }

  /** Any other text after the number, or no number at all, is refused. */
  lemma GetLongRejectsTrailingText()
    ensures GetLong("12x") == None
    ensures GetLong("12.5") == None
    ensures GetLong(" x") == None
  {
    StrtolOfDigits("12", "x");
    assert "12x" == "12" + "x";
    StrtolOfDigits("12", ".5");
    assert "12.5" == "12" + ".5";
    assert SpaceRun(" x") == 1;
    assert DigitRun(" x"[1..][0..]) == 0;
  }

  /** Reference definition of util.c digits: one digit, plus one per division that still leaves a number >= base. */
  function DigitCount(n: int, base: int): (d: nat)
    requires base >= 2 || n < base
    ensures d >= 1
    decreases if n < base then 0 else n
  {
    if n < base then 1 else 1 + DigitCount(n / base, base)
  }

  function Pow(b: nat, e: nat): nat
  {
    if e == 0 then 1 else b * Pow(b, e - 1)
  }

  /** Positive n has exactly DigitCount(n, b) digits in base b. */
  lemma {:induction false} DigitCountBounds(n: int, base: int)
    requires base >= 2 && n >= 1
    ensures Pow(base, DigitCount(n, base) - 1) <= n < Pow(base, DigitCount(n, base))
    decreases n
  {
    if n >= base {
      var q := n / base;
      DivBounds(n, base);
      DigitCountBounds(q, base);
      var d := DigitCount(q, base);
      assert DigitCount(n, base) == d + 1;
      var p := Pow(base, d - 1);
      assert Pow(base, d) == base * p;
      assert Pow(base, d + 1) == base * Pow(base, d);
      MulMonotone(base, p, q);
      MulMonotone(base, q + 1, Pow(base, d));
    }
  }

  lemma MulMonotone(b: nat, x: int, y: int)
    requires x <= y
    ensures b * x <= b * y
  {
  }

  lemma DigitStep(n: int, base: int)
    requires base >= 2 && n >= base
    ensures 1 <= n / base < n
    ensures DigitCount(n, base) == 1 + DigitCount(n / base, base)
  {
    DivBounds(n, base);
  }

  lemma DivBounds(n: int, base: int)
    requires base >= 2 && n >= base
    ensures n / base >= 1
    ensures base * (n / base) <= n < base * (n / base + 1)
  {
    assert n == base * (n / base) + n % base;
  }

  /** util.c digits: the loop, over C int division (operands are positive inside it). */
  method Digits(num: int, base: int) returns (d: int)
    requires base >= 2 || num < base
    ensures num < base ==> d == 1
    ensures d == DigitCount(num, base)
    ensures base >= 2 && num >= 1 ==> Pow(base, d - 1) <= num < Pow(base, d)
  {
    d := 1;
    var n := num;
    while n >= base
      invariant base >= 2 || n < base
      invariant d - 1 + DigitCount(n, base) == DigitCount(num, base)
      invariant num >= 1 ==> n >= 1
      decreases n
    {
      DigitStep(n, base);
      n := n / base;
      d := d + 1;
    }
    assert DigitCount(n, base) == 1;
    if base >= 2 && num >= 1 {
      DigitCountBounds(num, base);
    }
  }

  /** The value a C long has once converted to a 32-bit int (two's-complement wrap). */
  function ToInt32(v: int): (r: int)
    ensures -0x8000_0000 <= r < 0x8000_0000
    ensures (r - v) % 0x1_0000_0000 == 0
    ensures -0x8000_0000 <= v < 0x8000_0000 ==> r == v
  {
    (v + 0x8000_0000) % 0x1_0000_0000 - 0x8000_0000
  }
}
