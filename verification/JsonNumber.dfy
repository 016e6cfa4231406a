/** The value of a number's text: its decimal value, then the nearest double. */
module JsonNumber {
  import opened JsonValue
  import opened JsonLexer
  import opened JsonRoundTrip

  // ----- decimal text -----

  function DigitValue(c: char): nat {
    if IsDigit(c) then c as int - '0' as int else 0
  }

  function DigitsValue(s: string): nat {
    if s == "" then 0 else 10 * DigitsValue(s[..|s| - 1]) + DigitValue(s[|s| - 1])
  }

  /** The number mantissa * 10^e10. */
  datatype Decimal = Decimal(mantissa: int, e10: int)

  /** The number that starts `s`; the rest of `s` is ignored. */
  function ParseDecimal(s: string): Decimal {
    var a := AfterSign(s);
    var b := AfterDigits(a);
    var c := AfterFraction(b);
    var whole := a[..|a| - |b|];
    var places := if |c| < |b| then b[1..|b| - |c|] else "";
    var digits: int := DigitsValue(whole + places);
    Decimal(if |a| < |s| then -digits else digits, Exponent(c) - |places|)
  }

  function Exponent(s: string): int {
    if s == "" || (s[0] != 'e' && s[0] != 'E') then 0
    else
      var a := AfterExponentSign(s[1..]);
      var b := AfterDigits(a);
      var digits: int := DigitsValue(a[..|a| - |b|]);
      if |s| > 1 && s[1] == '-' then -digits else digits
  }

  function ValueOf(d: Decimal): real {
    if d.e10 >= 0 then d.mantissa as real * Pow10(d.e10) as real
    else d.mantissa as real / Pow10(-d.e10) as real
  }

  // ----- doubles -----

  /** Doubles hold every integer up to this magnitude. */
  const EXACT_INTEGERS: int := 0x20_0000_0000_0000

  /** Distance between neighbouring doubles around the natural number `n`, at least one. */
  function Ulp(n: nat): (u: nat)
    ensures u > 0
  {
    if n < EXACT_INTEGERS then 1 else 2 * Ulp(n / 2)
  }

  /** The double nearest to a natural number, ties to even. */
  function RoundNat(n: nat): nat {
    var u := Ulp(n);
    var q, r := n / u, n % u;
    u * (if 2 * r > u || (2 * r == u && q % 2 == 1) then q + 1 else q)
  }

  function RoundInt(n: int): int {
    var magnitude: int := RoundNat(if n < 0 then -n else n);
    if n < 0 then -magnitude else magnitude
  }

  /** A decimal value as a double: integers are rounded, fractions are kept exact. */
  function ToDouble(x: real): real {
    if x == x.Floor as real then RoundInt(x.Floor) as real else x
  }

  function Strtod(s: string): real {
    ToDouble(ValueOf(ParseDecimal(s)))
  }

  /** A double as an integer: the fraction is dropped. */
  function GetInt(num: string): int {
    var x := Strtod(num);
    if x < 0.0 then -((-x).Floor) else x.Floor
  }

  /** An integer the double format can hold. */
  predicate Representable(n: int) {
    var m := if n < 0 then -n else n;
    m % Ulp(m) == 0
  }

  /** The spacing is the one that leaves 53 binary digits. */
  lemma {:induction false} UlpLeaves53(n: nat)
    ensures n < Ulp(n) * 9007199254740992 && (Ulp(n) > 1 ==> n >= Ulp(n) * 4503599627370496)
  {
    if n >= EXACT_INTEGERS {
      UlpLeaves53(n / 2);
    }
  }

  /** Rounding goes to the nearest multiple of it, of two that are as near to the even one. */
  lemma RoundsToNearest(n: nat) returns (q: nat)
    ensures var u: int, r := Ulp(n), RoundNat(n);
            && r == u * q && -u <= 2 * (r - n) <= u
            && (2 * (r - n) == u || 2 * (r - n) == -u ==> q % 2 == 0)
  {
    hide Ulp;
    var u := Ulp(n);
    var d, m := n / u, n % u;
    q := if 2 * m > u || (2 * m == u && d % 2 == 1) then d + 1 else d;
    Parts(n, u);
  }

  lemma Parts(n: nat, u: nat)
    requires u > 0
    ensures n == u * (n / u) + n % u && u * (n / u + 1) == u * (n / u) + u && 0 <= n % u < u
  {
  }

  lemma RoundIntExact(n: int)
    ensures RoundInt(n) == n <==> Representable(n)
  {
    var m: nat := if n < 0 then -n else n;
    var u := Ulp(m);
    var q, r := m / u, m % u;
    assert m == u * q + r;
    assert u * (q + 1) == u * q + u;
  }

  lemma SmallIsRepresentable(n: int)
    requires -EXACT_INTEGERS <= n <= EXACT_INTEGERS
    ensures Representable(n)
  {
    var m: nat := if n < 0 then -n else n;
    if m == EXACT_INTEGERS {
      assert Ulp(m / 2) == 1;
      assert Ulp(m) == 2;
    }
  }

  // ----- what printed numbers read back as -----

  lemma {:induction false} NatTextValue(n: nat)
    ensures DigitsValue(NatText(n)) == n
  {
    if n >= 10 {
      NatTextValue(n / 10);
      var t := NatText(n);
      assert t[..|t| - 1] == NatText(n / 10);
    } else {
      assert NatText(n)[..0] == "";
    }
  }

  /** A sign, digits, and perhaps a point with more digits. */
  lemma PlainNumber(negative: bool, whole: string, places: string)
    requires whole != "" && AllDigits(whole) && AllDigits(places)
    ensures var s := (if negative then "-" else "") + (whole + (if places == "" then "" else "." + places));
            var digits: int := DigitsValue(whole + places);
            ParseDecimal(s) == Decimal(if negative then -digits else digits, -|places|)
  {
    hide DigitsValue, AfterSign, AfterDigits, AfterFraction;
    var b := if places == "" then "" else "." + places;
    var a := whole + b;
    SignRead(negative, whole, b);
    AfterDigitsOf(whole, b);
    assert a[..|a| - |b|] == whole;
    AfterPoint(places);
    assert places == "" ==> whole + places == whole;
  }

  lemma SignRead(negative: bool, whole: string, b: string)
    requires whole != "" && AllDigits(whole)
    ensures AfterSign((if negative then "-" else "") + (whole + b)) == whole + b
  {
    assert IsDigit(whole[0]);
  }

  lemma AfterPoint(places: string)
    requires AllDigits(places)
    ensures var b := if places == "" then "" else "." + places;
            && AfterFraction(b) == ""
            && (places != "" ==> b[1..|b|] == places)
  {
    if places != "" {
      var b := "." + places;
      assert b[1..] == places && places + "" == places;
      AfterDigitsOf(places, "");
    }
  }

  lemma IntTextValue(n: int)
    ensures ParseDecimal(IntText(n)) == Decimal(n, 0)
  {
    var m: nat := if n < 0 then -n else n;
    NatTextDigits(m);
    NatTextValue(m);
    PlainNumber(n < 0, NatText(m), "");
    var t := NatText(m);
    assert t + "" == t;
    assert IntText(n) == (if n < 0 then "-" else "") + (t + "");
  }

  lemma DecTextShape(m: nat, sign: string)
    ensures var d := [DigitChar(m / 10 % 10), DigitChar(m % 10)];
            sign + NatText(m / 100) + "." + d == sign + (NatText(m / 100) + ("." + d))
  {
  }

  /** A number of hundredths with its sign. */
  function Signed(minus: bool, h: nat): int {
    var n: int := h;
    if minus then -n else n
  }

  lemma DecTextValue(minus: bool, h: nat)
    ensures ParseDecimal(DecText(minus, h)) == Decimal(Signed(minus, h), -2)
  {
    NatTextDigits(h / 100);
    NatTextValue(h / 100);
    DecTextShape(h, if minus then "-" else "");
    var d := [DigitChar(h / 10 % 10), DigitChar(h % 10)];
    TwoMoreDigits(NatText(h / 100), h / 10 % 10, h % 10);
    assert DigitsValue(NatText(h / 100) + d) == h;
    PlainNumber(minus, NatText(h / 100), d);
  }

  lemma TwoMoreDigits(s: string, d: nat, e: nat)
    requires d < 10 && e < 10
    ensures DigitsValue(s + [DigitChar(d), DigitChar(e)]) == 100 * DigitsValue(s) + 10 * d + e
  {
    var t := s + [DigitChar(d), DigitChar(e)];
    assert t[..|t| - 1] == s + [DigitChar(d)];
    assert (s + [DigitChar(d)])[..|s|] == s;
  }

  /** An integer reads back rounded to a double, so exactly when it is representable. */
  lemma ReadsBackInt(n: int)
    ensures GetInt(IntText(n)) == RoundInt(n)
    ensures GetInt(IntText(n)) == n <==> Representable(n)
  {
    IntTextValue(n);
    RoundIntExact(n);
    assert Pow10(0) == 1;
    assert (n as real).Floor == n;
    var r := RoundInt(n);
    assert (r as real).Floor == r && (-(r as real)) == (-r) as real;
  }

  lemma HundredthsValue(h: int)
    ensures ValueOf(Decimal(h, -2)) == h as real / 100.0
  {
    assert Pow10(1) == 10 && Pow10(2) == 100;
  }

  lemma WholeHundredths(h: int, x: real)
    requires x * 100.0 == h as real && x == x.Floor as real
    ensures x.Floor == h / 100
  {
    assert (x.Floor * 100) as real == h as real;
  }

  /** A two-decimal number whose whole part is exact reads back as its printed value. */
  lemma ReadsBackDec(minus: bool, h: nat)
    requires h / 100 <= EXACT_INTEGERS
    ensures Strtod(DecText(minus, h)) == Signed(minus, h) as real / 100.0
  {
    hide ParseDecimal, DecText, ToDouble, ValueOf;
    DecTextValue(minus, h);
    HundredthsValue(Signed(minus, h));
    HundredthsAreDoubles(Signed(minus, h));
  }

  /** Hundredths up to that magnitude stay as they are, fractions and whole numbers alike. */
  lemma HundredthsAreDoubles(n: int)
    requires -EXACT_INTEGERS * 100 - 99 <= n <= EXACT_INTEGERS * 100 + 99
    ensures ToDouble(n as real / 100.0) == n as real / 100.0
  {
    hide RoundInt;
    var x := n as real / 100.0;
    assert x * 100.0 == n as real;
    if x == x.Floor as real {
      WholeHundredths(n, x);
      SmallIsRepresentable(x.Floor);
      RoundIntExact(x.Floor);
    }
  }
}
