/** JSON documents as trees, and the compact text the writer's calls stand for. */
module JsonValue {

  /** A C string, given by its characters before the terminating NUL. */
  type CString = string

  /** Signed and unsigned 64-bit integers. */
  type Integer = n: int | -0x8000_0000_0000_0000 <= n < 0x1_0000_0000_0000_0000

  /** Hundredths of the doubles that are written, without their sign; they print in well under
      31 characters. */
  type Centi = h: int | 0 <= h <= 10000000000000000000000000

  /** One node per group of writer calls: an object or array with its begin and end,
      or one scalar. `Dec` holds what the two-decimal format prints, a sign, also of zero, and
      hundredths; `NonFinite` is a double without a decimal value. */
  datatype Tree =
    | Obj(members: Members)
    | Arr(items: Items)
    | Str(s: CString)
    | Int(n: Integer)
    | Dec(minus: bool, hundredths: Centi)
    | NonFinite(infinite: bool)
    | Boolean(b: bool)

  datatype Members = NoMembers | Member(key: CString, value: Tree, rest: Members)

  datatype Items = NoItems | Item(value: Tree, rest: Items)

  // ----- strings -----

  function HexDigit(d: nat): char
    requires d < 16
  {
    if d < 10 then '0' + d as char else 'a' + (d - 10) as char
  }

  lemma HexIsLowerCase(d: nat)
    requires d < 16
    ensures HexDigit(d) == "0123456789abcdef"[d]
  {
  }

  predicate IsControl(c: char) {
    c < ' '
  }

  /** The bytes written for one character of a string. */
  function EscapeChar(c: char): string {
    if c == '\"' then "\\\""
    else if c == '\\' then "\\\\"
    else if c == '\U{0008}' then "\\b"
    else if c == '\U{000C}' then "\\f"
    else if c == '\n' then "\\n"
    else if c == '\r' then "\\r"
    else if c == '\t' then "\\t"
    else if IsControl(c) then "\\u00" + [HexDigit(c as int / 16), HexDigit(c as int % 16)]
    else [c]
  }

  function Escape(s: string): string {
    if s == "" then "" else EscapeChar(s[0]) + Escape(s[1..])
  }

  function Quote(s: string): string {
    "\"" + Escape(s) + "\""
  }

  lemma Joined(a: string, b: string, c: string)
    ensures a + (b + c) == (a + b) + c
  {
  }

  lemma EscapeFirst(c: char, s: string)
    ensures Escape([c] + s) == EscapeChar(c) + Escape(s)
  {
    assert ([c] + s)[1..] == s;
  }

  lemma {:induction false} EscapeConcat(a: string, b: string)
    ensures Escape(a + b) == Escape(a) + Escape(b)
  {
    if a == "" {
      assert a + b == b;
    } else {
      var first, rest := EscapeChar(a[0]), Escape(a[1..]);
      assert Escape(a) == first + rest;
      hide Escape, EscapeChar;
      EscapeConcat(a[1..], b);
      EscapeFirst(a[0], a[1..] + b);
      assert a == [a[0]] + a[1..];
      Joined([a[0]], a[1..], b);
      Joined(first, rest, Escape(b));
    }
  }

  // ----- numbers -----

  function DigitChar(d: nat): char
    requires d < 10
  {
    '0' + d as char
  }

  /** Decimal digits of a natural number, without leading zeros. */
  function NatText(n: nat): string {
    if n < 10 then [DigitChar(n)] else NatText(n / 10) + [DigitChar(n % 10)]
  }

  function IntText(n: int): string {
    if n < 0 then "-" + NatText(-n) else NatText(n)
  }

  /** What "%.2f" prints for a number of `h` hundredths, of either sign. */
  function DecText(minus: bool, h: nat): string {
    (if minus then "-" else "") + NatText(h / 100) + "." + [DigitChar(h / 10 % 10), DigitChar(h % 10)]
  }

  function Pow10(k: nat): nat
    ensures Pow10(k) > 0
  {
    if k == 0 then 1 else 10 * Pow10(k - 1)
  }

  lemma {:induction false} NatTextLength(n: nat, k: nat)
    requires k > 0 && n < Pow10(k)
    ensures 1 <= |NatText(n)| <= k
  {
    if n >= 10 {
      assert k > 1;
      assert n / 10 < Pow10(k - 1);
      NatTextLength(n / 10, k - 1);
    }
  }

  // ----- the compact printer -----

  function Lead(comma: bool): string {
    if comma then "," else ""
  }

  function Print(t: Tree): string {
    match t
    case Obj(ms) => "{" + PrintMembers(ms, false) + "}"
    case Arr(es) => "[" + PrintItems(es, false) + "]"
    case Str(s) => Quote(s)
    case Int(n) => IntText(n)
    case Dec(minus, h) => DecText(minus, h)
    case NonFinite(infinite) => if infinite then "inf" else "nan"
    case Boolean(b) => if b then "true" else "false"
  }

  function PrintMembers(ms: Members, comma: bool): string {
    match ms
    case NoMembers => ""
    case Member(k, v, rest) => Lead(comma) + Quote(k) + ":" + Print(v) + PrintMembers(rest, true)
  }

  function PrintItems(es: Items, comma: bool): string {
    match es
    case NoItems => ""
    case Item(v, rest) => Lead(comma) + Print(v) + PrintItems(rest, true)
  }
}
