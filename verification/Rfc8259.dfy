/** A parser for JSON as RFC 8259 has it, written from its grammar alone, and what it makes of the
    printed trees. */
module Rfc8259 {
  import opened JsonValue
  import JsonRoundTrip
  import JsonLexer

  datatype Json =
    | Object(fields: Fields)
    | Array(elements: Elements)
    | Text(s: string)
    | Number(text: string)
    | True
    | False
    | Null

  datatype Fields = NoFields | Field(name: string, value: Json, rest: Fields)

  datatype Elements = NoElements | Element(value: Json, rest: Elements)

  datatype Parsed<T> = Fail | Got(value: T, rest: string)

  function AsObject(p: Parsed<Fields>): Parsed<Json> {
    if p.Got? then Got(Object(p.value), p.rest) else Fail
  }

  function AsArray(p: Parsed<Elements>): Parsed<Json> {
    if p.Got? then Got(Array(p.value), p.rest) else Fail
  }

  function WithField(name: string, v: Json, p: Parsed<Fields>): Parsed<Fields> {
    if p.Got? then Got(Field(name, v, p.value), p.rest) else Fail
  }

  function WithElement(v: Json, p: Parsed<Elements>): Parsed<Elements> {
    if p.Got? then Got(Element(v, p.value), p.rest) else Fail
  }

  // ----- section 2: structure -----

  function Space(s: string): (r: string)
    ensures |r| <= |s|
  {
    if s != "" && (s[0] == ' ' || s[0] == '\t' || s[0] == '\n' || s[0] == '\r') then Space(s[1..]) else s
  }

  predicate Begins(s: string, c: char) {
    s != "" && s[0] == c
  }

  function Document(s: string): Parsed<Json> {
    match Value(s)
    case Fail => Fail
    case Got(v, r) => if Space(r) == "" then Got(v, "") else Fail
  }

  function Word(s: string, w: string, v: Json): (r: Parsed<Json>)
    requires w != ""
    ensures r.Got? ==> |r.rest| < |s|
  {
    if w <= s then Got(v, s[|w|..]) else Fail
  }

  /** Section 3: a value, with any space before it. */
  function Value(text: string): (p: Parsed<Json>)
    ensures p.Got? ==> |p.rest| < |text|
    decreases |text|, 0
  {
    var s := Space(text);
    if s == "" then Fail
    else if s[0] == '{' then
      if Begins(Space(s[1..]), '}') then Got(Object(NoFields), Space(s[1..])[1..])
      else
        AsObject(FieldsOf(s[1..]))
    else if s[0] == '[' then
      if Begins(Space(s[1..]), ']') then Got(Array(NoElements), Space(s[1..])[1..])
      else
        AsArray(ElementsOf(s[1..]))
    else Scalar(s)
  }

  function Scalar(s: string): (p: Parsed<Json>)
    requires s != ""
    ensures p.Got? ==> |p.rest| < |s|
  {
    if s[0] == '\"' then
      match Chars(s[1..], "")
      case Fail => Fail
      case Got(t, r) => Got(Text(t), r)
    else if s[0] == 't' then Word(s, "true", True)
    else if s[0] == 'f' then Word(s, "false", False)
    else if s[0] == 'n' then Word(s, "null", Null)
    else
      match Numeral(s)
      case Fail => Fail
      case Got(t, r) => Got(Number(t), r)
  }

  /** Section 4: one or more fields and the closing brace. */
  function FieldsOf(text: string): (p: Parsed<Fields>)
    ensures p.Got? ==> |p.rest| < |text|
    decreases |text|
  {
    var s := Space(text);
    if !Begins(s, '\"') then Fail
    else
      match Chars(s[1..], "")
      case Fail => Fail
      case Got(name, afterName) =>
        if !Begins(Space(afterName), ':') then Fail
        else
          match Value(Space(afterName)[1..])
          case Fail => Fail
          case Got(v, afterValue) => FieldsEnd(name, v, Space(afterValue))
  }

  function FieldsEnd(name: string, v: Json, s: string): (p: Parsed<Fields>)
    ensures p.Got? ==> |p.rest| < |s|
    decreases |s|
  {
    if Begins(s, '}') then Got(Field(name, v, NoFields), s[1..])
    else if !Begins(s, ',') then Fail
    else WithField(name, v, FieldsOf(s[1..]))
  }

  /** Section 5: one or more elements and the closing bracket. */
  function ElementsOf(text: string): (p: Parsed<Elements>)
    ensures p.Got? ==> |p.rest| < |text|
    decreases |text|, 1
  {
    match Value(text)
    case Fail => Fail
    case Got(v, afterValue) =>
      var s := Space(afterValue);
      if Begins(s, ']') then Got(Element(v, NoElements), s[1..])
      else if !Begins(s, ',') then Fail
      else WithElement(v, ElementsOf(s[1..]))
  }

  // ----- section 6: numbers -----

  function DigitCount(s: string): (n: nat)
    ensures n <= |s|
  {
    if s != "" && JsonLexer.IsDigit(s[0]) then 1 + DigitCount(s[1..]) else 0
  }

  /** A lone zero or digits that do not begin with one; 0 for neither. */
  function IntLength(s: string): (n: nat)
    ensures n <= |s|
  {
    if Begins(s, '0') then 1 else DigitCount(s)
  }

  /** A point needs digits after it. */
  function FractionLength(s: string): (n: int)
    ensures -1 <= n <= |s|
  {
    if !Begins(s, '.') then 0
    else if DigitCount(s[1..]) == 0 then -1
    else 1 + DigitCount(s[1..])
  }

  function ExponentLength(s: string): (n: int)
    ensures -1 <= n <= |s|
  {
    if !Begins(s, 'e') && !Begins(s, 'E') then 0
    else
      var sign := if Begins(s[1..], '+') || Begins(s[1..], '-') then 1 else 0;
      if DigitCount(s[1 + sign..]) == 0 then -1
      else 1 + sign + DigitCount(s[1 + sign..])
  }

  function Numeral(s: string): (p: Parsed<string>)
    ensures p.Got? ==> |p.rest| < |s|
  {
    var sign := if Begins(s, '-') then 1 else 0;
    var i := IntLength(s[sign..]);
    if i == 0 then Fail
    else
      var f := FractionLength(s[sign + i..]);
      if f < 0 then Fail
      else
        var e := ExponentLength(s[sign + i + f..]);
        if e < 0 then Fail else Got(s[..sign + i + f + e], s[sign + i + f + e..])
  }

  // ----- section 7: strings -----

  function HexValue(c: char): (d: int)
    ensures -1 <= d < 16
  {
    if '0' <= c <= '9' then c as int - '0' as int
    else if 'a' <= c <= 'f' then 10 + c as int - 'a' as int
    else if 'A' <= c <= 'F' then 10 + c as int - 'A' as int
    else -1
  }

  /** The character of a four-digit escape; half a surrogate pair has none. */
  function CodeChar(code: nat): char
    requires code < 0x10000
  {
    if 0xD800 <= code < 0xE000 then '\U{FFFD}' else code as char
  }

  /** The character named by a letter after a backslash. */
  function Named(c: char): string {
    if c == '\"' || c == '\\' || c == '/' then [c]
    else if c == 'b' then "\U{0008}"
    else if c == 'f' then "\U{000C}"
    else if c == 'n' then "\n"
    else if c == 'r' then "\r"
    else if c == 't' then "\t"
    else ""
  }

  /** What follows the opening quote, up to and with the closing one. */
  function Chars(s: string, acc: string): (p: Parsed<string>)
    ensures p.Got? ==> |p.rest| < |s|
    decreases |s|
  {
    if s == "" then Fail
    else if s[0] == '\"' then Got(acc, s[1..])
    else if s[0] != '\\' then
      if s[0] < ' ' then Fail else Chars(s[1..], acc + [s[0]])
    else if |s| < 2 then Fail
    else if Named(s[1]) != "" then Chars(s[2..], acc + Named(s[1]))
    else if s[1] != 'u' || |s| < 6 then Fail
    else
      var a, b, c, d := HexValue(s[2]), HexValue(s[3]), HexValue(s[4]), HexValue(s[5]);
      if a < 0 || b < 0 || c < 0 || d < 0 then Fail
      else Chars(s[6..], acc + [CodeChar(a * 4096 + b * 256 + c * 16 + d)])
  }

  // ----- what the printed trees mean -----

  function JsonOf(t: Tree): Json {
    match t
    case Obj(ms) => Object(FieldsIn(ms))
    case Arr(es) => Array(ElementsIn(es))
    case Str(s) => Text(s)
    case Int(n) => Number(IntText(n))
    case Dec(minus, h) => Number(DecText(minus, h))
    case NonFinite(_) => Null
    case Boolean(b) => if b then True else False
  }

  function FieldsIn(ms: Members): Fields {
    match ms
    case NoMembers => NoFields
    case Member(k, v, rest) => Field(k, JsonOf(v), FieldsIn(rest))
  }

  function ElementsIn(es: Items): Elements {
    match es
    case NoItems => NoElements
    case Item(v, rest) => Element(JsonOf(v), ElementsIn(rest))
  }

  /** No number without a decimal value anywhere. */
  predicate Finite(t: Tree) {
    match t
    case Obj(ms) => FiniteMembers(ms)
    case Arr(es) => FiniteItems(es)
    case NonFinite(_) => false
    case _ => true
  }

  predicate FiniteMembers(ms: Members) {
    match ms
    case NoMembers => true
    case Member(_, v, rest) => Finite(v) && FiniteMembers(rest)
  }

  predicate FiniteItems(es: Items) {
    match es
    case NoItems => true
    case Item(v, rest) => Finite(v) && FiniteItems(rest)
  }

  // ----- strings read back, all of them -----

  /** Every escape the writer uses is one of the standard's and means the character it is for. */
  lemma CharRead(c: char, x: string, acc: string)
    ensures Chars(EscapeChar(c) + x, acc) == Chars(x, acc + [c])
  {
    var s := EscapeChar(c) + x;
    if |EscapeChar(c)| == 1 {
      assert s[1..] == x;
    } else if |EscapeChar(c)| == 2 {
      assert s[2..] == x;
    } else {
      var hi, lo := c as int / 16, c as int % 16;
      assert HexValue(HexDigit(hi)) == hi && HexValue(HexDigit(lo)) == lo;
      assert s[2] == '0' && s[3] == '0' && s[4] == HexDigit(hi) && s[5] == HexDigit(lo);
      assert s[6..] == x;
      assert CodeChar(0 * 4096 + 0 * 256 + hi * 16 + lo) == c;
    }
  }

  lemma {:induction false} StringRead(s: string, x: string, acc: string)
    ensures Chars(Escape(s) + ("\"" + x), acc) == Got(acc + s, x)
  {
    if s == "" {
      var q := "\"" + x;
      assert Escape(s) + q == q;
      assert q[1..] == x;
      assert acc + s == acc;
    } else {
      var tail := Escape(s[1..]) + ("\"" + x);
      assert Escape(s) + ("\"" + x) == EscapeChar(s[0]) + tail;
      CharRead(s[0], tail, acc);
      StringRead(s[1..], x, acc + [s[0]]);
      assert acc + [s[0]] + s[1..] == acc + s;
    }
  }

  // ----- numbers read back -----

  lemma {:induction false} DigitCountOf(d: string, post: string)
    requires JsonRoundTrip.AllDigits(d) && (post == "" || !JsonLexer.IsDigit(post[0]))
    ensures DigitCount(d + post) == |d|
  {
    if d == "" {
      assert d + post == post;
    } else {
      assert JsonLexer.IsDigit(d[0]);
      assert (d + post)[1..] == d[1..] + post;
      DigitCountOf(d[1..], post);
    }
  }

  /** Decimal digits, of which the first is zero only for zero itself. */
  lemma {:induction false} NatTextShape(n: nat)
    ensures NatText(n) != "" && JsonRoundTrip.AllDigits(NatText(n))
    ensures NatText(n)[0] == '0' ==> NatText(n) == "0"
    ensures n > 0 ==> NatText(n)[0] != '0'
  {
    if n >= 10 {
      NatTextShape(n / 10);
    }
  }

  predicate IsFraction(s: string) {
    s == "" || (|s| > 1 && s[0] == '.' && JsonRoundTrip.AllDigits(s[1..]))
  }

  lemma NumeralRead(minus: bool, n: nat, fraction: string, post: string)
    requires IsFraction(fraction) && JsonRoundTrip.Ends(post)
    ensures var text := (if minus then "-" else "") + NatText(n) + fraction;
            Value(text + post) == Got(Number(text), post)
  {
    hide Numeral, NatText, Space;
    var sign, whole := if minus then "-" else "", NatText(n);
    NatTextShape(n);
    PartsRead(sign, whole, fraction, post);
    NumeralBegins(sign, whole, fraction + post);
    JsonRoundTrip.Regroup4(sign, whole, fraction, post);
    JsonRoundTrip.Regroup3(sign, whole, fraction + post);
  }

  lemma NumeralBegins(sign: string, whole: string, x: string)
    requires (sign == "" || sign == "-") && whole != "" && JsonRoundTrip.AllDigits(whole)
    ensures var s := sign + whole + x;
            s != "" && Space(s) == s && (s[0] == '-' || JsonLexer.IsDigit(s[0]))
  {
    assert JsonLexer.IsDigit(whole[0]);
  }

  lemma PartsRead(sign: string, whole: string, fraction: string, post: string)
    requires (sign == "" || sign == "-") && IsFraction(fraction) && JsonRoundTrip.Ends(post)
    requires whole != "" && JsonRoundTrip.AllDigits(whole) && (whole[0] == '0' ==> whole == "0")
    ensures Numeral(sign + whole + fraction + post) == Got(sign + whole + fraction, post)
  {
    assert JsonLexer.IsDigit(whole[0]);
    Slices(sign, whole, fraction, post);
    WholeRead(whole, fraction + post);
    FractionRead(fraction, post);
    var s := sign + whole + fraction + post;
    assert Begins(s, '-') <==> sign == "-";
    hide IntLength, FractionLength, ExponentLength;
    NumeralParts(s, |sign|, |whole|, |fraction|);
  }

  lemma NumeralParts(s: string, k: nat, i: nat, f: nat)
    requires k + i + f <= |s| && i > 0 && k == if Begins(s, '-') then 1 else 0
    requires IntLength(s[k..]) == i && FractionLength(s[k + i..]) == f && ExponentLength(s[k + i + f..]) == 0
    ensures Numeral(s) == Got(s[..k + i + f], s[k + i + f..])
  {
    hide IntLength, FractionLength, ExponentLength;
  }

  lemma Slices(a: string, b: string, c: string, d: string)
    ensures var s := a + b + c + d;
            && s[|a|..] == b + (c + d) && s[|a| + |b|..] == c + d
            && s[|a| + |b| + |c|..] == d && s[..|a| + |b| + |c|] == a + b + c
  {
  }

  lemma WholeRead(whole: string, post: string)
    requires whole != "" && JsonRoundTrip.AllDigits(whole) && (whole[0] == '0' ==> whole == "0")
    requires post == "" || !JsonLexer.IsDigit(post[0])
    ensures IntLength(whole + post) == |whole|
  {
    DigitCountOf(whole, post);
  }

  lemma FractionRead(fraction: string, post: string)
    requires IsFraction(fraction) && JsonRoundTrip.Ends(post)
    ensures FractionLength(fraction + post) == |fraction|
    ensures ExponentLength(post) == 0
  {
    if fraction == "" {
      assert fraction + post == post;
    } else {
      assert (fraction + post)[1..] == fraction[1..] + post;
      DigitCountOf(fraction[1..], post);
    }
  }

  lemma IntRead(n: Integer, post: string)
    requires JsonRoundTrip.Ends(post)
    ensures Value(IntText(n) + post) == Got(Number(IntText(n)), post)
  {
    var m := if n < 0 then -n else n;
    assert IntText(n) == (if n < 0 then "-" else "") + NatText(m) + "";
    NumeralRead(n < 0, m, "", post);
  }

  lemma DecRead(minus: bool, h: Centi, post: string)
    requires JsonRoundTrip.Ends(post)
    ensures Value(DecText(minus, h) + post) == Got(Number(DecText(minus, h)), post)
  {
    var cents := [DigitChar(h / 10 % 10), DigitChar(h % 10)];
    var fraction := "." + cents;
    assert fraction[1..] == cents;
    JsonRoundTrip.Regroup3((if minus then "-" else "") + NatText(h / 100), ".", cents);
    NumeralRead(minus, h / 100, fraction, post);
  }

  // ----- trees read back -----

  lemma WordRead(word: string, v: Json, post: string)
    requires (word == "true" && v == True) || (word == "false" && v == False)
    ensures Value(word + post) == Got(v, post)
  {
    var s := word + post;
    assert word <= s && s[|word|..] == post;
    assert Space(s) == s && s[0] == word[0];
  }

  lemma NoWord(infinite: bool, post: string)
    ensures Value((if infinite then "inf" else "nan") + post) == Fail
  {
    var s := (if infinite then "inf" else "nan") + post;
    assert Space(s) == s;
    if infinite {
      assert s[0] == 'i';
      assert s[0..] == s;
      assert Numeral(s) == Fail;
    } else {
      assert s[0] == 'n' && s[1] == 'a';
      assert "null"[1] == 'u';
    }
  }

  lemma TextRead(s: CString, post: string)
    ensures Value(Quote(s) + post) == Got(Text(s), post)
  {
    var q := Quote(s) + post;
    assert Space(q) == q && q[0] == '\"';
    assert q[1..] == Escape(s) + ("\"" + post);
    StringRead(s, post, "");
    assert "" + s == s;
  }

  lemma ObjectStep(x: string)
    requires Begins(x, '\"')
    ensures Value("{" + x) == AsObject(FieldsOf(x))
  {
    var s := "{" + x;
    assert Space(s) == s && s[1..] == x && Space(x) == x;
  }

  lemma ArrayStep(x: string)
    requires x != "" && x[0] != ']' && Space(x) == x
    ensures Value("[" + x) == AsArray(ElementsOf(x))
  {
    var s := "[" + x;
    assert Space(s) == s && s[1..] == x;
  }

  lemma EmptyRead(post: string)
    ensures Value("{" + ("}" + post)) == Got(Object(NoFields), post)
    ensures Value("[" + ("]" + post)) == Got(Array(NoElements), post)
  {
    var o, a := "}" + post, "]" + post;
    assert Space(o) == o && o[1..] == post && Space(a) == a && a[1..] == post;
    var s, t := "{" + o, "[" + a;
    assert Space(s) == s && s[1..] == o && Space(t) == t && t[1..] == a;
  }

  lemma FieldStep(k: string, x: string)
    ensures FieldsOf(Quote(k) + ":" + x)
         == (var p := Value(x); if p.Got? then FieldsEnd(k, p.value, Space(p.rest)) else Fail)
  {
    hide Chars, Value, Escape, Space;
    var y := ":" + x;
    NameBegins(k, x);
    StringRead(k, y, "");
    assert "" + k == k;
    ColonBegins(x);
  }

  lemma NameBegins(k: string, x: string)
    ensures var s := Quote(k) + ":" + x;
            Space(s) == s && Begins(s, '\"') && s[1..] == Escape(k) + ("\"" + (":" + x))
  {
    hide Escape;
    JsonRoundTrip.Regroup4("\"", Escape(k), "\"", ":" + x);
    JsonRoundTrip.Regroup3(Quote(k), ":", x);
  }

  lemma ColonBegins(x: string)
    ensures var y := ":" + x; Space(y) == y && Begins(y, ':') && y[1..] == x
  {
  }

  lemma FieldsEndStep(name: string, v: Json, x: string)
    ensures FieldsEnd(name, v, Space("}" + x)) == Got(Field(name, v, NoFields), x)
    ensures FieldsEnd(name, v, Space("," + x))
         == WithField(name, v, FieldsOf(x))
  {
    var s, t := "}" + x, "," + x;
    assert Space(s) == s && s[1..] == x;
    assert Space(t) == t && t[1..] == x;
  }

  lemma ElementStep(x: string, v: Json, y: string)
    ensures Value(x).Fail? ==> ElementsOf(x) == Fail
    ensures Value(x) == Got(v, "]" + y) ==> ElementsOf(x) == Got(Element(v, NoElements), y)
    ensures Value(x) == Got(v, "," + y) ==>
              ElementsOf(x) == WithElement(v, ElementsOf(y))
  {
    var s, t := "]" + y, "," + y;
    assert Space(s) == s && s[1..] == y;
    assert Space(t) == t && t[1..] == y;
  }

  /** The first character of a printed value begins no space and closes nothing. */
  lemma PrintBegins(t: Tree)
    ensures Print(t) != "" && (var c := Print(t)[0]; c !in " \t\n\r,]}")
  {
    match t
    case Int(n) => NatTextShape(if n < 0 then -n else n);
    case Dec(_, h) => NatTextShape(h / 100);
    case _ =>
  }

  lemma SpaceBeforePrint(t: Tree, x: string)
    ensures Space(Print(t) + x) == Print(t) + x
  {
    PrintBegins(t);
    var s := Print(t) + x;
    assert s[0] == Print(t)[0];
  }

  /** A printed tree is a value of the standard's grammar, and means what the tree does, exactly
      when it is finite. */
  lemma {:induction false} ValueRead(t: Tree, post: string)
    requires JsonRoundTrip.Ends(post)
    ensures Value(Print(t) + post) == if Finite(t) then Got(JsonOf(t), post) else Fail
    decreases t, 1
  {
    hide Value, Scalar, FieldsOf, ElementsOf;
    match t
    case Obj(ms) =>
      var x := PrintMembers(ms, false) + ("}" + post);
      JsonRoundTrip.RegroupBrackets("", "{", PrintMembers(ms, false), "}", post);
      assert "" + ("{" + PrintMembers(ms, false) + "}") == Print(t);
      assert "" + ("{" + x) == "{" + x;
      if ms.NoMembers? {
        assert x == "}" + post;
        EmptyRead(post);
      } else {
        assert Begins(x, '\"');
        ObjectStep(x);
        FieldsRead(ms, post);
      }
    case Arr(es) =>
      var x := PrintItems(es, false) + ("]" + post);
      JsonRoundTrip.RegroupBrackets("", "[", PrintItems(es, false), "]", post);
      assert "" + ("[" + PrintItems(es, false) + "]") == Print(t);
      assert "" + ("[" + x) == "[" + x;
      if es.NoItems? {
        assert x == "]" + post;
        EmptyRead(post);
      } else {
        ItemsBegin(es, "]" + post);
        ArrayStep(x);
        ElementsRead(es, post);
      }
    case Str(s) => TextRead(s, post);
    case Int(n) => IntRead(n, post);
    case Dec(minus, h) => DecRead(minus, h, post);
    case NonFinite(infinite) => NoWord(infinite, post);
    case Boolean(b) => WordRead(if b then "true" else "false", if b then True else False, post);
  }

  lemma ItemsBegin(es: Items, x: string)
    requires es.Item?
    ensures var s := PrintItems(es, false) + x;
            s != "" && s[0] != ']' && Space(s) == s
  {
    PrintBegins(es.value);
    var y := PrintItems(es.rest, true) + x;
    SpaceBeforePrint(es.value, y);
    assert PrintItems(es, false) + x == Print(es.value) + y;
    hide Print;
  }

  /** The text after a member is the closing bracket's or a comma and the next members. */
  lemma AfterMember(ms: Members, x: string)
    requires Begins(x, '}')
    ensures var s := PrintMembers(ms, true) + x;
            && JsonRoundTrip.Ends(s)
            && s == if ms.NoMembers? then x else "," + (PrintMembers(ms, false) + x)
  {
    if ms.Member? {
      CommaApart(Quote(ms.key), Print(ms.value), PrintMembers(ms.rest, true), x);
    }
  }

  lemma CommaApart(k: string, v: string, r: string, x: string)
    ensures ("," + k + ":" + v + r) + x == "," + (("" + k + ":" + v + r) + x)
  {
  }

  lemma AfterItem(es: Items, x: string)
    requires Begins(x, ']')
    ensures var s := PrintItems(es, true) + x;
            && JsonRoundTrip.Ends(s)
            && s == if es.NoItems? then x else "," + (PrintItems(es, false) + x)
  {
    if es.Item? {
      var k := Print(es.value) + PrintItems(es.rest, true);
      assert PrintItems(es, false) == k;
      assert PrintItems(es, true) == "," + k;
      assert ("," + k) + x == "," + (k + x);
    }
  }

  lemma {:induction false} FieldsRead(ms: Members, post: string)
    requires ms.Member?
    ensures FieldsOf(PrintMembers(ms, false) + ("}" + post))
         == if FiniteMembers(ms) then Got(FieldsIn(ms), post) else Fail
    decreases ms, 0
  {
    hide Value, FieldsOf, FieldsEnd, Print, JsonOf, Finite;
    var Member(k, v, rest) := ms;
    var close := "}" + post;
    var after := PrintMembers(rest, true) + close;
    JsonRoundTrip.RegroupMember("", Quote(k), ":", Print(v), PrintMembers(rest, true), close);
    JsonRoundTrip.Regroup3(Quote(k) + ":", Print(v), after);
    assert "" + Quote(k) == Quote(k);
    assert PrintMembers(ms, false) + close == Quote(k) + ":" + (Print(v) + after);
    FieldStep(k, Print(v) + after);
    AfterMember(rest, close);
    ValueRead(v, after);
    if Finite(v) {
      if rest.NoMembers? {
        FieldsEndStep(k, JsonOf(v), post);
      } else {
        FieldsEndStep(k, JsonOf(v), PrintMembers(rest, false) + close);
        FieldsRead(rest, post);
      }
    }
  }

  lemma {:induction false} ElementsRead(es: Items, post: string)
    requires es.Item?
    ensures ElementsOf(PrintItems(es, false) + ("]" + post))
         == if FiniteItems(es) then Got(ElementsIn(es), post) else Fail
    decreases es, 0
  {
    hide Value, ElementsOf, Print, JsonOf, Finite;
    var Item(v, rest) := es;
    var close := "]" + post;
    var after := PrintItems(rest, true) + close;
    JsonRoundTrip.Regroup3(Print(v), PrintItems(rest, true), close);
    assert PrintItems(es, false) == Print(v) + PrintItems(rest, true);
    AfterItem(rest, close);
    ValueRead(v, after);
    if rest.NoItems? {
      ElementStep(Print(v) + after, JsonOf(v), post);
    } else {
      ElementStep(Print(v) + after, JsonOf(v), PrintItems(rest, false) + close);
      ElementsRead(rest, post);
    }
  }

  /** The printed document is JSON by the standard exactly when it has no number without a decimal
      value, and any parser that keeps to the standard gets back every name, string and number. */
  lemma ConformsExactly(t: Tree)
    ensures Document(Print(t)) == if Finite(t) then Got(JsonOf(t), "") else Fail
  {
    ValueRead(t, "");
    assert Print(t) + "" == Print(t);
  }
}
