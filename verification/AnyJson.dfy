/** What the hand-written reader makes of any text that is JSON by RFC 8259, whoever wrote it. */
module AnyJson {
  import opened JsonLexer
  import R = Rfc8259

  // ----- strings -----

  /** The escapes that the reader does not know. */
  predicate Rare(c: char) {
    c == 'b' || c == 'f' || c == 'u'
  }

  /** None of them comes before the quote that ends the string. */
  predicate PlainString(s: string) {
    s == "" || s[0] == '\"'
    || if s[0] == '\\' && |s| >= 2 then !Rare(s[1]) && PlainString(s[2..]) else PlainString(s[1..])
  }

  /** A string of the standard is read as what it means exactly when it fits the reader's buffer and
      has no such escape, and otherwise not at all or as something else. */
  lemma StringAgreesExactly(s: string, t: string, rest: string)
    requires R.Chars(s, "") == R.Got(t, rest)
    ensures if PlainString(s) && |t| <= 254 then Decode(s, "") == Decoded(true, t, rest)
            else !Decode(s, "").ok || Decode(s, "").text != t
  {
    StringAgrees(s, "", t, rest);
    OkFits(s, "");
  }

  lemma {:induction false} OkFits(s: string, acc: string)
    ensures Decode(s, acc).ok ==> |Decode(s, acc).text| <= MAX_STRING - 2
    decreases |s|
  {
    if s != "" && |acc| < MAX_STRING - 1 && s[0] != '\"' {
      if s[0] == '\\' && |s| >= 2 {
        OkFits(s[2..], acc + [Unescape(s[1])]);
      } else {
        OkFits(s[1..], acc + [s[0]]);
      }
    }
  }

  lemma {:induction false} Grows(s: string, acc: string, t: string, rest: string)
    requires R.Chars(s, acc) == R.Got(t, rest)
    ensures acc <= t
    decreases |s|
  {
    if s[0] == '\"' {
    } else if s[0] != '\\' {
      Grows(s[1..], acc + [s[0]], t, rest);
    } else if s[1] == 'u' {
      Grows(s[6..], acc + [CodeAt(s)], t, rest);
    } else {
      Grows(s[2..], acc + R.Named(s[1]), t, rest);
    }
  }

  lemma {:induction false} StringAgrees(s: string, acc: string, t: string, rest: string)
    requires R.Chars(s, acc) == R.Got(t, rest)
    ensures PlainString(s) && |t| <= MAX_STRING - 2 ==> Decode(s, acc) == Decoded(true, t, rest)
    ensures !PlainString(s) && Decode(s, acc).ok ==> Decode(s, acc).text != t
    decreases |s|
  {
    Grows(s, acc, t, rest);
    if s[0] == '\"' {
    } else if s[0] != '\\' {
      StringAgrees(s[1..], acc + [s[0]], t, rest);
    } else if s[1] == 'u' {
      CodeTaken(s, acc);
      Strays(s[6..], acc + [CodeAt(s)], acc + s[1..6], t, rest);
    } else {
      StringAgrees(s[2..], acc + R.Named(s[1]), t, rest);
      if Rare(s[1]) {
        assert (acc + R.Named(s[1]))[|acc|] != (acc + [s[1]])[|acc|];
        Strays(s[2..], acc + R.Named(s[1]), acc + [s[1]], t, rest);
      }
    }
  }

  /** The reader takes the letter and the digits of a code as they are. */
  lemma CodeTaken(s: string, acc: string)
    requires |s| >= 6 && s[0] == '\\' && s[1] == 'u' && forall i :: 2 <= i < 6 ==> R.HexValue(s[i]) >= 0
    ensures Decode(s, acc).ok ==> Decode(s, acc) == Decode(s[6..], acc + s[1..6])
  {
    hide Decode;
    EscapeTaken(s, acc);
    CharTaken(s[2..], acc + [s[1]]);
    CharTaken(s[3..], acc + [s[1]] + [s[2]]);
    CharTaken(s[4..], acc + [s[1]] + [s[2]] + [s[3]]);
    CharTaken(s[5..], acc + [s[1]] + [s[2]] + [s[3]] + [s[4]]);
    assert acc + [s[1]] + [s[2]] + [s[3]] + [s[4]] + [s[5]] == acc + s[1..6];
    assert s[2..][1..] == s[3..] && s[3..][1..] == s[4..] && s[4..][1..] == s[5..] && s[5..][1..] == s[6..];
  }

  lemma EscapeTaken(s: string, acc: string)
    requires |s| >= 2 && s[0] == '\\'
    ensures Decode(s, acc).ok ==> Decode(s, acc) == Decode(s[2..], acc + [Unescape(s[1])])
  {
  }

  lemma CharTaken(s: string, acc: string)
    requires s != "" && s[0] != '\"' && s[0] != '\\'
    ensures Decode(s, acc).ok ==> Decode(s, acc) == Decode(s[1..], acc + [s[0]])
  {
  }

  /** Once the reader has something else, or more, in its buffer, it never has the string again. */
  lemma {:induction false} Strays(s: string, acc: string, other: string, t: string, rest: string)
    requires R.Chars(s, acc) == R.Got(t, rest)
    requires |other| > |acc| || (|other| == |acc| && other != acc)
    ensures Decode(s, other).ok ==> Decode(s, other).text != t
    decreases |s|
  {
    if s[0] == '\"' {
    } else if s[0] != '\\' {
      CharTaken(s, other);
      StillDiffers(acc, other, s[0], s[0]);
      Strays(s[1..], acc + [s[0]], other + [s[0]], t, rest);
    } else if s[1] == 'u' {
      CodeTaken(s, other);
      Strays(s[6..], acc + [CodeAt(s)], other + s[1..6], t, rest);
    } else {
      EscapeTaken(s, other);
      StillDiffers(acc, other, R.Named(s[1])[0], Unescape(s[1]));
      Strays(s[2..], acc + R.Named(s[1]), other + [Unescape(s[1])], t, rest);
    }
  }

  function CodeAt(s: string): char
    requires |s| >= 6 && forall i :: 2 <= i < 6 ==> R.HexValue(s[i]) >= 0
  {
    R.CodeChar(R.HexValue(s[2]) * 4096 + R.HexValue(s[3]) * 256 + R.HexValue(s[4]) * 16 + R.HexValue(s[5]))
  }

  lemma StillDiffers(a: string, b: string, c: char, d: char)
    requires |b| > |a| || (|b| == |a| && b != a)
    ensures |b + [d]| > |a + [c]| || (|b + [d]| == |a + [c]| && b + [d] != a + [c])
  {
    if |b| == |a| {
      assert (a + [c])[..|a|] == a && (b + [d])[..|b|] == b;
    }
  }

  // ----- white space -----

  lemma {:induction false} SameSpace(s: string)
    ensures R.Space(s) == SkipSpace(s)
  {
    if s != "" {
      SameSpace(s[1..]);
    }
  }

  lemma {:induction false} SpaceOnce(s: string)
    ensures SkipSpace(SkipSpace(s)) == SkipSpace(s)
  {
    if s != "" && IsSpace(s[0]) {
      SpaceOnce(s[1..]);
    }
  }

  lemma LexSkips(s: string)
    ensures Lex(R.Space(s)) == Lex(s)
  {
    SameSpace(s);
    SpaceOnce(s);
  }

  lemma StreamOf(s: string)
    ensures var l := Lex(s);
            Stream(s) == if l.token.Eof? then End else if |l.rest| == |s| then Stuck else Cons(l.token, Stream(l.rest))
  {
    hide Lex;
  }

  /** There is a token, which the reader gets past. */
  predicate Moves(s: string) {
    !Lex(s).token.Eof? && |Lex(s).rest| < |s|
  }

  /** A text that begins with another one's tokens has the same ones. */
  lemma SameStart(a: string, b: string)
    requires Lex(a) == Lex(b) && |b| <= |a| && Moves(b)
    ensures Stream(a) == Stream(b) && Moves(a)
  {
    StreamOf(a);
    StreamOf(b);
    hide Lex;
  }

  // ----- numbers -----

  /** What comes after a value: the end of the text, or one of three characters. */
  predicate Follows(rest: string) {
    var r := R.Space(rest);
    r == "" || r[0] == ',' || r[0] == ']' || r[0] == '}'
  }

  lemma {:induction false} DigitsCounted(s: string)
    ensures AfterDigits(s) == s[R.DigitCount(s)..]
    ensures forall i :: 0 <= i < R.DigitCount(s) ==> IsDigit(s[i])
    ensures R.DigitCount(s) < |s| ==> !IsDigit(s[R.DigitCount(s)])
  {
    if s != "" && IsDigit(s[0]) {
      DigitsCounted(s[1..]);
      assert s[1..][R.DigitCount(s[1..])..] == s[R.DigitCount(s)..];
    }
  }

  /** Where a number of the standard is followed by what may follow a value, the reader takes the
      same characters for it. */
  lemma NumberAgrees(s: string, t: string, rest: string)
    requires R.Numeral(s) == R.Got(t, rest) && Follows(rest)
    ensures s != "" && (s[0] == '-' || IsDigit(s[0])) && AfterNumber(s) == rest && t == s[..|s| - |rest|]
  {
    hide R.IntLength, R.FractionLength, R.ExponentLength, AfterDigits, AfterFraction, AfterExponent, Follows;
    var sign := if R.Begins(s, '-') then 1 else 0;
    var a := s[sign..];
    var i := R.IntLength(a);
    var b := a[i..];
    var f := R.FractionLength(b);
    var c := b[f..];
    var e := R.ExponentLength(c);
    assert s[sign + i..] == b;
    assert s[sign + i + f..] == c;
    assert s[sign + i + f + e..] == c[e..] == rest;
    assert AfterSign(s) == a;
    WholeAgrees(a, b, c, rest);
    FractionAgrees(b);
    ExponentAgrees(c);
  }

  lemma FractionAgrees(b: string)
    requires R.FractionLength(b) >= 0
    ensures AfterFraction(b) == b[R.FractionLength(b)..]
  {
    if R.Begins(b, '.') {
      DigitsCounted(b[1..]);
    }
  }

  lemma ExponentAgrees(c: string)
    requires R.ExponentLength(c) >= 0
    ensures AfterExponent(c) == c[R.ExponentLength(c)..]
  {
    if R.Begins(c, 'e') || R.Begins(c, 'E') {
      var sign := if R.Begins(c[1..], '+') || R.Begins(c[1..], '-') then 1 else 0;
      assert AfterExponentSign(c[1..]) == c[1 + sign..];
      DigitsCounted(c[1 + sign..]);
    }
  }

  /** After a leading zero there is no other digit. */
  lemma WholeAgrees(a: string, b: string, c: string, rest: string)
    requires R.IntLength(a) > 0 && b == a[R.IntLength(a)..] && R.FractionLength(b) >= 0 && c == b[R.FractionLength(b)..]
    requires R.ExponentLength(c) >= 0 && rest == c[R.ExponentLength(c)..] && Follows(rest)
    ensures IsDigit(a[0]) && AfterDigits(a) == b
  {
    DigitsCounted(a);
    assert b == a[R.IntLength(a)..];
    assert b != "" && IsDigit(b[0]) ==> c == b && rest == b && R.Space(b) == b;
  }

  // ----- a text without rare escapes -----

  /** No string of the text, from outside of one on, has such an escape. */
  predicate Plain(s: string) {
    s == "" || if s[0] == '\"' then PlainInside(s[1..]) else Plain(s[1..])
  }

  predicate PlainInside(s: string) {
    s == ""
    || if s[0] == '\"' then Plain(s[1..])
       else if s[0] == '\\' && |s| >= 2 then !Rare(s[1]) && PlainInside(s[2..])
       else PlainInside(s[1..])
  }

  lemma {:induction false} PlainParts(s: string, acc: string, t: string, rest: string)
    requires R.Chars(s, acc) == R.Got(t, rest)
    ensures PlainInside(s) <==> PlainString(s) && Plain(rest)
    decreases |s|
  {
    if s[0] == '\"' || (s[0] == '\\' && s[1] == 'u') {
    } else if s[0] == '\\' {
      PlainParts(s[2..], acc + R.Named(s[1]), t, rest);
    } else {
      PlainParts(s[1..], acc + [s[0]], t, rest);
    }
  }

  /** What the reader makes of such a string never contains one. */
  lemma {:induction false} DecodesNoNul(s: string, acc: string, t: string, rest: string, other: string)
    requires R.Chars(s, acc) == R.Got(t, rest) && '\0' !in other
    ensures Decode(s, other).ok ==> '\0' !in Decode(s, other).text
    decreases |s|
  {
    if s[0] == '\"' {
    } else if s[0] != '\\' {
      CharTaken(s, other);
      DecodesNoNul(s[1..], acc + [s[0]], t, rest, other + [s[0]]);
    } else if s[1] == 'u' {
      CodeTaken(s, other);
      DecodesNoNul(s[6..], acc + [CodeAt(s)], t, rest, other + s[1..6]);
    } else {
      EscapeTaken(s, other);
      DecodesNoNul(s[2..], acc + R.Named(s[1]), t, rest, other + [Unescape(s[1])]);
    }
  }

  lemma {:induction false} NothingCut(t: string)
    requires '\0' !in t
    ensures CutNul(t) == t
  {
    if t != "" {
      NothingCut(t[1..]);
    }
  }

  lemma {:induction false} PlainAfter(s: string, k: nat)
    requires k <= |s| && '\"' !in s[..k]
    ensures Plain(s[k..]) == Plain(s)
  {
    if k > 0 {
      assert s[..k][0] == s[0] && s[..k][1..] == s[1..][..k - 1];
      PlainAfter(s[1..], k - 1);
      assert s[1..][k - 1..] == s[k..];
    } else {
      assert s[0..] == s;
    }
  }

  lemma {:induction false} PlainSpace(s: string)
    ensures Plain(R.Space(s)) == Plain(s)
  {
    if s != "" && IsSpace(s[0]) {
      PlainSpace(s[1..]);
    }
  }

  lemma {:induction false} PlainDigits(s: string)
    ensures Plain(AfterDigits(s)) == Plain(s)
  {
    if s != "" && IsDigit(s[0]) {
      PlainDigits(s[1..]);
    }
  }

  lemma PlainNumber(s: string)
    ensures Plain(AfterNumber(s)) == Plain(s)
  {
    var a := AfterSign(s);
    var b := AfterDigits(a);
    var c := AfterFraction(b);
    PlainDigits(a);
    if b != c {
      PlainDigits(b[1..]);
    }
    if AfterExponent(c) != c {
      PlainDigits(AfterExponentSign(c[1..]));
    }
  }

  // ----- the tokens of a value -----

  /** Every string fits the reader's buffer. */
  predicate Fits(v: R.Json) {
    match v
    case Object(fs) => FieldsFit(fs)
    case Array(es) => ElementsFit(es)
    case Text(t) => |t| <= 254
    case _ => true
  }

  predicate FieldsFit(fs: R.Fields) {
    match fs
    case NoFields => true
    case Field(name, v, rest) => |name| <= 254 && Fits(v) && FieldsFit(rest)
  }

  predicate ElementsFit(es: R.Elements) {
    match es
    case NoElements => true
    case Element(v, rest) => Fits(v) && ElementsFit(rest)
  }

  /** The tokens of a value, put before the tokens `k`. */
  function TokensOf(v: R.Json, k: Tokens): Tokens {
    match v
    case Object(fs) => Cons(ObjectStart, FieldTokens(fs, Cons(ObjectEnd, k)))
    case Array(es) => Cons(ArrayStart, ElementTokens(es, Cons(ArrayEnd, k)))
    case Text(t) => Cons(Text(t), k)
    case Number(t) => Cons(Number(Truncate(t, 63)), k)
    case True => Cons(Bool(true), k)
    case False => Cons(Bool(false), k)
    case Null => Cons(Null, k)
  }

  function FieldTokens(fs: R.Fields, k: Tokens): Tokens {
    match fs
    case NoFields => k
    case Field(name, v, rest) => Cons(Key(name), TokensOf(v, FieldTokens(rest, k)))
  }

  function ElementTokens(es: R.Elements, k: Tokens): Tokens {
    match es
    case NoElements => k
    case Element(v, rest) => TokensOf(v, ElementTokens(rest, k))
  }

  lemma {:induction false} SameTail(v: R.Json, a: Tokens, b: Tokens)
    ensures TokensOf(v, a) == TokensOf(v, b) ==> a == b
  {
    match v
    case Object(fs) => SameFieldTail(fs, Cons(ObjectEnd, a), Cons(ObjectEnd, b));
    case Array(es) => SameElementTail(es, Cons(ArrayEnd, a), Cons(ArrayEnd, b));
    case _ =>
  }

  lemma {:induction false} SameFieldTail(fs: R.Fields, a: Tokens, b: Tokens)
    ensures FieldTokens(fs, a) == FieldTokens(fs, b) ==> a == b
  {
    if fs.Field? {
      SameTail(fs.value, FieldTokens(fs.rest, a), FieldTokens(fs.rest, b));
      SameFieldTail(fs.rest, a, b);
    }
  }

  lemma {:induction false} SameElementTail(es: R.Elements, a: Tokens, b: Tokens)
    ensures ElementTokens(es, a) == ElementTokens(es, b) ==> a == b
  {
    if es.Element? {
      SameTail(es.value, ElementTokens(es.rest, a), ElementTokens(es.rest, b));
      SameElementTail(es.rest, a, b);
    }
  }

  // ----- scalars -----

  /** Before what may follow a value, white space does not matter. */
  lemma SpaceBefore(rest: string)
    requires Follows(rest)
    ensures Stream(R.Space(rest)) == Stream(rest)
  {
    var r := R.Space(rest);
    LexSkips(rest);
    StreamOf(rest);
    StreamOf(r);
    SpaceShrinks(rest);
    LexFollowing(r);
    hide Lex;
  }

  lemma {:induction false} SpaceShrinks(s: string)
    ensures |R.Space(s)| <= |s|
  {
  }

  lemma LexFollowing(r: string)
    requires r != "" ==> r[0] == ',' || r[0] == ']' || r[0] == '}'
    ensures if r == "" then Lex(r) == Lexeme(Eof, "") else |Lex(r).rest| < |r|
  {
  }

  /** A string that is read as such: the text it stands for, and behind it. */
  lemma StringToken(s: string, t: string, rest: string) returns (ok: bool)
    requires R.Begins(s, '\"') && R.Chars(s[1..], "") == R.Got(t, rest)
    ensures Moves(s)
    ensures ok ==>
              && |t| <= MAX_STRING - 2 && Plain(s) == Plain(rest)
              && Lex(s) == if R.Begins(R.Space(rest), ':') then Lexeme(Key(t), R.Space(rest)) else Lexeme(Text(t), R.Space(rest))
    ensures !ok ==>
              && !(|t| <= MAX_STRING - 2 && Plain(s))
              && Lex(s).token != Key(t) && Lex(s).token != Text(t)
  {
    var x := s[1..];
    PlainParts(x, "", t, rest);
    StringAgreesExactly(x, t, rest);
    DecodesNoNul(x, "", t, rest, "");
    if Decode(x, "").ok {
      NothingCut(Decode(x, "").text);
    }
    SameSpace(rest);
    ok := PlainString(x) && |t| <= MAX_STRING - 2;
    hide Decode, CutNul, PlainString;
  }

  lemma WordToken(s: string, w: string, rest: string)
    requires w in {"true", "false", "null"} && w <= s && rest == s[|w|..]
    ensures Lex(s) == Lexeme(if w == "true" then Bool(true) else if w == "false" then Bool(false) else Null, rest)
    ensures Plain(rest) == Plain(s)
  {
    assert '\"' !in s[..|w|];
    PlainAfter(s, |w|);
    hide Plain;
  }

  lemma NumberToken(s: string, t: string, rest: string)
    requires R.Numeral(s) == R.Got(t, rest) && Follows(rest)
    ensures Lex(s) == Lexeme(Number(Truncate(t, NUMBER_SCRATCH - 1)), rest)
    ensures Plain(rest) == Plain(s)
  {
    hide R.Numeral, AfterNumber, Plain;
    NumberAgrees(s, t, rest);
    PlainNumber(s);
    LexNumberFirst(s);
  }

  lemma LexNumberFirst(s: string)
    requires s != "" && (s[0] == '-' || IsDigit(s[0]))
    ensures Lex(s) == LexNumber(s)
  {
    hide LexNumber;
  }

  /** A scalar of the standard gives its token, unless it is a string the reader cannot read. */
  lemma ScalarTokens(s: string, v: R.Json, rest: string) returns (ok: bool)
    requires s != "" && R.Scalar(s) == R.Got(v, rest) && Follows(rest)
    ensures Moves(s) && Read(s, v, rest, ok)
  {
    hide Lex, Decode, Plain, AfterNumber, R.Numeral, R.Chars, Follows;
    StreamOf(s);
    ok := true;
    if s[0] == '\"' {
      ok := StringToken(s, v.s, rest);
      SpaceBefore(rest);
      NoColon(rest);
    } else if s[0] == 't' {
      WordToken(s, "true", rest);
    } else if s[0] == 'f' {
      WordToken(s, "false", rest);
    } else if s[0] == 'n' {
      WordToken(s, "null", rest);
    } else {
      NumberToken(s, v.text, rest);
    }
  }

  /** How the reader fares with a value: either it has the value's tokens and goes on behind it, and
      then the value fits and adds no rare escape; or it has other tokens, and then it does not. */
  ghost predicate Read(s: string, v: R.Json, rest: string, ok: bool) {
    if ok then Stream(s) == TokensOf(v, Stream(rest)) && Fits(v) && Plain(s) == Plain(rest)
    else !(Fits(v) && Plain(s)) && forall k :: Stream(s) != TokensOf(v, k)
  }

  ghost predicate ReadFields(s: string, fs: R.Fields, rest: string, ok: bool) {
    if ok then Stream(s) == FieldTokens(fs, Cons(ObjectEnd, Stream(rest))) && FieldsFit(fs) && Plain(s) == Plain(rest)
    else !(FieldsFit(fs) && Plain(s)) && forall k :: Stream(s) != FieldTokens(fs, k)
  }

  ghost predicate ReadElements(s: string, es: R.Elements, rest: string, ok: bool) {
    if ok then Stream(s) == ElementTokens(es, Cons(ArrayEnd, Stream(rest))) && ElementsFit(es) && Plain(s) == Plain(rest)
    else !(ElementsFit(es) && Plain(s)) && forall k :: Stream(s) != ElementTokens(es, k)
  }

  lemma NoColon(rest: string)
    requires Follows(rest)
    ensures !R.Begins(R.Space(rest), ':') && |R.Space(rest)| <= |rest|
  {
  }

  // ----- objects and arrays -----

  lemma Bracket(s: string, c: char, t: Token)
    requires R.Begins(R.Space(s), c)
    requires (c == '{' && t == ObjectStart) || (c == '}' && t == ObjectEnd) || (c == '[' && t == ArrayStart) || (c == ']' && t == ArrayEnd)
    ensures Stream(s) == Cons(t, Stream(R.Space(s)[1..])) && Moves(s)
    ensures Plain(s) == Plain(R.Space(s)[1..])
  {
    LexSkips(s);
    SameSpace(s);
    SpaceOnce(s);
    StreamOf(s);
    SpaceShrinks(s);
    PlainSpace(s);
    hide Stream, SkipSpace;
  }

  /** A comma or a colon before a token is skipped. */
  lemma Separator(s: string, c: char)
    requires R.Begins(R.Space(s), c) && (c == ',' || c == ':') && Moves(R.Space(s)[1..])
    ensures Stream(s) == Stream(R.Space(s)[1..])
    ensures Plain(s) == Plain(R.Space(s)[1..])
  {
    hide Stream, Moves;
    LexSeparator(s, c);
    SpaceShrinks(s);
    SameStart(s, R.Space(s)[1..]);
  }

  lemma LexSeparator(s: string, c: char)
    requires R.Begins(R.Space(s), c) && (c == ',' || c == ':')
    ensures Lex(s) == Lex(R.Space(s)[1..]) && Plain(s) == Plain(R.Space(s)[1..])
  {
    LexSkips(s);
    SameSpace(s);
    SpaceOnce(s);
    PlainSpace(s);
    hide LexString, LexWord;
  }

  lemma {:induction false} ValueTokens(text: string, v: R.Json, rest: string) returns (ok: bool)
    requires R.Value(text) == R.Got(v, rest) && Follows(rest)
    ensures Moves(text) && Read(text, v, rest, ok)
    decreases |text|, 0
  {
    hide Lex, Stream, Plain, Moves, Follows, R.FieldsOf, R.ElementsOf, R.Scalar;
    var s := R.Space(text);
    SpaceShrinks(text);
    if s[0] == '{' {
      Bracket(text, '{', ObjectStart);
      if R.Begins(R.Space(s[1..]), '}') {
        Bracket(s[1..], '}', ObjectEnd);
        ok := true;
        assert v.fields == R.NoFields;
        ObjectRead(text, s[1..], v, rest, ok);
      } else {
        ok := FieldsTokens(s[1..], v.fields, rest);
        ObjectRead(text, s[1..], v, rest, ok);
      }
    } else if s[0] == '[' {
      Bracket(text, '[', ArrayStart);
      if R.Begins(R.Space(s[1..]), ']') {
        Bracket(s[1..], ']', ArrayEnd);
        ok := true;
        ArrayRead(text, s[1..], v, rest, ok);
      } else {
        ok := ElementsTokens(s[1..], v.elements, rest);
        ArrayRead(text, s[1..], v, rest, ok);
      }
    } else {
      ok := ScalarTokens(s, v, rest);
      LexSkips(text);
      SameStart(text, s);
      PlainSpace(text);
      assert Read(text, v, rest, ok);
    }
  }

  lemma ObjectRead(text: string, inner: string, v: R.Json, rest: string, ok: bool)
    requires v.Object? && Stream(text) == Cons(ObjectStart, Stream(inner)) && Plain(text) == Plain(inner)
    requires ReadFields(inner, v.fields, rest, ok)
    ensures Read(text, v, rest, ok)
  {
    hide Stream, Plain;
    assert !ok ==> forall k :: Stream(inner) != FieldTokens(v.fields, Cons(ObjectEnd, k));
  }

  lemma ArrayRead(text: string, inner: string, v: R.Json, rest: string, ok: bool)
    requires v.Array? && Stream(text) == Cons(ArrayStart, Stream(inner)) && Plain(text) == Plain(inner)
    requires ReadElements(inner, v.elements, rest, ok)
    ensures Read(text, v, rest, ok)
  {
    hide Stream, Plain;
    assert !ok ==> forall k :: Stream(inner) != ElementTokens(v.elements, Cons(ArrayEnd, k));
  }

  /** What text with fields consists of: a name, a value, and what comes after it. */
  lemma FieldParts(text: string, fs: R.Fields, rest: string)
    requires R.FieldsOf(text) == R.Got(fs, rest)
    ensures var s := R.Space(text);
            R.Begins(s, '\"') &&
            var n := R.Chars(s[1..], "");
            n.Got? && R.Begins(R.Space(n.rest), ':') && |R.Space(n.rest)| < |text| &&
            var w := R.Value(R.Space(n.rest)[1..]);
            w.Got? && Follows(w.rest) && fs.Field? && fs.name == n.value && fs.value == w.value && ComesAfter(w.rest, fs, rest)
  {
    SpaceShrinks(text);
    var n := R.Chars(R.Space(text)[1..], "");
    SpaceShrinks(n.rest);
    var w := R.Value(R.Space(n.rest)[1..]);
    SpaceShrinks(w.rest);
  }

  /** The brace, or a comma and more fields. */
  predicate ComesAfter(afterValue: string, fs: R.Fields, rest: string) {
    var y := R.Space(afterValue);
    && fs.Field? && |y| <= |afterValue|
    && if R.Begins(y, '}') then fs.rest.NoFields? && rest == y[1..]
       else R.Begins(y, ',') && R.FieldsOf(y[1..]) == R.Got(fs.rest, rest)
  }

  lemma NameToken(text: string, name: string, afterName: string) returns (ok: bool)
    requires R.Begins(R.Space(text), '\"') && R.Chars(R.Space(text)[1..], "") == R.Got(name, afterName)
    requires R.Begins(R.Space(afterName), ':')
    ensures Moves(text)
    ensures if ok then |name| <= MAX_STRING - 2 && Plain(text) == Plain(afterName)
                       && Stream(text) == Cons(Key(name), Stream(R.Space(afterName)))
            else !(|name| <= MAX_STRING - 2 && Plain(text)) && Stream(text).Cons? && Stream(text).head != Key(name)
  {
    var s := R.Space(text);
    ok := StringToken(s, name, afterName);
    LexSkips(text);
    StreamOf(text);
    PlainSpace(text);
    SpaceShrinks(text);
    hide Lex, Stream, Plain, R.Chars;
  }

  lemma {:induction false} FieldsTokens(text: string, fs: R.Fields, rest: string) returns (ok: bool)
    requires R.FieldsOf(text) == R.Got(fs, rest)
    ensures Moves(text) && ReadFields(text, fs, rest, ok)
    decreases |text|, 0
  {
    hide Lex, Stream, Plain, Moves, Follows, R.FieldsOf, R.Value, R.Chars, R.Space, Read;
    FieldParts(text, fs, rest);
    var Got(name, afterName) := R.Chars(R.Space(text)[1..], "");
    var x := R.Space(afterName)[1..];
    var Got(v, afterValue) := R.Value(x);
    hide ComesAfter;
    ok := NameToken(text, name, afterName);
    if ok {
      ok := ValueTokens(x, v, afterValue);
      AfterColon(afterName, x);
      var more := MoreFields(afterValue, fs, rest);
      hide ReadFields;
      FieldRead(text, fs, x, afterValue, rest, ok, more);
      ok := ok && more;
    }
  }

  lemma AfterColon(afterName: string, x: string)
    requires R.Begins(R.Space(afterName), ':') && x == R.Space(afterName)[1..] && Moves(x)
    ensures Stream(R.Space(afterName)) == Stream(x) && Plain(afterName) == Plain(x)
  {
    hide Stream, Moves, Plain, Lex;
    SameSpace(afterName);
    SameSpace(R.Space(afterName));
    SpaceOnce(afterName);
    PlainSpace(afterName);
    Separator(R.Space(afterName), ':');
  }

  lemma {:induction false} MoreFields(afterValue: string, fs: R.Fields, rest: string) returns (ok: bool)
    requires ComesAfter(afterValue, fs, rest)
    ensures ReadFields(afterValue, fs.rest, rest, ok)
    decreases |afterValue|, 1
  {
    hide Lex, Stream, Plain, Moves, R.FieldsOf, R.Space;
    var y := R.Space(afterValue);
    if R.Begins(y, '}') {
      Bracket(afterValue, '}', ObjectEnd);
      ok := true;
    } else {
      ok := FieldsTokens(y[1..], fs.rest, rest);
      Separator(afterValue, ',');
    }
  }

  /** A name, a value and more fields, put together. */
  lemma FieldRead(text: string, fs: R.Fields, x: string, afterValue: string, rest: string, ok: bool, more: bool)
    requires fs.Field? && |fs.name| <= MAX_STRING - 2 && Stream(text) == Cons(Key(fs.name), Stream(x)) && Plain(text) == Plain(x)
    requires Read(x, fs.value, afterValue, ok) && ReadFields(afterValue, fs.rest, rest, more)
    ensures ReadFields(text, fs, rest, ok && more)
  {
    hide Stream, Plain;
    if !(ok && more) {
      forall k
        ensures Stream(text) != FieldTokens(fs, k)
      {
        var tail := FieldTokens(fs.rest, k);
        assert !ok ==> Stream(x) != TokensOf(fs.value, tail);
        SameTail(fs.value, Stream(afterValue), tail);
      }
    }
  }

  lemma {:induction false} ElementsTokens(text: string, es: R.Elements, rest: string) returns (ok: bool)
    requires R.ElementsOf(text) == R.Got(es, rest)
    ensures Moves(text) && ReadElements(text, es, rest, ok)
    decreases |text|, 1
  {
    hide Lex, Stream, Plain, Moves, Follows, R.ElementsOf, R.Value, R.Space, Read;
    ElementParts(text, es, rest);
    var Got(v, afterValue) := R.Value(text);
    hide FollowedBy;
    ok := ValueTokens(text, v, afterValue);
    var more := MoreElements(afterValue, es, rest);
    hide ReadElements;
    ElementRead(text, es, afterValue, rest, ok, more);
    ok := ok && more;
  }

  lemma ElementParts(text: string, es: R.Elements, rest: string)
    requires R.ElementsOf(text) == R.Got(es, rest)
    ensures var w := R.Value(text);
            w.Got? && Follows(w.rest) && es.Element? && es.value == w.value && FollowedBy(w.rest, es, rest)
  {
    hide R.Value;
    SpaceShrinks(R.Value(text).rest);
  }

  /** The bracket, or a comma and more elements. */
  predicate FollowedBy(afterValue: string, es: R.Elements, rest: string) {
    var y := R.Space(afterValue);
    && es.Element? && |y| <= |afterValue|
    && if R.Begins(y, ']') then es.rest.NoElements? && rest == y[1..]
       else R.Begins(y, ',') && R.ElementsOf(y[1..]) == R.Got(es.rest, rest)
  }

  lemma {:induction false} MoreElements(afterValue: string, es: R.Elements, rest: string) returns (ok: bool)
    requires FollowedBy(afterValue, es, rest)
    ensures ReadElements(afterValue, es.rest, rest, ok)
    decreases |afterValue|, 2
  {
    hide Lex, Stream, Plain, Moves, R.ElementsOf, R.Space;
    var y := R.Space(afterValue);
    if R.Begins(y, ']') {
      Bracket(afterValue, ']', ArrayEnd);
      ok := true;
    } else {
      ok := ElementsTokens(y[1..], es.rest, rest);
      Separator(afterValue, ',');
    }
  }

  lemma ElementRead(text: string, es: R.Elements, afterValue: string, rest: string, ok: bool, more: bool)
    requires es.Element? && Read(text, es.value, afterValue, ok) && ReadElements(afterValue, es.rest, rest, more)
    ensures ReadElements(text, es, rest, ok && more)
  {
    hide Stream, Plain;
    if !(ok && more) {
      forall k
        ensures Stream(text) != ElementTokens(es, k)
      {
        var tail := ElementTokens(es.rest, k);
        assert !ok ==> Stream(text) != TokensOf(es.value, tail);
        SameTail(es.value, Stream(afterValue), tail);
      }
    }
  }

  // ----- whole texts -----

  lemma {:induction false} NoErrors(v: R.Json, k: Tokens)
    ensures ErrorFree(TokensOf(v, k)) <==> ErrorFree(k)
  {
    match v
    case Object(fs) => NoFieldErrors(fs, Cons(ObjectEnd, k));
    case Array(es) => NoElementErrors(es, Cons(ArrayEnd, k));
    case _ =>
  }

  lemma {:induction false} NoFieldErrors(fs: R.Fields, k: Tokens)
    ensures ErrorFree(FieldTokens(fs, k)) <==> ErrorFree(k)
  {
    if fs.Field? {
      NoErrors(fs.value, FieldTokens(fs.rest, k));
      NoFieldErrors(fs.rest, k);
    }
  }

  lemma {:induction false} NoElementErrors(es: R.Elements, k: Tokens)
    ensures ErrorFree(ElementTokens(es, k)) <==> ErrorFree(k)
  {
    if es.Element? {
      NoErrors(es.value, ElementTokens(es.rest, k));
      NoElementErrors(es.rest, k);
    }
  }

  /** Every text that is JSON by the standard, however it is spaced and whatever it holds, gives
      exactly the tokens of its value if and only if its strings fit the reader's buffer and use none
      of the escapes the reader does not know; then it is read without an error. */
  lemma ReadsJsonExactly(text: string, v: R.Json)
    requires R.Document(text) == R.Got(v, "")
    ensures Stream(text) == TokensOf(v, End) <==> Fits(v) && Plain(text)
    ensures Fits(v) && Plain(text) ==> Clean(text)
  {
    hide R.Value, Stream, Lex;
    var Got(_, rest) := R.Value(text);
    var _ := ValueTokens(text, v, rest);
    LexSkips(rest);
    LexFollowing("");
    StreamOf(rest);
    PlainSpace(rest);
    NoErrors(v, End);
  }
}
