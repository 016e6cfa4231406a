/** Reading back what the printer prints: strings, single tokens, token streams, skipping. */
module JsonRoundTrip {
  import opened JsonValue
  import opened JsonLexer

  // ----- regrouping concatenations -----

  lemma Regroup3(a: string, b: string, c: string)
    ensures (a + b) + c == a + (b + c)
  {
  }

  lemma Regroup4(a: string, b: string, c: string, d: string)
    ensures a + b + c + d == a + (b + (c + d))
  {
  }

  lemma RegroupBrackets(lead: string, open: string, body: string, close: string, post: string)
    ensures lead + (open + body + close) + post == lead + (open + (body + (close + post)))
  {
  }

  lemma RegroupMember(a: string, b: string, c: string, v: string, r: string, post: string)
    ensures (a + b + c + v + r) + post == a + b + c + (v + (r + post))
  {
  }

  // ----- strings -----

  /** What the reader makes of one printed character: it undoes \" \\ \n \r \t only, and keeps
      the letter (and digits) of every other escape. */
  function SeenChar(c: char): string {
    if c == '\U{0008}' then "b"
    else if c == '\U{000C}' then "f"
    else if IsControl(c) && c != '\n' && c != '\r' && c != '\t' then EscapeChar(c)[1..]
    else [c]
  }

  function Seen(s: string): (r: string)
    ensures |r| >= |s|
  {
    if s == "" then "" else SeenChar(s[0]) + Seen(s[1..])
  }

  /** The reader's string buffer holds the decoded string together with its terminator. */
  predicate Short(s: string) {
    |Seen(s)| <= MAX_STRING - 2
  }

  /** Characters the reader restores: all but the control characters besides \n, \r and \t. */
  predicate Restored(c: char) {
    !IsControl(c) || c == '\n' || c == '\r' || c == '\t'
  }

  predicate Lossless(s: string) {
    forall i :: 0 <= i < |s| ==> Restored(s[i])
  }

  lemma {:induction false} SeenIsIdentity(s: string)
    ensures Seen(s) == s <==> Lossless(s)
  {
    if s != "" {
      SeenIsIdentity(s[1..]);
      assert s == [s[0]] + s[1..];
      if Restored(s[0]) {
        assert SeenChar(s[0]) == [s[0]];
        assert Seen(s)[1..] == Seen(s[1..]);
        assert Lossless(s) <==> Lossless(s[1..]) by {
          if Lossless(s) {
            assert forall i :: 0 <= i < |s[1..]| ==> s[1..][i] == s[i + 1];
          }
        }
      } else {
        assert Seen(s)[0] == SeenChar(s[0])[0] != s[0];
      }
    }
  }

  lemma {:induction false} SeenHasNoNul(s: string)
    ensures CutNul(Seen(s)) == Seen(s)
  {
    if s != "" {
      SeenHasNoNul(s[1..]);
      var c := SeenChar(s[0]);
      if |c| == 1 {
        assert Seen(s)[1..] == Seen(s[1..]);
      } else {
        assert c == "u00" + c[3..] && |c| == 5;
        CutNulPrefix(c, Seen(s[1..]));
      }
    }
  }

  lemma {:induction false} CutNulPrefix(p: string, s: string)
    requires forall i :: 0 <= i < |p| ==> p[i] != '\0'
    ensures CutNul(p + s) == p + CutNul(s)
  {
    if p == "" {
      assert p + s == s;
    } else {
      CutNulPrefix(p[1..], s);
      assert (p + s)[1..] == p[1..] + s;
    }
  }

  /** Decoding one printed character while the buffer has room for all of it. */
  lemma DecodeChar(c: char, x: string, acc: string)
    requires |acc| + |SeenChar(c)| <= MAX_STRING - 1
    ensures Decode(EscapeChar(c) + x, acc) == Decode(x, acc + SeenChar(c))
  {
    hide Decode;
    var e := EscapeChar(c);
    DecodeStep(e + x, acc);
    if |e| == 6 {
      assert (e + x)[2..] == e[2..] + x;
      DecodePlain(e[2..], x, acc + "u");
      assert acc + SeenChar(c) == acc + "u" + e[2..];
    } else if |e| == 2 {
      assert (e + x)[2..] == x;
    } else {
      assert (e + x)[1..] == x;
    }
  }

  lemma DecodeStep(s: string, acc: string)
    requires s != "" && s[0] != '\"' && |acc| < MAX_STRING - 1
    ensures Decode(s, acc) == if s[0] == '\\' && |s| >= 2 then Decode(s[2..], acc + [Unescape(s[1])])
                              else Decode(s[1..], acc + [s[0]])
  {
  }

  lemma {:induction false} DecodePlain(p: string, x: string, acc: string)
    requires |acc| + |p| <= MAX_STRING - 1
    requires forall i :: 0 <= i < |p| ==> p[i] != '\"' && p[i] != '\\'
    ensures Decode(p + x, acc) == Decode(x, acc + p)
  {
    if p == "" {
      assert p + x == x && acc + p == acc;
    } else {
      assert (p + x)[1..] == p[1..] + x;
      DecodePlain(p[1..], x, acc + [p[0]]);
      assert acc + [p[0]] + p[1..] == acc + p;
    }
  }

  lemma {:induction false} DecodeEscaped(s: string, x: string, acc: string)
    requires |acc| + |Seen(s)| <= MAX_STRING - 1
    ensures Decode(Escape(s) + x, acc) == Decode(x, acc + Seen(s))
  {
    if s == "" {
      assert Escape(s) + x == x && acc + Seen(s) == acc;
    } else {
      Regroup3(EscapeChar(s[0]), Escape(s[1..]), x);
      DecodeChar(s[0], Escape(s[1..]) + x, acc);
      DecodeEscaped(s[1..], x, acc + SeenChar(s[0]));
      Regroup3(acc, SeenChar(s[0]), Seen(s[1..]));
    }
  }

  /** Once the buffer is full, decoding has failed. */
  lemma {:induction false} DecodeTooLong(s: string, x: string, acc: string)
    requires |acc| + |Seen(s)| >= MAX_STRING - 1
    ensures !Decode(Escape(s) + x, acc).ok
  {
    if |acc| >= MAX_STRING - 1 {
    } else {
      var e, tail := EscapeChar(s[0]), Escape(s[1..]) + x;
      Regroup3(e, Escape(s[1..]), x);
      if |acc| + |SeenChar(s[0])| <= MAX_STRING - 1 {
        DecodeChar(s[0], tail, acc);
        DecodeTooLong(s[1..], x, acc + SeenChar(s[0]));
      } else {
        assert |e| == 6 && (e + tail)[2..] == e[2..] + tail;
        DecodeOverrun(e[2..], tail, acc + "u");
      }
    }
  }

  lemma {:induction false} DecodeOverrun(p: string, x: string, acc: string)
    requires |acc| + |p| >= MAX_STRING - 1
    requires forall i :: 0 <= i < |p| ==> p[i] != '\"' && p[i] != '\\'
    ensures !Decode(p + x, acc).ok
  {
    if |acc| < MAX_STRING - 1 {
      assert (p + x)[1..] == p[1..] + x;
      DecodeOverrun(p[1..], x, acc + [p[0]]);
    }
  }

  /** Decoding a printed string gives back exactly the lossless strings of at most 254 bytes. */
  lemma EscapeInversion(s: CString, post: string)
    ensures var d := Decode(Escape(s) + "\"" + post, "");
            && (d.ok <==> Short(s))
            && (d.ok ==> d.text == Seen(s) && d.rest == post)
            && (d.ok && d.text == s <==> Lossless(s) && |s| <= MAX_STRING - 2)
  {
    assert Escape(s) + "\"" + post == Escape(s) + ("\"" + post);
    SeenIsIdentity(s);
    if Short(s) {
      DecodeEscaped(s, "\"" + post, "");
      assert "" + Seen(s) == Seen(s);
      assert ("\"" + post)[1..] == post;
    } else {
      DecodeTooLong(s, "\"" + post, "");
    }
  }

  // ----- single tokens -----

  /** What may stand before a token that is not its own: a comma or colon, or nothing. */
  predicate IsLead(lead: string) {
    lead == "" || lead == "," || lead == ":"
  }

  /** What may follow a value in the printer's output. */
  predicate Ends(post: string) {
    post == "" || post[0] == ',' || post[0] == '}' || post[0] == ']'
  }

  lemma LexLead(lead: string, x: string)
    requires IsLead(lead)
    ensures Lex(lead + x) == Lex(x)
  {
    if lead == "" {
      assert lead + x == x;
    } else {
      var s := lead + x;
      assert SkipSpace(s) == s && s[1..] == x;
    }
  }

  lemma LexBracket(c: char, x: string)
    requires c == '{' || c == '}' || c == '[' || c == ']'
    ensures Lex([c] + x) == Lexeme(if c == '{' then ObjectStart else if c == '}' then ObjectEnd
                                   else if c == '[' then ArrayStart else ArrayEnd, x)
  {
    var s := [c] + x;
    assert SkipSpace(s) == s && s[1..] == x;
  }

  /** A printed string of any length: the token it gives, or a string error. */
  lemma LexQuote(s: string, post: string)
    requires post == "" || !IsSpace(post[0])
    ensures Short(s) ==>
              Lex(Quote(s) + post) == Lexeme(if post != "" && post[0] == ':' then Key(Seen(s)) else Text(Seen(s)), post)
    ensures !Short(s) ==> Lex(Quote(s) + post).token.BadString?
  {
    var body := Escape(s) + ("\"" + post);
    var text := Quote(s) + post;
    assert text == "\"" + body;
    assert SkipSpace(text) == text && text[1..] == body;
    assert Lex(text) == LexString(body);
    if Short(s) {
      DecodeEscaped(s, "\"" + post, "");
      assert "" + Seen(s) == Seen(s);
      assert ("\"" + post)[1..] == post;
      assert Decode(body, "") == Decoded(true, Seen(s), post);
      SeenHasNoNul(s);
      assert SkipSpace(post) == post;
    } else {
      DecodeTooLong(s, "\"" + post, "");
    }
  }

  predicate AllDigits(s: string) {
    forall i :: 0 <= i < |s| ==> IsDigit(s[i])
  }

  lemma {:induction false} NatTextDigits(n: nat)
    ensures NatText(n) != "" && AllDigits(NatText(n))
  {
    if n >= 10 {
      NatTextDigits(n / 10);
    }
  }

  lemma {:induction false} AfterDigitsOf(d: string, post: string)
    requires AllDigits(d) && (post == "" || !IsDigit(post[0]))
    ensures AfterDigits(d + post) == post
  {
    if d == "" {
      assert d + post == post;
    } else {
      assert (d + post)[1..] == d[1..] + post;
      assert IsDigit(d[0]);
      AfterDigitsOf(d[1..], post);
    }
  }

  lemma LexNumberParts(sign: string, whole: string, fraction: string, post: string)
    requires sign == "" || sign == "-"
    requires whole != "" && AllDigits(whole)
    requires fraction == "" || (fraction[0] == '.' && AllDigits(fraction[1..]))
    requires Ends(post)
    ensures var text := sign + whole + fraction;
            Lex(text + post) == Lexeme(Number(Truncate(text, NUMBER_SCRATCH - 1)), post)
  {
    var text := sign + whole + fraction;
    var s := text + post;
    assert IsDigit(whole[0]);
    Regroup4(sign, whole, fraction, post);
    assert AfterSign(s) == whole + (fraction + post);
    AfterDigitsOf(whole, fraction + post);
    AfterFractionOf(fraction, post);
    assert AfterNumber(s) == post;
    assert s[..|s| - |post|] == text;
    LexNumeral(s);
  }

  lemma LexNumeral(s: string)
    requires s != "" && (s[0] == '-' || IsDigit(s[0]))
    ensures Lex(s) == LexNumber(s)
  {
    hide LexNumber, LexString, LexLiteral;
    assert SkipSpace(s) == s;
  }

  lemma AfterFractionOf(fraction: string, post: string)
    requires fraction == "" || (fraction[0] == '.' && AllDigits(fraction[1..]))
    requires Ends(post)
    ensures AfterExponent(AfterFraction(fraction + post)) == post
  {
    if fraction == "" {
      assert fraction + post == post;
    } else {
      assert (fraction + post)[1..] == fraction[1..] + post;
      AfterDigitsOf(fraction[1..], post);
    }
  }

  // ----- trees -----

  /** The text of a scalar as one token. */
  function ScalarToken(t: Tree): Token
    requires !t.Obj? && !t.Arr?
  {
    match t
    case Str(s) => Text(Seen(s))
    case Int(n) => Number(Truncate(IntText(n), NUMBER_SCRATCH - 1))
    case Dec(minus, h) => Number(Truncate(DecText(minus, h), NUMBER_SCRATCH - 1))
    case NonFinite(_) => Error
    case Boolean(b) => Bool(b)
  }

  /** Strings fit the reader's buffer, and every number is finite. */
  predicate Readable(t: Tree) {
    match t
    case Obj(ms) => ReadableMembers(ms)
    case Arr(es) => ReadableItems(es)
    case Str(s) => Short(s)
    case NonFinite(_) => false
    case _ => true
  }

  predicate ReadableMembers(ms: Members) {
    match ms
    case NoMembers => true
    case Member(k, v, rest) => Short(k) && Readable(v) && ReadableMembers(rest)
  }

  predicate ReadableItems(es: Items) {
    match es
    case NoItems => true
    case Item(v, rest) => Readable(v) && ReadableItems(rest)
  }

  lemma LexScalar(t: Tree, lead: string, post: string)
    requires !t.Obj? && !t.Arr? && Readable(t) && IsLead(lead) && Ends(post)
    ensures Lex(lead + Print(t) + post) == Lexeme(ScalarToken(t), post)
  {
    Regroup3(lead, Print(t), post);
    LexLead(lead, Print(t) + post);
    match t
    case Str(s) =>
      LexQuote(s, post);
    case Int(n) =>
      LexInt(n, post);
    case Dec(minus, h) =>
      LexDec(minus, h, post);
    case Boolean(b) =>
      LexBool(b, post);
  }

  lemma LexInt(n: int, post: string)
    requires Ends(post)
    ensures Lex(IntText(n) + post) == Lexeme(Number(Truncate(IntText(n), NUMBER_SCRATCH - 1)), post)
  {
    NatTextDigits(if n < 0 then -n else n);
    var sign, whole := if n < 0 then "-" else "", NatText(if n < 0 then -n else n);
    assert IntText(n) == sign + whole + "";
    LexNumberParts(sign, whole, "", post);
  }

  lemma LexDec(minus: bool, h: nat, post: string)
    requires Ends(post)
    ensures Lex(DecText(minus, h) + post) == Lexeme(Number(Truncate(DecText(minus, h), NUMBER_SCRATCH - 1)), post)
  {
    NatTextDigits(h / 100);
    var cents := [DigitChar(h / 10 % 10), DigitChar(h % 10)];
    var sign, fraction := if minus then "-" else "", "." + cents;
    assert fraction[1..] == cents;
    Regroup3(sign + NatText(h / 100), ".", cents);
    LexNumberParts(sign, NatText(h / 100), fraction, post);
  }

  lemma LexBool(b: bool, post: string)
    ensures Lex((if b then "true" else "false") + post) == Lexeme(Bool(b), post)
  {
    var word := if b then "true" else "false";
    var s := word + post;
    assert word <= s && s[|word|..] == post;
    assert Lex(s) == LexWord(s);
  }

  lemma LexKey(k: string, lead: string, post: string)
    requires Short(k) && IsLead(lead)
    ensures Lex(lead + Quote(k) + ":" + post) == Lexeme(Key(Seen(k)), ":" + post)
  {
    assert lead + Quote(k) + ":" + post == lead + (Quote(k) + (":" + post));
    LexLead(lead, Quote(k) + (":" + post));
    LexQuote(k, ":" + post);
  }

  // ----- token streams -----

  /** The tokens of a tree, put before the tokens `k`. */
  function TokensOf(t: Tree, k: Tokens): Tokens {
    match t
    case Obj(ms) => Cons(ObjectStart, MemberTokens(ms, Cons(ObjectEnd, k)))
    case Arr(es) => Cons(ArrayStart, ItemTokens(es, Cons(ArrayEnd, k)))
    case _ => Cons(ScalarToken(t), k)
  }

  function MemberTokens(ms: Members, k: Tokens): Tokens {
    match ms
    case NoMembers => k
    case Member(key, v, rest) => Cons(Key(Seen(key)), TokensOf(v, MemberTokens(rest, k)))
  }

  function ItemTokens(es: Items, k: Tokens): Tokens {
    match es
    case NoItems => k
    case Item(v, rest) => TokensOf(v, ItemTokens(rest, k))
  }

  lemma StreamStep(s: string, t: Token, rest: string)
    requires Lex(s) == Lexeme(t, rest) && !t.IsError() && !t.Eof?
    ensures Stream(s) == Cons(t, Stream(rest))
  {
  }

  lemma StreamBracket(lead: string, c: char, x: string)
    requires IsLead(lead)
    requires c == '{' || c == '}' || c == '[' || c == ']'
    ensures Stream(lead + ([c] + x)) ==
            Cons(if c == '{' then ObjectStart else if c == '}' then ObjectEnd
                 else if c == '[' then ArrayStart else ArrayEnd, Stream(x))
  {
    LexLead(lead, [c] + x);
    LexBracket(c, x);
  }

  /** The tokenizer turns the printed tree into the tree's tokens and goes on after it. */
  lemma {:induction false} StreamTree(t: Tree, lead: string, post: string)
    requires Readable(t) && IsLead(lead) && Ends(post)
    ensures Stream(lead + Print(t) + post) == TokensOf(t, Stream(post))
  {
    match t
    case Obj(ms) =>
      RegroupBrackets(lead, "{", PrintMembers(ms, false), "}", post);
      StreamBracket(lead, '{', PrintMembers(ms, false) + ("}" + post));
      StreamMembers(ms, false, "}" + post);
      StreamBracket("", '}', post);
      assert "" + ("}" + post) == "}" + post;
    case Arr(es) =>
      RegroupBrackets(lead, "[", PrintItems(es, false), "]", post);
      StreamBracket(lead, '[', PrintItems(es, false) + ("]" + post));
      StreamItems(es, false, "]" + post);
      StreamBracket("", ']', post);
      assert "" + ("]" + post) == "]" + post;
    case NonFinite(_) =>
    case _ =>
      LexScalar(t, lead, post);
      StreamStep(lead + Print(t) + post, ScalarToken(t), post);
  }

  lemma {:induction false} StreamMembers(ms: Members, comma: bool, post: string)
    requires ReadableMembers(ms) && post != "" && Ends(post)
    ensures Stream(PrintMembers(ms, comma) + post) == MemberTokens(ms, Stream(post))
  {
    match ms
    case NoMembers =>
      assert PrintMembers(ms, comma) + post == post;
    case Member(k, v, rest) =>
      var after := PrintMembers(rest, true) + post;
      RegroupMember(Lead(comma), Quote(k), ":", Print(v), PrintMembers(rest, true), post);
      LexKey(k, Lead(comma), Print(v) + after);
      StreamStep(PrintMembers(ms, comma) + post, Key(Seen(k)), ":" + (Print(v) + after));
      Regroup3(":", Print(v), after);
      EndsAfter(rest, post);
      StreamTree(v, ":", after);
      StreamMembers(rest, true, post);
  }

  lemma EndsAfter(ms: Members, post: string)
    requires Ends(post)
    ensures Ends(PrintMembers(ms, true) + post)
  {
    if ms.NoMembers? {
      assert PrintMembers(ms, true) + post == post;
    }
  }

  lemma {:induction false} StreamItems(es: Items, comma: bool, post: string)
    requires ReadableItems(es) && post != "" && Ends(post)
    ensures Stream(PrintItems(es, comma) + post) == ItemTokens(es, Stream(post))
  {
    match es
    case NoItems =>
      assert PrintItems(es, comma) + post == post;
    case Item(v, rest) =>
      var after := PrintItems(rest, true) + post;
      Regroup3(Lead(comma) + Print(v), PrintItems(rest, true), post);
      StreamTree(v, Lead(comma), after);
      StreamItems(rest, true, post);
  }

  /** A whole document reads back as its tokens, and only those. */
  lemma TokenRoundTrip(t: Tree)
    requires Readable(t)
    ensures Stream(Print(t)) == TokensOf(t, End)
  {
    StreamTree(t, "", "");
    assert "" + Print(t) + "" == Print(t);
  }

  // ----- which documents read back at all -----

  lemma {:induction false} ErrorFreeTree(t: Tree, k: Tokens)
    requires Readable(t)
    ensures ErrorFree(TokensOf(t, k)) <==> ErrorFree(k)
  {
    match t
    case Obj(ms) => ErrorFreeMembers(ms, Cons(ObjectEnd, k));
    case Arr(es) => ErrorFreeItems(es, Cons(ArrayEnd, k));
    case _ =>
  }

  lemma {:induction false} ErrorFreeMembers(ms: Members, k: Tokens)
    requires ReadableMembers(ms)
    ensures ErrorFree(MemberTokens(ms, k)) <==> ErrorFree(k)
  {
    match ms
    case NoMembers =>
    case Member(key, v, rest) =>
      ErrorFreeTree(v, MemberTokens(rest, k));
      ErrorFreeMembers(rest, k);
  }

  lemma {:induction false} ErrorFreeItems(es: Items, k: Tokens)
    requires ReadableItems(es)
    ensures ErrorFree(ItemTokens(es, k)) <==> ErrorFree(k)
  {
    match es
    case NoItems =>
    case Item(v, rest) =>
      ErrorFreeTree(v, ItemTokens(rest, k));
      ErrorFreeItems(rest, k);
  }

  lemma {:induction false} UnreadableTree(t: Tree, lead: string, post: string)
    requires !Readable(t) && IsLead(lead) && Ends(post)
    ensures !Clean(lead + Print(t) + post)
  {
    match t
    case Obj(ms) =>
      RegroupBrackets(lead, "{", PrintMembers(ms, false), "}", post);
      StreamBracket(lead, '{', PrintMembers(ms, false) + ("}" + post));
      UnreadableMembers(ms, false, "}" + post);
    case Arr(es) =>
      RegroupBrackets(lead, "[", PrintItems(es, false), "]", post);
      StreamBracket(lead, '[', PrintItems(es, false) + ("]" + post));
      UnreadableItems(es, false, "]" + post);
    case Str(s) =>
      Regroup3(lead, Quote(s), post);
      LexLead(lead, Quote(s) + post);
      LexQuote(s, post);
    case NonFinite(infinite) =>
      Regroup3(lead, Print(t), post);
      LexLead(lead, Print(t) + post);
      LexNonFinite(infinite, post);
  }

  /** "nan" and "inf" are errors the tokenizer does not move past. */
  lemma LexNonFinite(infinite: bool, post: string)
    ensures var text := Print(NonFinite(infinite)) + post;
            Lex(text) == Lexeme(Error, text)
  {
    var text := Print(NonFinite(infinite)) + post;
    assert SkipSpace(text) == text;
    assert text[1] != 'u';
  }

  lemma {:induction false} UnreadableMembers(ms: Members, comma: bool, post: string)
    requires !ReadableMembers(ms) && post != "" && Ends(post)
    ensures !Clean(PrintMembers(ms, comma) + post)
  {
    match ms
    case Member(k, v, rest) =>
      var after := PrintMembers(rest, true) + post;
      RegroupMember(Lead(comma), Quote(k), ":", Print(v), PrintMembers(rest, true), post);
      if !Short(k) {
        Regroup4(Lead(comma), Quote(k), ":", Print(v) + after);
        LexLead(Lead(comma), Quote(k) + (":" + (Print(v) + after)));
        LexQuote(k, ":" + (Print(v) + after));
      } else {
        LexKey(k, Lead(comma), Print(v) + after);
        StreamStep(PrintMembers(ms, comma) + post, Key(Seen(k)), ":" + (Print(v) + after));
        Regroup3(":", Print(v), after);
        EndsAfter(rest, post);
        if !Readable(v) {
          UnreadableTree(v, ":", after);
        } else {
          StreamTree(v, ":", after);
          ErrorFreeTree(v, Stream(after));
          UnreadableMembers(rest, true, post);
        }
      }
  }

  lemma {:induction false} UnreadableItems(es: Items, comma: bool, post: string)
    requires !ReadableItems(es) && post != "" && Ends(post)
    ensures !Clean(PrintItems(es, comma) + post)
  {
    match es
    case Item(v, rest) =>
      var after := PrintItems(rest, true) + post;
      Regroup3(Lead(comma) + Print(v), PrintItems(rest, true), post);
      if !Readable(v) {
        UnreadableTree(v, Lead(comma), after);
      } else {
        StreamTree(v, Lead(comma), after);
        ErrorFreeTree(v, Stream(after));
        UnreadableItems(rest, true, post);
      }
  }

  /** A printed document reads to its end without an error exactly when its strings are short
      and its numbers finite. */
  lemma CleanExactly(t: Tree)
    ensures Clean(Print(t)) <==> Readable(t)
  {
    assert "" + Print(t) + "" == Print(t);
    if Readable(t) {
      TokenRoundTrip(t);
      ErrorFreeTree(t, End);
    } else {
      UnreadableTree(t, "", "");
    }
  }

  // ----- nesting depth and skipping -----

  /** The reader run to the end of the text. */
  function ReadAll(st: State): (r: State)
    decreases |st.rest|
  {
    var st := Next(st);
    if st.kind.KEof? || st.kind.KError? then st else ReadAll(st)
  }

  function Nesting(ts: Tokens): int {
    match ts
    case End => 0
    case Stuck => 0
    case Cons(t, rest) => DepthChange(t) + Nesting(rest)
  }

  lemma {:induction false} NestingTree(t: Tree, k: Tokens)
    ensures Nesting(TokensOf(t, k)) == Nesting(k)
  {
    match t
    case Obj(ms) => NestingMembers(ms, Cons(ObjectEnd, k));
    case Arr(es) => NestingItems(es, Cons(ArrayEnd, k));
    case _ =>
  }

  lemma {:induction false} NestingMembers(ms: Members, k: Tokens)
    ensures Nesting(MemberTokens(ms, k)) == Nesting(k)
  {
    match ms
    case NoMembers =>
    case Member(key, v, rest) =>
      NestingTree(v, MemberTokens(rest, k));
      NestingMembers(rest, k);
  }

  lemma {:induction false} NestingItems(es: Items, k: Tokens)
    ensures Nesting(ItemTokens(es, k)) == Nesting(k)
  {
    match es
    case NoItems =>
    case Item(v, rest) =>
      NestingTree(v, ItemTokens(rest, k));
      NestingItems(rest, k);
  }

  lemma {:induction false} ReadAllStream(st: State)
    requires Clean(st.rest)
    ensures ReadAll(st).kind.KEof? && ReadAll(st).rest == ""
    ensures ReadAll(st).depth == st.depth + Nesting(Stream(st.rest))
    decreases |st.rest|
  {
    var l := Lex(st.rest);
    assert Stream(st.rest) == if l.token.Eof? then End
                              else if |l.rest| == |st.rest| then Stuck
                              else Cons(l.token, Stream(l.rest));
    if !l.token.Eof? {
      ReadAllStream(Next(st));
    }
  }

  /** Reading a printed document ends at the end of the text, back at depth zero. */
  lemma DepthReturnsToZero(t: Tree)
    requires Readable(t)
    ensures var st := ReadAll(Init(Print(t)));
            st.kind.KEof? && st.rest == "" && st.depth == 0
  {
    CleanExactly(t);
    TokenRoundTrip(t);
    NestingTree(t, End);
    ReadAllStream(Init(Print(t)));
  }

  lemma NextClosing(st: State, c: char, post: string)
    requires (c == '}' || c == ']') && st.rest == [c] + post
    ensures var n := Next(st);
            && n.rest == post && n.depth == st.depth - 1
            && n.kind == if c == '}' then KObjectEnd else KArrayEnd
  {
    LexBracket(c, post);
  }

  /** Skipping passes over a whole value it starts in front of, and back to the same depth. */
  lemma {:induction false} SkipTree(st: State, t: Tree, lead: string, post: string, start: int)
    returns (st': State)
    requires Readable(t) && IsLead(lead) && Ends(post)
    requires st.rest == lead + Print(t) + post && st.depth >= start
    ensures SkipTo(st, start) == SkipTo(st', start)
    ensures st'.rest == post && st'.depth == st.depth
    decreases t, 1
  {
    st' := Next(st);
    SkipToStep(st, st', start);
    if t.Obj? || t.Arr? {
      st' := SkipInside(st, st', t, lead, post, start);
      var last := st';
      st' := Next(last);
      SkipToStep(last, st', start);
      NextClosing(last, if t.Obj? then '}' else ']', post);
    } else {
      LexScalar(t, lead, post);
    }
  }

  /** From the opening token of a container to just before its closing one. */
  lemma {:induction false} SkipInside(st0: State, st: State, t: Tree, lead: string, post: string, start: int)
    returns (st': State)
    requires (t.Obj? || t.Arr?) && Readable(t) && IsLead(lead) && Ends(post)
    requires st0.rest == lead + Print(t) + post && st == Next(st0) && st0.depth + 1 >= start
    ensures st.depth == st0.depth + 1 == st'.depth
    ensures st.kind == if t.Obj? then KObjectStart else KArrayStart
    ensures SkipTo(st, start) == SkipTo(st', start)
    ensures st'.rest == (if t.Obj? then "}" else "]") + post
    decreases t, 0
  {
    match t
    case Obj(ms) =>
      RegroupBrackets(lead, "{", PrintMembers(ms, false), "}", post);
      LexLead(lead, "{" + (PrintMembers(ms, false) + ("}" + post)));
      LexBracket('{', PrintMembers(ms, false) + ("}" + post));
      st' := SkipMembers(st, ms, false, "}" + post, start);
    case Arr(es) =>
      RegroupBrackets(lead, "[", PrintItems(es, false), "]", post);
      LexLead(lead, "[" + (PrintItems(es, false) + ("]" + post)));
      LexBracket('[', PrintItems(es, false) + ("]" + post));
      st' := SkipItems(st, es, false, "]" + post, start);
  }

  lemma {:induction false} SkipMembers(st: State, ms: Members, comma: bool, post: string, start: int)
    returns (st': State)
    requires ReadableMembers(ms) && post != "" && Ends(post)
    requires st.rest == PrintMembers(ms, comma) + post && st.depth >= start
    ensures SkipTo(st, start) == SkipTo(st', start)
    ensures st'.rest == post && st'.depth == st.depth
    decreases ms, 0
  {
    match ms
    case NoMembers =>
      assert PrintMembers(ms, comma) + post == post;
      st' := st;
    case Member(k, v, rest) =>
      var after := PrintMembers(rest, true) + post;
      RegroupMember(Lead(comma), Quote(k), ":", Print(v), PrintMembers(rest, true), post);
      LexKey(k, Lead(comma), Print(v) + after);
      st' := Next(st);
      SkipToStep(st, st', start);
      Regroup3(":", Print(v), after);
      EndsAfter(rest, post);
      st' := SkipTree(st', v, ":", after, start);
      st' := SkipMembers(st', rest, true, post, start);
  }

  lemma {:induction false} SkipItems(st: State, es: Items, comma: bool, post: string, start: int)
    returns (st': State)
    requires ReadableItems(es) && post != "" && Ends(post)
    requires st.rest == PrintItems(es, comma) + post && st.depth >= start
    ensures SkipTo(st, start) == SkipTo(st', start)
    ensures st'.rest == post && st'.depth == st.depth
    decreases es, 0
  {
    match es
    case NoItems =>
      assert PrintItems(es, comma) + post == post;
      st' := st;
    case Item(v, rest) =>
      var after := PrintItems(rest, true) + post;
      Regroup3(Lead(comma) + Print(v), PrintItems(rest, true), post);
      st' := SkipTree(st, v, Lead(comma), after, start);
      st' := SkipItems(st', rest, true, post, start);
  }

  /** Called on the first token of any printed value, whatever brackets its strings hold, the
      skip stops exactly behind the value with the depth from before it. */
  lemma SkipExact(st: State, t: Tree, lead: string, post: string)
    requires Readable(t) && IsLead(lead) && Ends(post)
    requires st.rest == lead + Print(t) + post
    ensures var r := Skip(Next(st)); r.ok && r.st.rest == post && r.st.depth == st.depth
  {
    hide Lex, Readable, Print;
    var first := Next(st);
    if t.Obj? || t.Arr? {
      var last := SkipInside(st, first, t, lead, post, first.depth);
      NextClosing(last, if t.Obj? then '}' else ']', post);
      hide Next;
      SkipToStep(last, Next(last), first.depth);
    } else {
      SkipScalar(st, t, lead, post);
    }
  }

  lemma SkipScalar(st: State, t: Tree, lead: string, post: string)
    requires Readable(t) && !t.Obj? && !t.Arr? && IsLead(lead) && Ends(post)
    requires st.rest == lead + Print(t) + post
    ensures var r := Skip(Next(st)); r.ok && r.st.rest == post && r.st.depth == st.depth
  {
    hide Lex, Print, Seen, SkipTo;
    LexScalar(t, lead, post);
  }
}
