/** What the hand-written tokenizer does, as functions of the text still unread. */
module JsonLexer {
  /** Size of the reader's string buffer, terminator included. */
  const MAX_STRING: nat := 256
  /** Size of its key buffer, terminator included. */
  const MAX_KEY: nat := 64
  /** Size of the scratch buffer a number is copied to, terminator included. */
  const NUMBER_SCRATCH: nat := 64

  /** A token with its payload. `BadString` keeps the partial contents left in the buffer. */
  datatype Token =
    | ObjectStart
    | ObjectEnd
    | ArrayStart
    | ArrayEnd
    | Key(key: string)
    | Text(text: string)
    | Number(digits: string)
    | Bool(b: bool)
    | Null
    | Eof
    | Error
    | BadString(partial: string)
  {
    predicate IsError() { Error? || BadString? }
  }

  // ----- white space, C strings -----

  predicate IsSpace(c: char) {
    c == ' ' || c == '\t' || c == '\n' || c == '\r'
  }

  function SkipSpace(s: string): (r: string)
    ensures |r| <= |s|
    ensures r != "" ==> !IsSpace(r[0])
  {
    if s != "" && IsSpace(s[0]) then SkipSpace(s[1..]) else s
  }

  /** The contents of a buffer read as a C string. */
  function CutNul(s: string): (r: string)
    ensures |r| <= |s|
  {
    if s == "" || s[0] == '\0' then "" else [s[0]] + CutNul(s[1..])
  }

  function Truncate(s: string, n: nat): string {
    if |s| <= n then s else s[..n]
  }

  // ----- strings -----

  datatype Decoded = Decoded(ok: bool, text: string, rest: string)

  function Unescape(c: char): char {
    if c == 'n' then '\n' else if c == 'r' then '\r' else if c == 't' then '\t' else c
  }

  /** Decodes after the opening quote; `acc` is what the buffer holds already. */
  function Decode(s: string, acc: string): (d: Decoded)
    ensures |d.rest| <= |s|
    ensures d.ok ==> |d.rest| < |s|
    ensures |acc| < MAX_STRING ==> |d.text| < MAX_STRING
    ensures |acc| < MAX_STRING - 1 && s != "" ==> |d.rest| < |s|
    decreases |s|
  {
    if s == "" || |acc| >= MAX_STRING - 1 then Decoded(false, acc, s)
    else if s[0] == '\"' then Decoded(true, acc, s[1..])
    else if s[0] == '\\' && |s| >= 2 then Decode(s[2..], acc + [Unescape(s[1])])
    else Decode(s[1..], acc + [s[0]])
  }

  // ----- numbers -----

  predicate IsDigit(c: char) {
    '0' <= c <= '9'
  }

  function AfterSign(s: string): (r: string)
    ensures |r| <= |s|
  {
    if s != "" && s[0] == '-' then s[1..] else s
  }

  function AfterDigits(s: string): (r: string)
    ensures |r| <= |s|
    ensures s != "" && IsDigit(s[0]) ==> |r| < |s|
  {
    if s != "" && IsDigit(s[0]) then AfterDigits(s[1..]) else s
  }

  function AfterFraction(s: string): (r: string)
    ensures |r| <= |s|
  {
    if s != "" && s[0] == '.' then AfterDigits(s[1..]) else s
  }

  function AfterExponentSign(s: string): (r: string)
    ensures |r| <= |s|
  {
    if s != "" && (s[0] == '+' || s[0] == '-') then s[1..] else s
  }

  function AfterExponent(s: string): (r: string)
    ensures |r| <= |s|
  {
    if s != "" && (s[0] == 'e' || s[0] == 'E') then AfterDigits(AfterExponentSign(s[1..])) else s
  }

  /** What follows the number that starts `s`. */
  function AfterNumber(s: string): (r: string)
    ensures |r| <= |s|
    ensures s != "" && (s[0] == '-' || IsDigit(s[0])) ==> |r| < |s|
  {
    AfterExponent(AfterFraction(AfterDigits(AfterSign(s))))
  }

  // ----- tokens -----

  datatype Lexeme = Lexeme(token: Token, rest: string)

  /** The token at the start of a string body, and whether it is a key. */
  function LexString(s: string): (l: Lexeme)
    ensures |l.rest| <= |s|
    ensures s != "" ==> |l.rest| < |s|
  {
    var d := Decode(s, "");
    if !d.ok then Lexeme(BadString(CutNul(d.text)), d.rest)
    else
      var rest := SkipSpace(d.rest);
      if rest != "" && rest[0] == ':' then Lexeme(Key(CutNul(d.text)), rest)
      else Lexeme(Text(CutNul(d.text)), rest)
  }

  function LexNumber(s: string): (l: Lexeme)
    ensures |l.rest| <= |s|
    ensures l.token.Number? ==> |l.rest| < |s|
  {
    var rest := AfterNumber(s);
    if |rest| < |s| then Lexeme(Number(Truncate(s[..|s| - |rest|], NUMBER_SCRATCH - 1)), rest)
    else Lexeme(Error, s)
  }

  function LexLiteral(s: string, word: string, t: Token): (l: Lexeme)
    requires word != "" && !t.IsError() && !t.Eof?
    ensures |l.rest| <= |s|
    ensures !l.token.IsError() && !l.token.Eof? ==> |l.rest| < |s|
  {
    if word <= s then Lexeme(t, s[|word|..]) else Lexeme(Error, s)
  }

  /** A literal, a number, or an error that leaves the text where it is. */
  function LexWord(s: string): (l: Lexeme)
    requires s != ""
    ensures |l.rest| <= |s|
    ensures !l.token.IsError() ==> !l.token.Eof? && |l.rest| < |s|
  {
    if s[0] == 't' then LexLiteral(s, "true", Bool(true))
    else if s[0] == 'f' then LexLiteral(s, "false", Bool(false))
    else if s[0] == 'n' then LexLiteral(s, "null", Null)
    else if s[0] == '-' || IsDigit(s[0]) then LexNumber(s)
    else Lexeme(Error, s)
  }

  /** One call of the tokenizer on unread text `s`. */
  function Lex(s: string): (l: Lexeme)
    ensures |l.rest| <= |s|
    ensures !l.token.IsError() && !l.token.Eof? ==> |l.rest| < |s|
    ensures l.token.Eof? ==> l.rest == ""
    decreases |s|
  {
    var t := SkipSpace(s);
    if t == "" then Lexeme(Eof, t)
    else if t[0] == '{' then Lexeme(ObjectStart, t[1..])
    else if t[0] == '}' then Lexeme(ObjectEnd, t[1..])
    else if t[0] == '[' then Lexeme(ArrayStart, t[1..])
    else if t[0] == ']' then Lexeme(ArrayEnd, t[1..])
    else if t[0] == ',' || t[0] == ':' then Lex(t[1..])
    else if t[0] == '\"' then LexString(t[1..])
    else LexWord(t)
  }

  // ----- the reader's state -----

  /** The token type the reader remembers; both error tokens have the same one. */
  datatype Kind =
    | KNone | KObjectStart | KObjectEnd | KArrayStart | KArrayEnd | KKey
    | KString | KNumber | KBool | KNull | KEof | KError

  function KindOf(t: Token): Kind {
    match t
    case ObjectStart => KObjectStart
    case ObjectEnd => KObjectEnd
    case ArrayStart => KArrayStart
    case ArrayEnd => KArrayEnd
    case Key(_) => KKey
    case Text(_) => KString
    case Number(_) => KNumber
    case Bool(_) => KBool
    case Null => KNull
    case Eof => KEof
    case Error => KError
    case BadString(_) => KError
  }

  /** The number is kept as the text the reader converts, see module JsonNumber. */
  datatype State = State(
    rest: string,
    kind: Kind,
    key: string,
    str: string,
    num: string,
    boolean: bool,
    depth: int)

  function Init(data: string): State {
    State(data, KNone, "", "", "", false, 0)
  }

  /** Buffers and counters after a token: what the token does not set keeps its old value. */
  function Apply(st: State, l: Lexeme): State {
    State(
      l.rest,
      KindOf(l.token),
      if l.token.Key? then Truncate(l.token.key, MAX_KEY - 1) else st.key,
      StringAfter(st.str, l.token),
      if l.token.Number? then l.token.digits else st.num,
      if l.token.Bool? then l.token.b else st.boolean,
      st.depth + DepthChange(l.token))
  }

  function StringAfter(str: string, t: Token): string {
    match t
    case Key(k) => k
    case Text(s) => s
    case BadString(s) => s
    case _ => str
  }

  function DepthChange(t: Token): int {
    if t.ObjectStart? || t.ArrayStart? then 1
    else if t.ObjectEnd? || t.ArrayEnd? then -1
    else 0
  }

  function Next(st: State): State {
    Apply(st, Lex(st.rest))
  }

  datatype Skipped = Skipped(ok: bool, st: State)

  /** Reads on until the depth falls below `start`, or the text ends or is in error. */
  function SkipTo(st: State, start: int): (r: Skipped)
    ensures |r.st.rest| <= |st.rest|
    decreases |st.rest|
  {
    var st := Next(st);
    if st.kind.KEof? || st.kind.KError? then Skipped(false, st)
    else if st.depth < start then Skipped(true, st)
    else SkipTo(st, start)
  }

  lemma SkipToStep(st: State, st': State, start: int)
    requires st' == Next(st)
    ensures st'.kind.KEof? || st'.kind.KError? ==> SkipTo(st, start) == Skipped(false, st')
    ensures !st'.kind.KEof? && !st'.kind.KError? ==>
              && |st'.rest| < |st.rest|
              && SkipTo(st, start) == if st'.depth < start then Skipped(true, st') else SkipTo(st', start)
  {
  }

  /** Skips the value whose first token has just been read. */
  function Skip(st: State): (r: Skipped)
    ensures |r.st.rest| <= |st.rest|
  {
    match st.kind
    case KObjectStart => SkipTo(st, st.depth)
    case KArrayStart => SkipTo(st, st.depth)
    case KString => Skipped(true, st)
    case KNumber => Skipped(true, st)
    case KBool => Skipped(true, st)
    case KNull => Skipped(true, st)
    case _ => Skipped(false, st)
  }

  // ----- token streams -----

  datatype Tokens = End | Stuck | Cons(head: Token, tail: Tokens)

  /** Every token up to the end of the text, or up to where the tokenizer no longer moves. */
  function Stream(s: string): Tokens
    decreases |s|
  {
    var l := Lex(s);
    if l.token.Eof? then End
    else if |l.rest| == |s| then Stuck
    else Cons(l.token, Stream(l.rest))
  }

  predicate Finishes(ts: Tokens) {
    match ts
    case End => true
    case Stuck => false
    case Cons(_, rest) => Finishes(rest)
  }

  predicate ErrorFree(ts: Tokens) {
    match ts
    case End => true
    case Stuck => false
    case Cons(t, rest) => !t.IsError() && ErrorFree(rest)
  }

  /** Called again and again, the tokenizer comes to the end of the text. */
  predicate Reaches(s: string) {
    Finishes(Stream(s))
  }

  /** It does so without an error on the way. */
  predicate Clean(s: string): (clean: bool)
    ensures clean ==> Reaches(s)
  {
    ErrorFreeFinishes(Stream(s));
    ErrorFree(Stream(s))
  }

  lemma ErrorFreeFinishes(ts: Tokens)
    ensures ErrorFree(ts) ==> Finishes(ts)
  {
  }
}
