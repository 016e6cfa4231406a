/** The tokenizer as it runs: a cursor over the text and fixed buffers for keys and strings. */
module JsonReader {
  import opened JsonLexer

  lemma {:induction false} CutNulAt(s: string, n: nat)
    requires n < |s| && s[n] == '\0'
    ensures CutNul(s) == CutNul(s[..n])
  {
    if n > 0 && s[0] != '\0' {
      CutNulAt(s[1..], n - 1);
      assert s[..n][1..] == s[1..][..n - 1];
    }
  }

  /** One call of the tokenizer, by the first character after white space. */
  lemma NextCases(st: State, t: State)
    requires t == st.(rest := SkipSpace(st.rest))
    ensures t.rest == "" ==> Next(st) == t.(kind := KEof)
    ensures t.rest != "" ==>
              Next(st) == match t.rest[0]
                          case '{' => Apply(t, Lexeme(ObjectStart, t.rest[1..]))
                          case '}' => Apply(t, Lexeme(ObjectEnd, t.rest[1..]))
                          case '[' => Apply(t, Lexeme(ArrayStart, t.rest[1..]))
                          case ']' => Apply(t, Lexeme(ArrayEnd, t.rest[1..]))
                          case ',' => Next(t.(rest := t.rest[1..]))
                          case ':' => Next(t.(rest := t.rest[1..]))
                          case '\"' => Apply(t.(rest := t.rest[1..]), LexString(t.rest[1..]))
                          case _ => Apply(t, LexWord(t.rest))
  {
  }

  class Reader {
    const data: string
    const strBuf: array<char>

    var pos: nat
    var kind: Kind
    var key: string
    var num: string
    var boolean: bool
    var depth: int

    ghost predicate Valid()
      reads this
    {
      pos <= |data| && strBuf.Length == MAX_STRING
    }

    /** The unread text, the remembered token and the buffers. */
    ghost function View(): State
      reads this, strBuf
      requires Valid()
    {
      State(data[pos..], kind, key, CutNul(strBuf[..]), num, boolean, depth)
    }

    constructor (data: string)
      ensures Valid() && View() == Init(data) && this.data == data
      ensures fresh(this.strBuf)
    {
      this.data := data;
      strBuf := new char[MAX_STRING](_ => '\0');
      pos, kind, key, num, boolean, depth := 0, KNone, "", "", false, 0;
      new;
      assert data[0..] == data;
      CutNulAt(strBuf[..], 0);
    }

    method SkipWhitespace()
      requires Valid()
      modifies `pos
      ensures Valid() && View() == old(View()).(rest := SkipSpace(old(View()).rest))
    {
      while pos < |data|
        invariant Valid()
        invariant SkipSpace(data[pos..]) == SkipSpace(old(data[pos..]))
      {
        var c := data[pos];
        assert data[pos..][1..] == data[pos + 1..];
        if c == ' ' || c == '\t' || c == '\n' || c == '\r' {
          pos := pos + 1;
        } else {
          break;
        }
      }
    }

    /** Decodes a string body into the string buffer, which takes at most 255 characters. */
    method ParseString() returns (ok: bool)
      requires Valid()
      modifies `pos, strBuf
      ensures Valid()
      ensures var d := Decode(old(View()).rest, "");
              ok == d.ok && View() == old(View()).(rest := d.rest, str := CutNul(d.text))
    {
      ghost var body := data[pos..];
      var outPos := 0;
      assert strBuf[..0] == "";
      while pos < |data| && outPos < MAX_STRING - 1
        invariant Valid() && outPos < MAX_STRING
        invariant Decode(data[pos..], strBuf[..outPos]) == Decode(body, "")
        decreases |data| - pos
      {
        ghost var here, acc := data[pos..], strBuf[..outPos];
        var c := data[pos];
        pos := pos + 1;
        assert here[1..] == data[pos..];
        if c == '\"' {
          strBuf[outPos] := '\0';
          assert strBuf[..outPos] == acc;
          CutNulAt(strBuf[..], outPos);
          return true;
        }
        if c == '\\' && pos < |data| {
          var esc := data[pos];
          pos := pos + 1;
          assert here[2..] == data[pos..];
          strBuf[outPos] := if esc == 'n' then '\n' else if esc == 'r' then '\r'
                            else if esc == 't' then '\t' else esc;
        } else {
          strBuf[outPos] := c;
        }
        outPos := outPos + 1;
        assert strBuf[..outPos] == acc + [strBuf[outPos - 1]];
      }
      ghost var acc := strBuf[..outPos];
      strBuf[outPos] := '\0';
      assert strBuf[..outPos] == acc;
      CutNulAt(strBuf[..], outPos);
      return false;
    }

    method SkipDigits()
      requires Valid()
      modifies `pos
      ensures Valid() && old(pos) <= pos && data[pos..] == AfterDigits(old(data[pos..]))
    {
      while pos < |data| && '0' <= data[pos] <= '9'
        invariant Valid() && old(pos) <= pos
        invariant AfterDigits(data[pos..]) == AfterDigits(old(data[pos..]))
      {
        assert data[pos..][1..] == data[pos + 1..];
        pos := pos + 1;
      }
    }

    method SkipFraction()
      requires Valid()
      modifies `pos
      ensures Valid() && old(pos) <= pos && data[pos..] == AfterFraction(old(data[pos..]))
    {
      if pos < |data| && data[pos] == '.' {
        assert data[pos..][1..] == data[pos + 1..];
        pos := pos + 1;
        SkipDigits();
      }
    }

    method SkipExponent()
      requires Valid()
      modifies `pos
      ensures Valid() && old(pos) <= pos && data[pos..] == AfterExponent(old(data[pos..]))
    {
      if pos < |data| && (data[pos] == 'e' || data[pos] == 'E') {
        assert data[pos..][1..] == data[pos + 1..];
        pos := pos + 1;
        if pos < |data| && (data[pos] == '+' || data[pos] == '-') {
          assert data[pos..][1..] == data[pos + 1..];
          pos := pos + 1;
        }
        SkipDigits();
      }
    }

    lemma TakenText(s: string, start: nat, pos: nat)
      requires start <= pos <= |s|
      ensures var len := if pos - start >= NUMBER_SCRATCH then NUMBER_SCRATCH - 1 else pos - start;
              s[start..start + len] == Truncate(s[start..][..pos - start], NUMBER_SCRATCH - 1)
    {
    }

    method ParseNumber() returns (ok: bool)
      requires Valid()
      modifies `pos, `num
      ensures Valid() && old(pos) <= pos && data[pos..] == AfterNumber(old(data[pos..]))
      ensures ok == (old(pos) < pos)
      ensures num == if ok then Truncate(old(data[pos..])[..pos - old(pos)], NUMBER_SCRATCH - 1) else old(num)
    {
      var start := pos;
      if pos < |data| && data[pos] == '-' {
        assert data[pos..][1..] == data[pos + 1..];
        pos := pos + 1;
      }
      SkipDigits();
      SkipFraction();
      SkipExponent();
      if pos > start {
        var len := pos - start;
        if len >= NUMBER_SCRATCH {
          len := NUMBER_SCRATCH - 1;
        }
        TakenText(data, start, pos);
        num := data[start..start + len];
        return true;
      }
      return false;
    }

    /** Accepts a literal, or reports an error and stays where it is. */
    method Literal(word: string, found: Token)
      requires Valid() && (found.Bool? || found.Null?) && word != ""
      modifies `pos, `kind, `boolean
      ensures Valid() && View() == Apply(old(View()), LexLiteral(old(View()).rest, word, found))
    {
      assert data[pos..] == old(data[pos..]);
      if pos + |word| <= |data| && data[pos..pos + |word|] == word {
        assert word <= data[pos..];
        pos := pos + |word|;
        assert data[pos..] == old(data[pos..])[|word|..];
        boolean := if found.Bool? then found.b else boolean;
        kind := KindOf(found);
        return;
      }
      kind := KError;
    }

    /** The token after an opening quote: a key when a colon follows, else a string. */
    method StringToken()
      requires Valid()
      modifies this, strBuf
      ensures Valid() && View() == Apply(old(View()), LexString(old(View()).rest))
    {
      hide Decode, SkipSpace, CutNul, Truncate;
      var ok := ParseString();
      if !ok {
        kind := KError;
        return;
      }
      SkipWhitespace();
      if pos < |data| && data[pos] == ':' {
        key := Truncate(GetString(), MAX_KEY - 1);
        kind := KKey;
      } else {
        kind := KString;
      }
    }

    method NumberToken()
      requires Valid()
      modifies this
      ensures Valid() && View() == Apply(old(View()), LexNumber(old(View()).rest))
    {
      var ok := ParseNumber();
      kind := if ok then KNumber else KError;
    }

    /** One of the four brackets. */
    method Bracket(found: Token, step: int)
      requires Valid() && pos < |data|
      requires found.ObjectStart? || found.ObjectEnd? || found.ArrayStart? || found.ArrayEnd?
      requires step == if found.ObjectStart? || found.ArrayStart? then 1 else -1
      modifies `pos, `depth, `kind
      ensures Valid() && View() == Apply(old(View()), Lexeme(found, old(View()).rest[1..]))
    {
      assert data[pos..][1..] == data[pos + 1..];
      pos, depth, kind := pos + 1, depth + step, KindOf(found);
    }

    /** A literal, a number, or nothing the tokenizer knows. */
    method WordToken()
      requires Valid() && pos < |data|
      modifies this
      ensures Valid() && View() == Apply(old(View()), LexWord(old(View()).rest))
    {
      var c := data[pos];
      match c
      case 't' =>
        Literal("true", Bool(true));
      case 'f' =>
        Literal("false", Bool(false));
      case 'n' =>
        Literal("null", Null);
      case _ =>
        if c == '-' || '0' <= c <= '9' {
          NumberToken();
        } else {
          kind := KError;
        }
    }

    /** Advances to the next token. */
    method NextToken()
      requires Valid()
      modifies this, strBuf
      ensures Valid() && View() == Next(old(View()))
      decreases |data| - pos
    {
      hide Next, Apply, LexString, LexWord, SkipSpace, CutNul;
      SkipWhitespace();
      NextCases(old(View()), View());
      if pos >= |data| {
        kind := KEof;
        return;
      }
      var c := data[pos];
      assert data[pos..][1..] == data[pos + 1..];
      match c
      case '{' => Bracket(ObjectStart, 1);
      case '}' => Bracket(ObjectEnd, -1);
      case '[' => Bracket(ArrayStart, 1);
      case ']' => Bracket(ArrayEnd, -1);
      case ',' =>
        pos := pos + 1;
        NextToken();
      case ':' =>
        pos := pos + 1;
        NextToken();
      case '\"' =>
        pos := pos + 1;
        StringToken();
      case _ =>
        WordToken();
    }

    /** Reads on until the depth falls below `startDepth`. */
    method SkipContents(startDepth: int) returns (ok: bool)
      requires Valid()
      modifies this, strBuf
      ensures Valid()
      ensures Skipped(ok, View()) == SkipTo(old(View()), startDepth)
      decreases |data| - pos
    {
      while true
        invariant Valid()
        invariant SkipTo(View(), startDepth) == SkipTo(old(View()), startDepth)
        decreases |data| - pos
      {
        ghost var st := View();
        NextToken();
        SkipToStep(st, View(), startDepth);
        if kind == KEof || kind == KError {
          return false;
        }
        if depth < startDepth {
          return true;
        }
      }
    }

    /** Skips the rest of the value whose first token is the current one. */
    method SkipValue() returns (ok: bool)
      requires Valid()
      modifies this, strBuf
      ensures Valid()
      ensures Skipped(ok, View()) == Skip(old(View()))
    {
      match kind
      case KObjectStart | KArrayStart =>
        ok := SkipContents(depth);
      case KString | KNumber | KBool | KNull =>
        ok := true;
      case _ =>
        ok := false;
    }

    function GetString(): (s: string)
      reads this, strBuf
      requires Valid()
      ensures s == View().str
    {
      CutNul(strBuf[..])
    }
  }
}
