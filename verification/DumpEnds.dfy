/** On which dumps the viewer ends: exactly on those it can read. */
module DumpEnds {
  import opened JsonValue
  import opened JsonLexer
  import opened JsonRoundTrip
  import opened Snapshots
  import opened SpikeDump
  import opened DumpReadable

  // ----- reaching the end, call by call -----

  /** `n` calls of the reader. */
  function Steps(st: State, n: nat): State
    decreases n
  {
    if n == 0 then st else Steps(Next(st), n - 1)
  }

  /** Where the tokenizer no longer moves it stays for good. */
  lemma StuckStays(s: string)
    requires Stream(s) == Stuck
    ensures Lex(s) == Lexeme(Error, s)
  {
    SuffixOfSameLength(s);
    hide LexString, AfterNumber;
  }

  lemma SuffixOfSameLength(s: string)
    ensures |SkipSpace(s)| == |s| ==> SkipSpace(s) == s
  {
  }

  lemma {:induction false} NeverEnds(st: State, n: nat)
    requires !Reaches(st.rest) && !st.kind.KEof?
    ensures !Steps(st, n).kind.KEof?
    decreases n
  {
    if n > 0 {
      var l := Lex(st.rest);
      if |l.rest| == |st.rest| {
        StuckStays(st.rest);
      }
      NeverEnds(Next(st), n - 1);
    }
  }

  lemma {:induction false} EventuallyEnds(st: State) returns (n: nat)
    requires Reaches(st.rest)
    ensures Steps(st, n).kind.KEof?
    decreases |st.rest|
  {
    if Lex(st.rest).token.Eof? {
      n := 1;
      assert Steps(st, 1) == Steps(Next(st), 0);
    } else {
      n := EventuallyEnds(Next(st));
      n := n + 1;
    }
  }

  /** `Reaches` is what it says: some call of the reader on the text finds its end. */
  lemma ReachesExactly(data: string)
    ensures Reaches(data) <==> exists n: nat :: Steps(Init(data), n).kind.KEof?
  {
    if Reaches(data) {
      var n := EventuallyEnds(Init(data));
    } else {
      forall n: nat
        ensures !Steps(Init(data), n).kind.KEof?
      {
        NeverEnds(Init(data), n);
      }
    }
  }

  // ----- text outside of its string -----

  predicate Plain(a: string) {
    forall i :: 0 <= i < |a| ==> a[i] != '\"' && a[i] != '\\'
  }

  /** A backslash, or a closing quote before a name that begins with 'c'. */
  predicate Blocks(z: string) {
    z != "" && (z[0] == '\\' || "\",\"c" <= z)
  }

  /** Neither of them leads to the end: a backslash is no token, and the quote opens a string of
      its own that takes the comma, and leaves the bare name. */
  lemma BlockedAt(z: string)
    requires Blocks(z)
    ensures !Finishes(Stream(z))
  {
    hide Lex;
    if z[0] == '\\' {
      LexNoToken(z);
    } else {
      var tail := z[3..];
      assert z == "\"" + (",\"" + tail);
      LexComma(tail);
      LexNoToken(tail);
      assert Stream(tail) == Stuck;
      assert Stream(z) == Cons(Text(","), Stream(tail));
    }
  }

  /** Neither a backslash nor a bare name begins a token. */
  lemma LexNoToken(s: string)
    requires s != "" && (s[0] == '\\' || s[0] == 'c')
    ensures Lex(s) == Lexeme(Error, s)
  {
    assert SkipSpace(s) == s;
  }

  lemma LexComma(tail: string)
    requires tail != "" && tail[0] == 'c'
    ensures Lex("\"" + (",\"" + tail)) == Lexeme(Text(","), tail)
  {
    var body := ",\"" + tail;
    var text := "\"" + body;
    assert SkipSpace(text) == text && text[1..] == body;
    assert body[1..] == "\"" + tail && body[1..][1..] == tail;
    assert Decode(body, "") == Decode(body[1..], ",");
    assert SkipSpace(tail) == tail;
    assert CutNul(",") == "," by { assert ","[1..] == ""; }
  }

  /** Space, commas and colons do not matter. */
  lemma Passed(s: string)
    requires s != "" && (IsSpace(s[0]) || s[0] == ',' || s[0] == ':')
    ensures Finishes(Stream(s)) == Finishes(Stream(s[1..]))
  {
    assert Lex(s) == Lex(s[1..]) by {
      hide LexNumber, LexLiteral, LexString, LexWord;
    }
    if Stream(s[1..]) == Stuck {
      StuckStays(s[1..]);
    }
    hide Lex;
  }

  lemma Cut(a: string, k: nat, z: string)
    requires k <= |a|
    ensures k < |a| ==> (a[k..] + z)[0] == a[k] && (a[k..] + z)[1..] == a[k + 1..] + z
    ensures k == |a| ==> a[k..] + z == z
  {
  }

  lemma {:induction false} DigitsWithin(a: string, k: nat, z: string) returns (j: nat)
    requires k <= |a| && z != "" && !IsDigit(z[0])
    ensures k <= j <= |a| && AfterDigits(a[k..] + z) == a[j..] + z
    ensures k < |a| && IsDigit(a[k]) ==> k < j
    decreases |a| - k
  {
    Cut(a, k, z);
    if k < |a| && IsDigit(a[k]) {
      j := DigitsWithin(a, k + 1, z);
    } else {
      j := k;
    }
  }

  /** A number ends within plain text that is followed by what is no part of a number. */
  lemma NumberWithin(a: string, z: string) returns (k: nat)
    requires a != "" && (a[0] == '-' || IsDigit(a[0])) && Blocks(z)
    ensures 0 < k <= |a| && AfterNumber(a + z) == a[k..] + z
  {
    var i := if a[0] == '-' then 1 else 0;
    Cut(a, 0, z);
    assert a[0..] == a;
    assert AfterSign(a + z) == a[i..] + z;
    k := DigitsWithin(a, i, z);
    k := FractionWithin(a, k, z);
    k := ExponentWithin(a, k, z);
  }

  lemma FractionWithin(a: string, k: nat, z: string) returns (j: nat)
    requires k <= |a| && Blocks(z)
    ensures k <= j <= |a| && AfterFraction(a[k..] + z) == a[j..] + z
  {
    Cut(a, k, z);
    j := k;
    if k < |a| && a[k] == '.' {
      j := DigitsWithin(a, k + 1, z);
    }
  }

  lemma ExponentWithin(a: string, k: nat, z: string) returns (j: nat)
    requires k <= |a| && Blocks(z)
    ensures k <= j <= |a| && AfterExponent(a[k..] + z) == a[j..] + z
  {
    Cut(a, k, z);
    j := k;
    if k < |a| && (a[k] == 'e' || a[k] == 'E') {
      Cut(a, k + 1, z);
      j := if k + 1 < |a| && (a[k + 1] == '+' || a[k + 1] == '-') then k + 2 else k + 1;
      assert AfterExponentSign(a[k + 1..] + z) == a[j..] + z;
      j := DigitsWithin(a, j, z);
    }
  }

  lemma CharAt(p: string, s: string, i: nat)
    requires p <= s && i < |p|
    ensures s[i] == p[i]
  {
  }

  /** A word that begins plain text lies within it. */
  lemma WordWithin(a: string, z: string, word: string)
    requires Blocks(z) && word != "" && word <= a + z
    requires forall i :: 0 <= i < |word| ==> 'a' <= word[i] <= 'z'
    ensures |word| <= |a| && (a + z)[|word|..] == a[|word|..] + z
  {
    CharAt(word, a + z, if |a| < |word| then |a| else 0);
  }

  /** Whatever tokens plain text holds, the reader does not get past what blocks it. */
  lemma {:induction false} NeverPast(a: string, z: string)
    requires Plain(a) && Blocks(z)
    ensures !Finishes(Stream(a + z))
    decreases |a|
  {
    var s := a + z;
    if a == "" {
      assert s == z;
      BlockedAt(z);
    } else if IsSpace(a[0]) || a[0] == ',' || a[0] == ':' {
      assert s[1..] == a[1..] + z;
      Passed(s);
      NeverPast(a[1..], z);
    } else if a[0] == '{' || a[0] == '}' || a[0] == '[' || a[0] == ']' {
      assert s == [a[0]] + (a[1..] + z);
      LexBracket(a[0], a[1..] + z);
      hide Lex;
      NeverPast(a[1..], z);
    } else {
      NeverPastWord(a, z);
      if |Lex(s).rest| < |s| {
        var k :| 0 < k <= |a| && Lex(s).rest == a[k..] + z;
        hide Lex;
        NeverPast(a[k..], z);
      }
    }
  }

  /** A number or a literal ends within the text; anything else is stuck. */
  lemma NeverPastWord(a: string, z: string)
    requires a != "" && Plain(a) && Blocks(z)
    requires !IsSpace(a[0]) && a[0] !in ",:{}[]"
    ensures var l := Lex(a + z);
            && !l.token.Eof?
            && (|l.rest| < |a + z| ==> exists k :: 0 < k <= |a| && l.rest == a[k..] + z)
  {
    var s := a + z;
    assert SkipSpace(s) == s && Lex(s) == LexWord(s);
    if a[0] == '-' || IsDigit(a[0]) {
      var k := NumberWithin(a, z);
    } else {
      var word := if a[0] == 't' then "true" else if a[0] == 'f' then "false" else "null";
      if word <= s {
        WordWithin(a, z, word);
      }
    }
  }

  // ----- strings that are too long for the reader -----

  lemma {:induction false} CutPlain(q: string, y: string, acc: string) returns (k: nat)
    requires Plain(q) && |acc| <= MAX_STRING - 1 <= |acc| + |q|
    ensures k <= |q| && var d := Decode(q + y, acc); !d.ok && d.rest == q[k..] + y
    decreases |q|
  {
    if |acc| == MAX_STRING - 1 {
      k := 0;
      assert q[0..] == q;
    } else {
      assert (q + y)[1..] == q[1..] + y;
      k := CutPlain(q[1..], y, acc + [q[0]]);
      assert q[1..][k..] == q[k + 1..];
      k := k + 1;
    }
  }

  /** Where decoding gives up on a printed string: perhaps within an escape, of which then only
      digits are left, and otherwise between two characters. */
  lemma {:induction false} CutEscaped(s: string, x: string, acc: string) returns (p: string, r: string)
    requires |acc| <= MAX_STRING - 1 <= |acc| + |Seen(s)|
    ensures Plain(p)
    ensures var d := Decode(Escape(s) + x, acc); !d.ok && d.rest == p + (Escape(r) + x)
    decreases |s|
  {
    if |acc| == MAX_STRING - 1 {
      p, r := "", s;
      assert "" + (Escape(s) + x) == Escape(s) + x;
    } else {
      var c, y := s[0], Escape(s[1..]) + x;
      Regroup3(EscapeChar(c), Escape(s[1..]), x);
      if |acc| + |SeenChar(c)| <= MAX_STRING - 1 {
        DecodeChar(c, y, acc);
        p, r := CutEscaped(s[1..], x, acc + SeenChar(c));
      } else {
        p, r := CutInEscape(c, s[1..], x, acc);
      }
    }
  }

  lemma CutInEscape(c: char, s: string, x: string, acc: string) returns (p: string, r: string)
    requires |acc| < MAX_STRING - 1 < |acc| + |SeenChar(c)|
    ensures Plain(p)
    ensures var d := Decode(EscapeChar(c) + (Escape(s) + x), acc); !d.ok && d.rest == p + (Escape(r) + x)
  {
    var e, y := EscapeChar(c), Escape(s) + x;
    assert |e| == 6 && (e + y)[2..] == e[2..] + y;
    var k := CutPlain(e[2..], y, acc + "u");
    p, r := e[2..][k..], s;
  }

  /** The printed string up to its first escape. */
  lemma {:induction false} FirstEscape(r: string, x: string) returns (a: string, z: string)
    ensures Escape(r) + x == a + z && Plain(a)
    ensures z == x || (z != "" && z[0] == '\\')
  {
    if r == "" {
      a, z := "", x;
    } else if |EscapeChar(r[0])| > 1 {
      a, z := "", Escape(r) + x;
    } else {
      a, z := FirstEscape(r[1..], x);
      Regroup3([r[0]], Escape(r[1..]), x);
      Regroup3([r[0]], a, z);
      a := [r[0]] + a;
    }
  }

  /** A string that is too long and stands before a name in 'c' keeps the reader from the end. */
  lemma StuckString(s: string, lead: string, post: string)
    requires !Short(s) && IsLead(lead) && ",\"c" <= post
    ensures !Finishes(Stream(lead + Quote(s) + post))
  {
    var x := "\"" + post;
    var body := Escape(s) + x;
    var p, r := CutEscaped(s, x, "");
    var a, z := FirstEscape(r, x);
    Regroup3(p, a, z);
    LexTooLong(s, lead, post, (p + a) + z);
    hide Lex, Escape, Seen;
    assert Blocks(z);
    NeverPast(p + a, z);
  }

  lemma LexTooLong(s: string, lead: string, post: string, rest: string)
    requires IsLead(lead)
    requires var d := Decode(Escape(s) + ("\"" + post), ""); !d.ok && d.rest == rest
    ensures var l := Lex(lead + Quote(s) + post);
            l.token.BadString? && l.rest == rest && |rest| < |lead + Quote(s) + post|
  {
    var body := Escape(s) + ("\"" + post);
    Regroup3(lead, Quote(s), post);
    LexLead(lead, Quote(s) + post);
    Regroup4("\"", Escape(s), "\"", post);
    var text := "\"" + body;
    assert SkipSpace(text) == text && text[1..] == body;
    hide Decode, Escape;
  }

  // ----- trees -----

  predicate BeginsInC(ms: Members) {
    ms.Member? && ms.key != "" && ms.key[0] == 'c'
  }

  /** Only a member's string may be too long, and only before a name in 'c'. */
  predicate Tame(t: Tree) {
    match t
    case Obj(ms) => TameMembers(ms)
    case Arr(es) => TameItems(es)
    case Str(s) => Short(s)
    case _ => true
  }

  predicate TameMembers(ms: Members) {
    match ms
    case NoMembers => true
    case Member(k, v, rest) => Short(k) && (Tame(v) || (v.Str? && BeginsInC(rest))) && TameMembers(rest)
  }

  predicate TameItems(es: Items) {
    match es
    case NoItems => true
    case Item(v, rest) => Tame(v) && TameItems(rest)
  }

  lemma {:induction false} FinishesTree(t: Tree, k: Tokens)
    ensures Finishes(TokensOf(t, k)) == Finishes(k)
  {
    match t
    case Obj(ms) => FinishesMembers(ms, Cons(ObjectEnd, k));
    case Arr(es) => FinishesItems(es, Cons(ArrayEnd, k));
    case _ =>
  }

  lemma {:induction false} FinishesMembers(ms: Members, k: Tokens)
    ensures Finishes(MemberTokens(ms, k)) == Finishes(k)
  {
    match ms
    case NoMembers =>
    case Member(key, v, rest) =>
      FinishesTree(v, MemberTokens(rest, k));
      FinishesMembers(rest, k);
  }

  lemma {:induction false} FinishesItems(es: Items, k: Tokens)
    ensures Finishes(ItemTokens(es, k)) == Finishes(k)
  {
    match es
    case NoItems =>
    case Item(v, rest) =>
      FinishesTree(v, ItemTokens(rest, k));
      FinishesItems(rest, k);
  }

  /** A tame tree that is not readable keeps the reader from the end, whatever follows it. */
  lemma {:induction false} StuckTree(t: Tree, lead: string, post: string)
    requires Tame(t) && !Readable(t) && IsLead(lead) && Ends(post)
    ensures !Finishes(Stream(lead + Print(t) + post))
  {
    hide Short;
    match t
    case Obj(ms) =>
      RegroupBrackets(lead, "{", PrintMembers(ms, false), "}", post);
      StreamBracket(lead, '{', PrintMembers(ms, false) + ("}" + post));
      StuckMembers(ms, false, "}" + post);
    case Arr(es) =>
      RegroupBrackets(lead, "[", PrintItems(es, false), "]", post);
      StreamBracket(lead, '[', PrintItems(es, false) + ("]" + post));
      StuckItems(es, false, "]" + post);
    case NonFinite(infinite) =>
      StuckNonFinite(infinite, lead, post);
    case _ =>
  }

  lemma StuckNonFinite(infinite: bool, lead: string, post: string)
    requires IsLead(lead)
    ensures !Finishes(Stream(lead + Print(NonFinite(infinite)) + post))
  {
    var x := Print(NonFinite(infinite)) + post;
    LexNonFinite(infinite, post);
    hide Lex;
    assert Stream(x) == Stuck;
    Regroup3(lead, Print(NonFinite(infinite)), post);
    if lead == "" {
      assert lead + x == x;
    } else {
      assert (lead + x)[1..] == x;
      Passed(lead + x);
    }
  }

  lemma {:induction false} StuckMembers(ms: Members, comma: bool, post: string)
    requires TameMembers(ms) && !ReadableMembers(ms) && post != "" && Ends(post)
    ensures !Finishes(Stream(PrintMembers(ms, comma) + post))
  {
    hide Short;
    var Member(k, v, rest) := ms;
    var after := PrintMembers(rest, true) + post;
    RegroupMember(Lead(comma), Quote(k), ":", Print(v), PrintMembers(rest, true), post);
    LexKey(k, Lead(comma), Print(v) + after);
    StreamStep(PrintMembers(ms, comma) + post, Key(Seen(k)), ":" + (Print(v) + after));
    Regroup3(":", Print(v), after);
    EndsAfter(rest, post);
    hide Stream, Lex;
    if Readable(v) {
      StreamTree(v, ":", after);
      FinishesTree(v, Stream(after));
      StuckMembers(rest, true, post);
    } else if v.Str? {
      NameAfter(rest, post);
      StuckString(v.s, ":", after);
    } else {
      StuckTree(v, ":", after);
    }
  }

  lemma NameAfter(ms: Members, post: string)
    requires BeginsInC(ms)
    ensures ",\"c" <= PrintMembers(ms, true) + post
  {
    assert EscapeChar('c') == "c";
    assert ",\"c" <= "," + Quote(ms.key);
    hide Escape, Print;
  }

  lemma {:induction false} StuckItems(es: Items, comma: bool, post: string)
    requires TameItems(es) && !ReadableItems(es) && post != "" && Ends(post)
    ensures !Finishes(Stream(PrintItems(es, comma) + post))
  {
    var Item(v, rest) := es;
    var after := PrintItems(rest, true) + post;
    Regroup3(Lead(comma) + Print(v), PrintItems(rest, true), post);
    hide Stream, Lex, Short;
    if Readable(v) {
      StreamTree(v, Lead(comma), after);
      FinishesTree(v, Stream(after));
      StuckItems(rest, true, post);
    } else {
      StuckTree(v, Lead(comma), after);
    }
  }

  /** The reader comes to the end of a printed tame tree exactly when it is readable. */
  lemma TameEndsExactly(t: Tree)
    requires Tame(t)
    ensures Reaches(Print(t)) <==> Readable(t)
  {
    assert "" + Print(t) + "" == Print(t);
    if Readable(t) {
      CleanExactly(t);
    } else {
      StuckTree(t, "", "");
    }
  }

  // ----- dumps are tame -----

  lemma {:induction false} ReadableIsTame(t: Tree)
    requires Readable(t)
    ensures Tame(t)
  {
    hide Short;
    match t
    case Obj(ms) => ReadableMembersAreTame(ms);
    case Arr(es) => ReadableItemsAreTame(es);
    case _ =>
  }

  lemma {:induction false} ReadableMembersAreTame(ms: Members)
    requires ReadableMembers(ms)
    ensures TameMembers(ms)
  {
    hide Short;
    match ms
    case NoMembers =>
    case Member(_, v, rest) =>
      ReadableIsTame(v);
      ReadableMembersAreTame(rest);
  }

  lemma {:induction false} ReadableItemsAreTame(es: Items)
    requires ReadableItems(es)
    ensures TameItems(es)
  {
    match es
    case NoItems =>
    case Item(v, rest) =>
      ReadableIsTame(v);
      ReadableItemsAreTame(rest);
  }

  predicate TameField(fs: Fields, i: nat)
    requires i < |fs|
  {
    Tame(fs[i].1) || (fs[i].1.Str? && i + 1 < |fs| && fs[i + 1].0 != "" && fs[i + 1].0[0] == 'c')
  }

  lemma {:induction false} TameMembersOf(fs: Fields)
    requires forall i: nat :: i < |fs| ==> |fs[i].0| <= 50 && TameField(fs, i)
    ensures TameMembers(MembersOf(fs))
  {
    hide Tame;
    if fs != [] {
      SeenLength(fs[0].0);
      assert forall i: nat :: i < |fs[1..]| ==> fs[1..][i] == fs[i + 1] && TameField(fs, i + 1);
      TameMembersOf(fs[1..]);
      assert TameField(fs, 0);
    }
  }

  lemma AllTame(fs: Fields)
    requires forall i: nat :: i < |fs| ==> |fs[i].0| <= 50 && Tame(fs[i].1)
    ensures TameMembers(MembersOf(fs))
  {
    hide Tame;
    TameMembersOf(fs);
  }

  lemma TameProc(e: ProcEntry)
    ensures Tame(ProcTree(e))
  {
    var fs := ProcFields(e);
    SeenLength(OneChar(e.state));
    SeenLength(e.comm);
    assert fs[6].0[0] == 'c';
    hide MembersOf, Seen, DecOf;
    TameMembersOf(fs);
  }

  lemma {:induction false} TameProcs(es: seq<ProcEntry>)
    ensures TameItems(ProcItems(es))
  {
    hide ProcTree;
    if es != [] {
      TameProc(es[0]);
      TameProcs(es[1..]);
    }
  }

  lemma TameMem(m: MemSnapshot)
    ensures Tame(Obj(MembersOf(MemFields(m))))
  {
    hide MembersOf, DecOf;
    TameMembersOf(MemFields(m));
  }

  lemma TameSnapshot(s: Snapshot, triggerNs: u64)
    ensures Tame(SnapshotTree(s, triggerNs))
  {
    TameSnapshotFields(s, triggerNs);
    hide SnapshotFields, MembersOf, Short;
    AllTame(SnapshotFields(s, triggerNs));
  }

  lemma TameSnapshotFields(s: Snapshot, triggerNs: u64)
    ensures var fs := SnapshotFields(s, triggerNs); forall i: nat :: i < |fs| ==> |fs[i].0| <= 50 && Tame(fs[i].1)
  {
    hide Tame, MembersOf, ProcItems, MemFields, CpuFields, DecOf, Seconds;
    SnapshotNamesShort(s, triggerNs);
    TameCpu(s.cpu);
    TameMem(s.mem);
    TameProcList(s.procs);
    TameProcList(s.topRss);
    var fs := SnapshotFields(s, triggerNs);
    assert fs[0].1.Int? && fs[1].1.Dec? && fs[2].1.Dec?;
    NumbersAreTame(fs[0].1);
    NumbersAreTame(fs[1].1);
    NumbersAreTame(fs[2].1);
  }

  lemma TameCpu(c: CpuSnapshot)
    ensures Tame(Obj(MembersOf(CpuFields(c))))
  {
    hide MembersOf, CpuFields;
    ReadableCpu(c);
    ReadableIsTame(Obj(MembersOf(CpuFields(c))));
  }

  lemma TameProcList(es: seq<ProcEntry>)
    ensures Tame(Arr(ProcItems(es)))
  {
    hide ProcItems;
    TameProcs(es);
  }

  lemma NumbersAreTame(t: Tree)
    requires t.Int? || t.Dec?
    ensures Tame(t)
  {
  }

  lemma SnapshotNamesShort(s: Snapshot, triggerNs: u64)
    ensures var fs := SnapshotFields(s, triggerNs); forall i: nat :: i < |fs| ==> |fs[i].0| <= 50
  {
    hide MembersOf, ProcItems, MemFields, CpuFields, DecOf, Seconds;
  }

  lemma {:induction false} TameSnapshots(ss: seq<Snapshot>, triggerNs: u64)
    ensures TameItems(SnapshotItems(ss, triggerNs))
  {
    hide SnapshotTree;
    if ss != [] {
      TameSnapshot(ss[0], triggerNs);
      TameSnapshots(ss[1..], triggerNs);
    }
  }

  lemma TameDump(d: Dump)
    ensures Tame(DumpTree(d))
  {
    ReadableHead(d);
    ReadableMembersAreTame(MembersOf(HeadFields(d)));
    TameBodyFields(d);
    hide MembersOf, HeadFields, BodyFields;
    AllTame(BodyFields(d));
    TameAppend(HeadFields(d), BodyFields(d));
  }

  lemma TameBodyFields(d: Dump)
    ensures var fs := BodyFields(d); forall i: nat :: i < |fs| ==> |fs[i].0| <= 50 && Tame(fs[i].1)
  {
    hide MembersOf, SnapshotItems, AnomalyTree, Written, Seconds, DecOf, Tame;
    TameAnomaly(d.anomaly);
    TameWritten(d.snapshots, d.timestampNs);
    var fs := BodyFields(d);
    assert fs[0].1.Dec? && fs[1].1.Int?;
    NumbersAreTame(fs[0].1);
    NumbersAreTame(fs[1].1);
  }

  lemma TameAnomaly(a: Anomaly)
    ensures Tame(AnomalyTree(a))
  {
    hide AnomalyTree;
    ReadableAnomaly(a);
    ReadableIsTame(AnomalyTree(a));
  }

  lemma TameWritten(ss: seq<Snapshot>, ns: u64)
    ensures Tame(Arr(SnapshotItems(Written(ss), ns)))
  {
    hide SnapshotItems, Written;
    TameSnapshots(Written(ss), ns);
  }

  lemma {:induction false} TameAppend(a: Fields, b: Fields)
    requires TameMembers(MembersOf(a)) && TameMembers(MembersOf(b))
    ensures TameMembers(MembersOf(a + b))
  {
    hide Tame, Short;
    if a == [] {
      assert a + b == b;
    } else {
      assert (a + b)[1..] == a[1..] + b;
      TameAppend(a[1..], b);
      if a[1..] == [] {
        assert !BeginsInC(MembersOf(a[1..]));
      }
    }
  }

  /** The viewer comes to the end of a dump exactly when it can read it: when every written
      snapshot has RAM and every command line decodes to at most 254 bytes. On every other dump
      no call of the reader ever finds the end of the text. */
  lemma DumpEndsExactly(d: Dump)
    ensures (exists n: nat :: Steps(Init(Print(DumpTree(d))), n).kind.KEof?) <==> ReadableDump(d)
    ensures Reaches(Print(DumpTree(d))) <==> ReadableDump(d)
  {
    TameDump(d);
    ReadableTreeExactly(d);
    hide DumpTree, Reaches, ReadableDump, Readable, Tame, Print;
    TameEndsExactly(DumpTree(d));
    ReachesExactly(Print(DumpTree(d)));
  }
}
