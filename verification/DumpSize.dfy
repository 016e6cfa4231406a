/** How long dumps get: always less than the writer's largest buffer. */
module DumpSize {
  import opened JsonValue
  import opened JsonWriter
  import opened Snapshots
  import opened SpikeDump

  // ----- lengths of strings and numbers -----

  lemma {:induction false} EscapeLength(s: string)
    ensures |Escape(s)| <= 6 * |s|
  {
    if s != "" {
      EscapeLength(s[1..]);
    }
  }

  lemma QuoteLength(s: string)
    ensures |Quote(s)| <= 6 * |s| + 2
  {
    EscapeLength(s);
    hide Escape;
  }

  lemma NumberLength(t: Tree)
    requires t.Int? || t.Dec? || t.NonFinite? || t.Boolean?
    ensures |Print(t)| <= 31
  {
    hide NatText;
    match t
    case Int(n) => IntTextFits(n);
    case Dec(minus, h) => DecTextFits(minus, h);
    case _ =>
  }

  // ----- lengths of members -----

  /** Members with short names whose values are of at most `v` characters. */
  ghost predicate Bounded(fs: Fields, v: nat) {
    forall i: nat :: i < |fs| ==> |fs[i].0| <= 25 && |Print(fs[i].1)| <= v
  }

  /** Each of them takes, besides its value, a comma, a quoted name and a colon. */
  lemma {:induction false} MembersLength(fs: Fields, v: nat, comma: bool)
    requires Bounded(fs, v)
    ensures |PrintMembers(MembersOf(fs), comma)| <= |fs| * (154 + v)
  {
    hide Print, Quote;
    if fs != [] {
      QuoteLength(fs[0].0);
      assert forall i: nat :: i < |fs[1..]| ==> fs[1..][i] == fs[i + 1];
      MembersLength(fs[1..], v, true);
      OneMore(|fs| - 1, 154 + v);
    }
  }

  lemma OneMore(n: nat, k: nat)
    ensures (n + 1) * k == n * k + k
  {
  }

  lemma {:induction false} AppendLength(a: Fields, b: Fields, comma: bool)
    ensures |PrintMembers(MembersOf(a + b), comma)|
         <= |PrintMembers(MembersOf(a), comma)| + |PrintMembers(MembersOf(b), true)|
  {
    hide Print, Quote;
    if a == [] {
      assert a + b == b;
      CommaLength(MembersOf(b), comma);
    } else {
      assert (a + b)[1..] == a[1..] + b;
      AppendLength(a[1..], b, true);
    }
  }

  lemma CommaLength(ms: Members, comma: bool)
    ensures |PrintMembers(ms, comma)| <= |PrintMembers(ms, true)|
  {
    hide Print, Quote;
  }

  /** The members in three groups. */
  lemma ThreeGroups(fs: Fields, n: nat, m: nat, u: nat, v: nat, w: nat)
    requires n <= m <= |fs| && Bounded(fs[..n], u) && Bounded(fs[n..m], v) && Bounded(fs[m..], w)
    ensures |Print(Obj(MembersOf(fs)))| <= n * (154 + u) + (m - n) * (154 + v) + (|fs| - m) * (154 + w) + 2
  {
    hide MembersOf, Bounded, PrintMembers;
    MembersLength(fs[..n], u, false);
    MembersLength(fs[n..m], v, true);
    MembersLength(fs[m..], w, true);
    AppendLength(fs[..n], fs[n..m], false);
    AppendLength(fs[..n] + fs[n..m], fs[m..], false);
    assert fs[..n] + fs[n..m] + fs[m..] == fs;
  }

  lemma OneGroup(fs: Fields, v: nat)
    requires Bounded(fs, v)
    ensures |Print(Obj(MembersOf(fs)))| <= |fs| * (154 + v) + 2
  {
    hide MembersOf, Bounded;
    MembersLength(fs, v, false);
  }

  // ----- lengths of the parts of a dump -----

  lemma StringLength(s: CString)
    ensures |Print(Str(s))| <= 6 * |s| + 2
  {
    QuoteLength(s);
  }

  predicate IsNumber(t: Tree) {
    t.Int? || t.Dec? || t.NonFinite? || t.Boolean?
  }

  lemma NumbersBounded(fs: Fields)
    requires forall i: nat :: i < |fs| ==> |fs[i].0| <= 25 && IsNumber(fs[i].1)
    ensures Bounded(fs, 31)
  {
    hide Print;
    forall i: nat | i < |fs|
      ensures |Print(fs[i].1)| <= 31
    {
      NumberLength(fs[i].1);
    }
  }

  lemma ProcLength(e: ProcEntry)
    ensures |Print(ProcTree(e))| <= 3473
  {
    hide MembersOf, ProcFields, Bounded, Print;
    ProcBounded(e);
    ThreeGroups(ProcFields(e), 5, 6, 92, 1532, 31);
  }

  lemma ProcBounded(e: ProcEntry)
    ensures var fs := ProcFields(e);
            |fs| == 9 && Bounded(fs[..5], 92) && Bounded(fs[5..6], 1532) && Bounded(fs[6..], 31)
  {
    hide Print, DecOf, OneChar;
    var fs := ProcFields(e);
    OneCharLength(e.state);
    StringLength(OneChar(e.state));
    StringLength(e.comm);
    StringLength(e.cmdline);
    NumberLength(fs[0].1);
    NumberLength(fs[1].1);
    NumberLength(fs[2].1);
    NumbersBounded(fs[6..]);
  }

  lemma OneCharLength(c: char)
    ensures |OneChar(c)| <= 1
  {
  }

  lemma {:induction false} ProcsLength(es: seq<ProcEntry>, comma: bool)
    ensures |PrintItems(ProcItems(es), comma)| <= |es| * 3474
  {
    hide Print, ProcTree;
    if es != [] {
      ProcLength(es[0]);
      ProcsLength(es[1..], true);
    }
  }

  lemma ProcListLength(es: ProcList)
    ensures |Print(Arr(ProcItems(es)))| <= 34742
  {
    hide ProcItems;
    ProcsLength(es, false);
  }

  lemma {:induction false} NumbersLength(xs: seq<measure>, comma: bool)
    ensures |PrintItems(NumberItems(xs), comma)| <= |xs| * 32
  {
    hide Print, DecOf;
    if xs != [] {
      NumberLength(DecOf(xs[0]));
      NumbersLength(xs[1..], true);
    }
  }

  lemma CpuLength(c: CpuSnapshot)
    ensures |Print(Obj(MembersOf(CpuFields(c))))| <= 8720
  {
    hide MembersOf, CpuFields, Bounded, Print;
    CpuBounded(c);
    ThreeGroups(CpuFields(c), 1, 2, 31, 8194, 31);
  }

  lemma CpuBounded(c: CpuSnapshot)
    ensures var fs := CpuFields(c);
            |fs| == 3 && Bounded(fs[..1], 31) && Bounded(fs[1..2], 8194) && Bounded(fs[2..], 31)
  {
    hide NumberItems, DecOf, DecText, PrintItems;
    NumbersLength(c.perCorePct, false);
    NumberLength(DecOf(c.globalPct));
    NumberLength(DecOf(c.iowaitPct));
  }

  lemma MemLength(m: MemSnapshot)
    ensures |Print(Obj(MembersOf(MemFields(m))))| <= 4072
  {
    hide MembersOf, MemFields, Print;
    MemBounded(m);
    OneGroup(MemFields(m), 31);
  }

  lemma MemBounded(m: MemSnapshot)
    ensures |MemFields(m)| == 22 && Bounded(MemFields(m), 31)
  {
    hide DecOf, Print, Bounded, KibToMib, SubU64;
    var fs := MemFields(m);
    assert |fs| == 22 && IsNumber(fs[21].1);
    assert forall i: nat :: i < 21 ==> fs[i].1.Int?;
    NumbersBounded(fs);
  }

  lemma SnapshotLength(s: Snapshot, ns: u64)
    ensures |Print(SnapshotTree(s, ns))| <= 88097
  {
    hide MembersOf, SnapshotFields, Bounded, Print;
    SnapshotBounded(s, ns);
    ThreeGroups(SnapshotFields(s, ns), 3, 5, 31, 8720, 34742);
  }

  lemma SnapshotBounded(s: Snapshot, ns: u64)
    ensures var fs := SnapshotFields(s, ns);
            |fs| == 7 && Bounded(fs[..3], 31) && Bounded(fs[3..5], 8720) && Bounded(fs[5..], 34742)
  {
    hide Print, DecOf, Seconds, MembersOf, CpuFields, MemFields, ProcItems;
    CpuLength(s.cpu);
    MemLength(s.mem);
    ProcListLength(s.procs);
    ProcListLength(s.topRss);
    NumbersBounded(SnapshotFields(s, ns)[..3]);
  }

  lemma {:induction false} SnapshotsLength(ss: seq<Snapshot>, ns: u64, comma: bool)
    ensures |PrintItems(SnapshotItems(ss, ns), comma)| <= |ss| * 88098
  {
    hide Print, SnapshotTree;
    if ss != [] {
      SnapshotLength(ss[0], ns);
      SnapshotsLength(ss[1..], ns, true);
    }
  }

  lemma WrittenLength(ss: seq<Snapshot>, ns: u64)
    ensures |Print(Arr(SnapshotItems(Written(ss), ns)))| <= 880982
  {
    hide SnapshotItems;
    SnapshotsLength(Written(ss), ns, false);
  }

  lemma PolicyLength(a: Anomaly)
    ensures |Print(Obj(MembersOf(PolicyFields(a))))| <= 956
  {
    hide MembersOf, PolicyFields, Bounded, Print;
    PolicyBounded(a);
    OneGroup(PolicyFields(a), 164);
  }

  lemma PolicyBounded(a: Anomaly)
    ensures |PolicyFields(a)| == 3 && Bounded(PolicyFields(a), 164)
  {
    hide Print;
    StringLength(ScopeName(a.scope));
    StringLength(ScopeDescription(a.scope));
    NumberLength(Int(a.scopeKey));
  }

  lemma AnomalyLength(a: Anomaly)
    ensures |Print(AnomalyTree(a))| <= 25532
  {
    hide MembersOf, AnomalyFields, Bounded, Print;
    AnomalyBounded(a);
    OneGroup(AnomalyFields(a), 956);
  }

  lemma AnomalyBounded(a: Anomaly)
    ensures |AnomalyFields(a)| == 23 && Bounded(AnomalyFields(a), 956)
  {
    hide Print, AnomalyFields;
    AnomalyNames(a);
    AnomalyValues(a);
  }

  lemma AnomalyNames(a: Anomaly)
    ensures var fs := AnomalyFields(a); |fs| == 23 && forall i: nat :: i < 23 ==> |fs[i].0| <= 25
  {
    hide DecOf, PolicyFields, MembersOf, TypeName, TypeDescription, KibToMib, MibDelta;
  }

  lemma AnomalyValues(a: Anomaly)
    ensures var fs := AnomalyFields(a); |fs| == 23 && forall i: nat :: i < 23 ==> |Print(fs[i].1)| <= 956
  {
    hide Print, DecOf, PolicyFields, MembersOf, TypeName, TypeDescription, KibToMib, MibDelta, Bounded;
    var fs := AnomalyFields(a);
    TextsLength(a);
    PolicyLength(a);
    forall i: nat | i < 23 && i !in {0, 1, 3, 21}
      ensures |Print(fs[i].1)| <= 31
    {
      assert IsNumber(fs[i].1);
      NumberLength(fs[i].1);
    }
  }

  lemma TextsLength(a: Anomaly)
    ensures |Print(Str(TypeName(a.kind)))| <= 956 && |Print(Str(TypeDescription(a.kind)))| <= 956
    ensures |Print(Str(a.spikeComm))| <= 956
  {
    hide Print;
    StringLength(TypeName(a.kind));
    StringLength(TypeDescription(a.kind));
    StringLength(a.spikeComm);
  }

  lemma BodyLength(d: Dump)
    ensures |BodyFields(d)| == 4
    ensures |PrintMembers(MembersOf(BodyFields(d)), true)| <= 907194
  {
    hide MembersOf, BodyFields, Bounded, Print, PrintMembers;
    BodyBounded(d);
    var fs := BodyFields(d);
    MembersLength(fs[..2], 31, true);
    MembersLength(fs[2..3], 25532, true);
    MembersLength(fs[3..], 880982, true);
    AppendLength(fs[..2], fs[2..3], true);
    AppendLength(fs[..2] + fs[2..3], fs[3..], true);
    assert fs[..2] + fs[2..3] + fs[3..] == fs;
  }

  lemma BodyBounded(d: Dump)
    ensures var fs := BodyFields(d);
            |fs| == 4 && Bounded(fs[..2], 31) && Bounded(fs[2..3], 25532) && Bounded(fs[3..], 880982)
  {
    hide Print, DecOf, Seconds, AnomalyTree, SnapshotItems, Written;
    var fs := BodyFields(d);
    AnomalyLength(d.anomaly);
    WrittenLength(d.snapshots, d.timestampNs);
    NumbersBounded(fs[..2]);
  }

  lemma HeadBounded(d: Dump)
    ensures |HeadFields(d)| <= 2 && Bounded(HeadFields(d), 188)
  {
    hide Print;
    NumberLength(Int(SCHEMA_VERSION));
    if d.createdAt.Some? {
      StringLength(d.createdAt.value);
    }
  }

  /** With at most 256 cores, ten processes a list and ten snapshots, every dump fits the writer's
      largest buffer: the writer overflows on no dump. */
  lemma DumpFits(d: Dump)
    ensures |Print(DumpTree(d))| < 1024 * 1024
  {
    hide MembersOf, HeadFields, BodyFields, Bounded, PrintMembers;
    HeadBounded(d);
    MembersLength(HeadFields(d), 188, false);
    BodyLength(d);
    AppendLength(HeadFields(d), BodyFields(d), false);
  }

  /** So the dump writer has a text to write for every dump with a snapshot. */
  method DumpText(d: Dump) returns (text: Option<string>)
    ensures text.Some? <==> d.snapshots != []
    ensures text.Some? ==> text.value == Print(DumpTree(d))
  {
    hide DumpTree, Print;
    text := BuildDump(d);
    DumpFits(d);
  }
}
