/** What the viewer shows of a dump is what the dump was built from. */
module DumpRoundTrip {
  import opened JsonValue
  import opened JsonWriter
  import opened JsonLexer
  import opened JsonRoundTrip
  import opened JsonNumber
  import opened Snapshots
  import opened SpikeDump
  import opened DumpViewer
  import opened DumpReadable

  // ----- stepping through the members of an object -----

  /** The unread text in front of member `i` of an object that is followed by `post`. */
  function At(fs: Fields, i: nat, post: string): string
    requires i <= |fs|
  {
    PrintMembers(MembersOf(fs[i..]), i > 0) + post
  }

  lemma MembersOfAt(fs: Fields, i: nat)
    requires i < |fs|
    ensures MembersOf(fs[i..]) == Member(fs[i].0, fs[i].1, MembersOf(fs[i + 1..]))
  {
    assert fs[i..][0] == fs[i] && fs[i..][1..] == fs[i + 1..];
  }

  lemma AtEnd(fs: Fields, post: string)
    ensures At(fs, |fs|, post) == post
  {
    assert fs[|fs|..] == [];
  }

  lemma EndsAt(fs: Fields, i: nat, post: string)
    requires 0 < i <= |fs| && Ends(post)
    ensures Ends(At(fs, i, post))
  {
    EndsAfter(MembersOf(fs[i..]), post);
  }

  /** Reading the key of member `i`. */
  lemma ReadKey(st: State, fs: Fields, i: nat, post: string)
    requires i < |fs| && IsName(fs[i].0) && st.rest == At(fs, i, post)
    ensures var n := Next(st);
            && n.kind.KKey? && n.key == fs[i].0 && n.depth == st.depth
            && n.rest == ":" + Print(fs[i].1) + At(fs, i + 1, post)
  {
    hide MembersOf;
    var k, v := fs[i].0, fs[i].1;
    var tail := PrintMembers(MembersOf(fs[i + 1..]), true);
    MembersOfAt(fs, i);
    RegroupMember(Lead(i > 0), Quote(k), ":", Print(v), tail, post);
    NameIsSeen(k);
    LexKey(k, Lead(i > 0), Print(v) + (tail + post));
    Regroup3(":", Print(v), tail + post);
  }

  /** Reading on in a text without errors. */
  lemma CleanNext(st: State)
    requires Clean(st.rest)
    ensures !Next(st).kind.KError? && Clean(Next(st).rest)
  {
    var l := Lex(st.rest);
    assert Stream(st.rest) == if l.token.Eof? then End
                              else if |l.rest| == |st.rest| then Stuck
                              else Cons(l.token, Stream(l.rest));
    if l.token.Eof? {
      assert Lex("").token.Eof?;
    }
  }

  lemma CleanSkip(st: State)
    requires Clean(st.rest)
    ensures Clean(Skip(st).st.rest)
  {
    CleanSkipTo(st, st.depth);
  }

  lemma CleanSkipTo(st: State, start: int)
    requires Clean(st.rest)
    ensures Clean(SkipTo(st, start).st.rest)
    decreases |st.rest|
  {
    CleanNext(st);
    SkipToStep(st, Next(st), start);
    var n := Next(st);
    if !n.kind.KEof? && n.depth >= start {
      CleanSkipTo(n, start);
    }
  }

  /** The reader stands in front of member `i`, and the rest of the text is without error. */
  ghost predicate Before(st: State, fs: Fields, i: nat, post: string) {
    i <= |fs| && Ends(post) && Clean(st.rest) && st.rest == At(fs, i, post)
  }

  /** A scalar member with a plain name. */
  ghost predicate PlainField(fs: Fields, i: nat) {
    i < |fs| && IsName(fs[i].0) && Scalar(fs[i].1) && Readable(fs[i].1)
  }

  predicate Scalar(t: Tree) {
    !t.Obj? && !t.Arr?
  }

  /** The reader's buffers hold the value of a scalar. */
  ghost predicate Carries(st: State, v: Tree) {
    && (v.Str? ==> st.str == Seen(v.s))
    && (v.Int? ==> st.num == IntText(v.n))
    && (v.Dec? ==> st.num == DecText(v.minus, v.hundredths))
  }

  predicate ScalarKind(k: Kind) {
    k.KString? || k.KNumber? || k.KBool?
  }

  lemma ReadScalar(st: State, v: Tree, tail: string)
    requires Scalar(v) && Readable(v) && Ends(tail) && st.rest == ":" + Print(v) + tail
    ensures var m := Next(st);
            m.rest == tail && ScalarKind(m.kind) && m.depth == st.depth && Carries(m, v)
  {
    LexScalar(v, ":", tail);
    if v.Int? {
      IntTextFits(v.n);
    }
    if v.Dec? {
      DecTextFits(v.minus, v.hundredths);
    }
  }

  // ----- the trigger -----

  lemma TriggerField(st: State, fs: Fields, i: nat, post: string, t: Trigger) returns (m: State)
    requires PlainField(fs, i) && Before(st, fs, i, post)
    ensures Before(m, fs, i + 1, post) && Carries(m, fs[i].1)
    ensures TriggerFrom(st, t) ==
            TriggerFrom(m, if IsTriggerKey(fs[i].0) then SetTrigger(t, fs[i].0, m.str, m.num) else t)
  {
    hide At, Print, Lex, Clean, TriggerFrom, IsTriggerKey, SetTrigger, Readable, IsName;
    var n := Next(st);
    ReadKey(st, fs, i, post);
    CleanNext(st);
    TriggerRound(st, t, n);
    EndsAt(fs, i + 1, post);
    m := Next(n);
    ReadScalar(n, fs[i].1, At(fs, i + 1, post));
    CleanNext(n);
    CleanNext(Next(n));
    TriggerRound(n, t, m);
  }

  /** What the viewer can show of an integer and of a percentage. */
  function ShownInt(n: int): int {
    RoundInt(n)
  }

  function ShownDec(x: measure): real {
    Hundredths(x) as real / 100.0
  }

  lemma ShowInt(st: State, n: Integer)
    requires Carries(st, Int(n))
    ensures GetInt(st.num) == ShownInt(n)
    ensures -EXACT_INTEGERS <= n <= EXACT_INTEGERS ==> GetInt(st.num) == n
  {
    ReadsBackInt(n);
    if -EXACT_INTEGERS <= n <= EXACT_INTEGERS {
      SmallIsRepresentable(n);
    }
  }

  lemma ShowI32(st: State, n: i32)
    requires Carries(st, Int(n))
    ensures AsI32(GetInt(st.num)) == n
  {
    hide GetInt, RoundInt, IntText;
    ShowInt(st, n);
  }

  lemma ShowU32(st: State, n: u32)
    requires Carries(st, Int(n))
    ensures AsU32(GetInt(st.num)) == n
  {
    hide GetInt, RoundInt, IntText;
    ShowInt(st, n);
  }

  lemma ShowDec(st: State, x: measure)
    requires Carries(st, DecOf(x))
    ensures Strtod(st.num) == ShownDec(x)
  {
    hide Strtod, DecText, Hundredths;
    DecIsHundredths(x);
    ReadsBackDec(DecOf(x).minus, DecOf(x).hundredths);
  }

  lemma DecIsHundredths(x: measure)
    ensures var v := DecOf(x);
            Signed(v.minus, v.hundredths) == Hundredths(x) && v.hundredths / 100 <= EXACT_INTEGERS
  {
    assert -900719925474099200.0 <= x * 100.0 <= 900719925474099200.0;
  }

  // One equation per trigger key, and the keys the trigger loop passes over.

  lemma KeyType(t: Trigger, s: string, n: string)
    ensures IsTriggerKey("type") && SetTrigger(t, "type", s, n) == t.(kind := Truncate(s, 31))
  {
    hide GetInt, Strtod, AsI32, Truncate;
  }

  lemma KeyPid(t: Trigger, s: string, n: string)
    ensures IsTriggerKey("pid") && SetTrigger(t, "pid", s, n) == t.(pid := AsI32(GetInt(n)))
  {
    hide GetInt, Strtod, AsI32, Truncate;
  }

  lemma KeyComm(t: Trigger, s: string, n: string)
    ensures IsTriggerKey("comm") && SetTrigger(t, "comm", s, n) == t.(comm := Truncate(s, 15))
  {
    hide GetInt, Strtod, AsI32, Truncate;
  }

  lemma KeyCpuPct(t: Trigger, s: string, n: string)
    ensures IsTriggerKey("cpu_pct") && SetTrigger(t, "cpu_pct", s, n) == t.(cpuPct := Strtod(n))
  {
    hide GetInt, Strtod, AsI32, Truncate;
  }

  lemma KeyBaselinePct(t: Trigger, s: string, n: string)
    ensures IsTriggerKey("baseline_pct") && SetTrigger(t, "baseline_pct", s, n) == t.(baselinePct := Strtod(n))
  {
    hide GetInt, Strtod, AsI32, Truncate;
  }

  lemma KeyDeltaPct(t: Trigger, s: string, n: string)
    ensures IsTriggerKey("delta_pct") && SetTrigger(t, "delta_pct", s, n) == t.(deltaPct := Strtod(n))
  {
    hide GetInt, Strtod, AsI32, Truncate;
  }

  lemma KeyMemAvailable(t: Trigger, s: string, n: string)
    ensures IsTriggerKey("mem_available_kib") && SetTrigger(t, "mem_available_kib", s, n) == t.(memAvailableKib := GetInt(n))
  {
    hide GetInt, Strtod, AsI32, Truncate;
  }

  lemma KeyMemBaseline(t: Trigger, s: string, n: string)
    ensures IsTriggerKey("mem_baseline_kib") && SetTrigger(t, "mem_baseline_kib", s, n) == t.(memBaselineKib := GetInt(n))
  {
    hide GetInt, Strtod, AsI32, Truncate;
  }

  lemma KeyMemDelta(t: Trigger, s: string, n: string)
    ensures IsTriggerKey("mem_delta_kib") && SetTrigger(t, "mem_delta_kib", s, n) == t.(memDeltaKib := GetInt(n))
  {
    hide GetInt, Strtod, AsI32, Truncate;
  }

  lemma KeyMemUsed(t: Trigger, s: string, n: string)
    ensures IsTriggerKey("mem_used_pct") && SetTrigger(t, "mem_used_pct", s, n) == t.(memUsedPct := Strtod(n))
  {
    hide GetInt, Strtod, AsI32, Truncate;
  }

  lemma KeySwapUsed(t: Trigger, s: string, n: string)
    ensures IsTriggerKey("swap_used_kib") && SetTrigger(t, "swap_used_kib", s, n) == t.(swapUsedKib := GetInt(n))
  {
    hide GetInt, Strtod, AsI32, Truncate;
  }

  lemma KeySwapBaseline(t: Trigger, s: string, n: string)
    ensures IsTriggerKey("swap_baseline_kib") && SetTrigger(t, "swap_baseline_kib", s, n) == t.(swapBaselineKib := GetInt(n))
  {
    hide GetInt, Strtod, AsI32, Truncate;
  }

  lemma KeySwapDelta(t: Trigger, s: string, n: string)
    ensures IsTriggerKey("swap_delta_kib") && SetTrigger(t, "swap_delta_kib", s, n) == t.(swapDeltaKib := GetInt(n))
  {
    hide GetInt, Strtod, AsI32, Truncate;
  }

  /** The CPU part of what the viewer shows. */
  function ShowCpu(a: Anomaly): Trigger {
    NO_TRIGGER.(
      kind := TypeName(a.kind), pid := a.spikePid, comm := Truncate(Seen(a.spikeComm), 15),
      cpuPct := ShownDec(a.spikeCpuPct), baselinePct := ShownDec(a.spikeBaselinePct),
      deltaPct := ShownDec(a.spikeDelta))
  }

  lemma CpuPart(a: Anomaly)
    ensures var fs := AnomalyFields(a);
            && |fs| == 23
            && fs[0] == ("type", Str(TypeName(a.kind)))
            && fs[1] == ("type_description", Str(TypeDescription(a.kind)))
            && fs[2] == ("pid", Int(a.spikePid))
            && fs[3] == ("comm", Str(a.spikeComm))
            && fs[4] == ("cpu_pct", DecOf(a.spikeCpuPct))
            && fs[5] == ("baseline_pct", DecOf(a.spikeBaselinePct))
            && fs[6] == ("delta_pct", DecOf(a.spikeDelta))
            && fs[7] == ("is_new_process", Boolean(a.isNewProcess))
  {
    hide TypeName, TypeDescription, DecOf, KibToMib, MibDelta, MembersOf, PolicyFields;
  }

  lemma CpuNames()
    ensures IsName("type") && IsName("type_description") && IsName("pid") && IsName("comm")
    ensures IsName("cpu_pct") && IsName("baseline_pct") && IsName("delta_pct") && IsName("is_new_process")
  {
  }

  /** What the trigger loop holds halfway through the CPU part. */
  function ShowBlame(a: Anomaly): Trigger {
    NO_TRIGGER.(kind := TypeName(a.kind), pid := a.spikePid, comm := Truncate(Seen(a.spikeComm), 15))
  }

  lemma TriggerBlame(st: State, a: Anomaly, post: string) returns (m: State)
    requires Before(st, AnomalyFields(a), 0, post)
    ensures Before(m, AnomalyFields(a), 4, post)
    ensures TriggerFrom(st, NO_TRIGGER) == TriggerFrom(m, ShowBlame(a))
  {
    hide AnomalyFields, IsName, Before, Clean, TriggerFrom, IsTriggerKey, SetTrigger, TypeName, TypeDescription, DecOf, GetInt,
         Strtod, AsI32, Seen, Hundredths, RoundInt, Truncate, Short;
    ShortTexts(a);
    ShortComm(a.spikeComm);
    ShownType(a);
    CpuPart(a);
    CpuNames();
    var fs := AnomalyFields(a);
    var t := NO_TRIGGER;
    m := TriggerField(st, fs, 0, post, t);
    KeyType(t, m.str, m.num);
    t := t.(kind := TypeName(a.kind));
    m := TriggerField(m, fs, 1, post, t);
    OtherCpuKeys();
    m := TriggerField(m, fs, 2, post, t);
    KeyPid(t, m.str, m.num);
    ShowI32(m, a.spikePid);
    t := t.(pid := a.spikePid);
    m := TriggerField(m, fs, 3, post, t);
    KeyComm(t, m.str, m.num);
  }

  lemma ShortComm(s: Comm)
    ensures Short(s)
  {
    SeenLength(s);
  }

  lemma TriggerCpu(st: State, a: Anomaly, post: string) returns (m: State)
    requires Before(st, AnomalyFields(a), 0, post)
    ensures Before(m, AnomalyFields(a), 8, post)
    ensures TriggerFrom(st, NO_TRIGGER) == TriggerFrom(m, ShowCpu(a))
  {
    hide AnomalyFields, IsName, Before, Clean, TriggerFrom, IsTriggerKey, SetTrigger, TypeName, TypeDescription, DecOf, GetInt,
         Strtod, AsI32, Seen, Hundredths, RoundInt, Truncate;
    CpuPart(a);
    CpuNames();
    OtherCpuKeys();
    var fs := AnomalyFields(a);
    m := TriggerBlame(st, a, post);
    var t := ShowBlame(a);
    m := TriggerField(m, fs, 4, post, t);
    KeyCpuPct(t, m.str, m.num);
    ShowDec(m, a.spikeCpuPct);
    t := t.(cpuPct := ShownDec(a.spikeCpuPct));
    m := TriggerField(m, fs, 5, post, t);
    KeyBaselinePct(t, m.str, m.num);
    ShowDec(m, a.spikeBaselinePct);
    t := t.(baselinePct := ShownDec(a.spikeBaselinePct));
    m := TriggerField(m, fs, 6, post, t);
    KeyDeltaPct(t, m.str, m.num);
    ShowDec(m, a.spikeDelta);
    t := t.(deltaPct := ShownDec(a.spikeDelta));
    m := TriggerField(m, fs, 7, post, t);
  }

  lemma OtherCpuKeys()
    ensures !IsTriggerKey("type_description") && !IsTriggerKey("is_new_process")
  {
  }

  lemma ShownType(a: Anomaly)
    ensures Truncate(Seen(TypeName(a.kind)), 31) == TypeName(a.kind)
  {
    SeenIsIdentity(TypeName(a.kind));
    hide Seen;
    assert Lossless(TypeName(a.kind));
  }

  /** With the memory part added, and then the swap part. */
  function ShowMem(a: Anomaly): Trigger {
    ShowCpu(a).(
      memAvailableKib := ShownInt(a.memAvailableKib), memBaselineKib := ShownInt(a.memBaselineKib),
      memDeltaKib := ShownInt(a.memDeltaKib), memUsedPct := ShownDec(a.memUsedPct))
  }

  function ShowTrigger(a: Anomaly): Trigger {
    ShowMem(a).(
      swapUsedKib := ShownInt(a.swapUsedKib), swapBaselineKib := ShownInt(a.swapBaselineKib),
      swapDeltaKib := ShownInt(a.swapDeltaKib))
  }

  lemma MemPart(a: Anomaly)
    ensures var fs := AnomalyFields(a);
            && |fs| == 23
            && fs[8] == ("mem_available_kib", Int(a.memAvailableKib))
            && fs[9] == ("mem_baseline_kib", Int(a.memBaselineKib))
            && fs[10] == ("mem_delta_kib", Int(a.memDeltaKib))
            && fs[11] == ("mem_used_pct", DecOf(a.memUsedPct))
            && fs[12] == ("mem_available_mib", Int(KibToMib(a.memAvailableKib)))
            && fs[13] == ("mem_baseline_mib", Int(KibToMib(a.memBaselineKib)))
            && fs[14] == ("mem_delta_mib", Int(MibDelta(a.memDeltaKib)))
  {
    hide TypeName, TypeDescription, DecOf, KibToMib, MibDelta, MembersOf, PolicyFields;
  }

  lemma MemNames()
    ensures IsName("mem_available_kib") && IsName("mem_baseline_kib") && IsName("mem_delta_kib")
    ensures IsName("mem_used_pct")
    ensures IsName("mem_available_mib") && IsName("mem_baseline_mib") && IsName("mem_delta_mib")
  {
  }

  lemma OtherMemKeys()
    ensures !IsTriggerKey("mem_available_mib") && !IsTriggerKey("mem_baseline_mib") && !IsTriggerKey("mem_delta_mib")
  {
  }

  lemma TriggerMem(st: State, a: Anomaly, post: string) returns (m: State)
    requires Before(st, AnomalyFields(a), 8, post)
    ensures Before(m, AnomalyFields(a), 15, post)
    ensures TriggerFrom(st, ShowCpu(a)) == TriggerFrom(m, ShowMem(a))
  {
    MemPart(a);
    MemNames();
    OtherMemKeys();
    hide AnomalyFields, IsName, Before, Clean, TriggerFrom, IsTriggerKey, SetTrigger, TypeName, DecOf, GetInt,
         Strtod, AsI32, Seen, Hundredths, RoundInt, Truncate, KibToMib, MibDelta, ShowCpu;
    var fs := AnomalyFields(a);
    var t := ShowCpu(a);
    m := TriggerField(st, fs, 8, post, t);
    KeyMemAvailable(t, m.str, m.num);
    ShowInt(m, a.memAvailableKib);
    t := t.(memAvailableKib := ShownInt(a.memAvailableKib));
    m := TriggerField(m, fs, 9, post, t);
    KeyMemBaseline(t, m.str, m.num);
    ShowInt(m, a.memBaselineKib);
    t := t.(memBaselineKib := ShownInt(a.memBaselineKib));
    m := TriggerField(m, fs, 10, post, t);
    KeyMemDelta(t, m.str, m.num);
    ShowInt(m, a.memDeltaKib);
    t := t.(memDeltaKib := ShownInt(a.memDeltaKib));
    m := TriggerField(m, fs, 11, post, t);
    KeyMemUsed(t, m.str, m.num);
    ShowDec(m, a.memUsedPct);
    t := t.(memUsedPct := ShownDec(a.memUsedPct));
    m := TriggerField(m, fs, 12, post, t);
    m := TriggerField(m, fs, 13, post, t);
    m := TriggerField(m, fs, 14, post, t);
  }

  lemma SwapPart(a: Anomaly)
    ensures var fs := AnomalyFields(a);
            && |fs| == 23
            && fs[15] == ("swap_used_kib", Int(a.swapUsedKib))
            && fs[16] == ("swap_baseline_kib", Int(a.swapBaselineKib))
            && fs[17] == ("swap_delta_kib", Int(a.swapDeltaKib))
            && fs[18] == ("swap_used_mib", Int(KibToMib(a.swapUsedKib)))
            && fs[19] == ("swap_baseline_mib", Int(KibToMib(a.swapBaselineKib)))
            && fs[20] == ("swap_delta_mib", Int(MibDelta(a.swapDeltaKib)))
            && fs[21] == ("policy", Obj(MembersOf(PolicyFields(a))))
            && fs[22] == ("origin_snapshot_index", Int(a.originSnapshotIdx))
  {
    hide TypeName, TypeDescription, DecOf, KibToMib, MibDelta, MembersOf, PolicyFields;
  }

  lemma SwapNames()
    ensures IsName("swap_used_kib") && IsName("swap_baseline_kib") && IsName("swap_delta_kib")
    ensures IsName("swap_used_mib") && IsName("swap_baseline_mib") && IsName("swap_delta_mib")
  {
  }

  lemma PolicyNames()
    ensures IsName("policy") && IsName("origin_snapshot_index")
    ensures IsName("scope") && IsName("scope_key") && IsName("description")
  {
  }

  lemma OtherSwapKeys()
    ensures !IsTriggerKey("swap_used_mib") && !IsTriggerKey("swap_baseline_mib") && !IsTriggerKey("swap_delta_mib")
  {
  }

  lemma PolicyKeys()
    ensures !IsTriggerKey("policy") && !IsTriggerKey("scope") && !IsTriggerKey("scope_key") && !IsTriggerKey("description")
  {
  }

  lemma TriggerSwap(st: State, a: Anomaly, post: string) returns (m: State)
    requires Before(st, AnomalyFields(a), 15, post)
    ensures Before(m, AnomalyFields(a), 21, post)
    ensures TriggerFrom(st, ShowMem(a)) == TriggerFrom(m, ShowTrigger(a))
  {
    SwapPart(a);
    SwapNames();
    OtherSwapKeys();
    hide AnomalyFields, IsName, Before, Clean, TriggerFrom, IsTriggerKey, SetTrigger, TypeName, DecOf, GetInt,
         Strtod, AsI32, Seen, Hundredths, RoundInt, Truncate, KibToMib, MibDelta, ShowMem, MembersOf;
    var fs := AnomalyFields(a);
    var t := ShowMem(a);
    m := TriggerField(st, fs, 15, post, t);
    KeySwapUsed(t, m.str, m.num);
    ShowInt(m, a.swapUsedKib);
    t := t.(swapUsedKib := ShownInt(a.swapUsedKib));
    m := TriggerField(m, fs, 16, post, t);
    KeySwapBaseline(t, m.str, m.num);
    ShowInt(m, a.swapBaselineKib);
    t := t.(swapBaselineKib := ShownInt(a.swapBaselineKib));
    m := TriggerField(m, fs, 17, post, t);
    KeySwapDelta(t, m.str, m.num);
    ShowInt(m, a.swapDeltaKib);
    t := t.(swapDeltaKib := ShownInt(a.swapDeltaKib));
    m := TriggerField(m, fs, 18, post, t);
    m := TriggerField(m, fs, 19, post, t);
    m := TriggerField(m, fs, 20, post, t);
  }

  /** Reading the opening bracket of an object, an array, and their closing ones. */
  lemma ReadObject(st: State, lead: string, fs: Fields, tail: string)
    requires IsLead(lead) && st.rest == lead + Print(Obj(MembersOf(fs))) + tail
    ensures Next(st).kind.KObjectStart? && Next(st).rest == At(fs, 0, "}" + tail)
  {
    var body := PrintMembers(MembersOf(fs), false);
    RegroupBrackets(lead, "{", body, "}", tail);
    LexLead(lead, "{" + (body + ("}" + tail)));
    LexBracket('{', body + ("}" + tail));
    assert fs[0..] == fs;
  }

  lemma ReadArray(st: State, lead: string, es: Items, tail: string)
    requires IsLead(lead) && st.rest == lead + Print(Arr(es)) + tail
    ensures Next(st).kind.KArrayStart? && Next(st).rest == PrintItems(es, false) + ("]" + tail)
  {
    var body := PrintItems(es, false);
    RegroupBrackets(lead, "[", body, "]", tail);
    LexLead(lead, "[" + (body + ("]" + tail)));
    LexBracket('[', body + ("]" + tail));
  }

  /** The trigger loop on a whole trigger: it stops at the end of the nested policy object,
      in front of the last member of the trigger. */
  lemma TriggerRead(st: State, a: Anomaly, post: string) returns (m: State)
    requires Before(st, AnomalyFields(a), 0, post)
    ensures Before(m, AnomalyFields(a), 22, post)
    ensures TriggerFrom(st, NO_TRIGGER) == (m, ShowTrigger(a))
  {
    m := TriggerCpu(st, a, post);
    m := TriggerMem(m, a, post);
    m := TriggerSwap(m, a, post);
    m := TriggerPolicy(m, a, post, ShowTrigger(a));
  }

  lemma TriggerPolicy(st: State, a: Anomaly, post: string, t: Trigger) returns (m: State)
    requires Before(st, AnomalyFields(a), 21, post)
    ensures Before(m, AnomalyFields(a), 22, post)
    ensures TriggerFrom(st, t) == (m, t)
  {
    SwapPart(a);
    PolicyNames();
    PolicyKeys();
    hide AnomalyFields, IsName, At, Clean, TriggerFrom, IsTriggerKey, SetTrigger, Print, MembersOf;
    var tail := At(AnomalyFields(a), 22, post);
    var n := Next(st);
    ReadKey(st, AnomalyFields(a), 21, post);
    CleanNext(st);
    CleanNext(Next(st));
    TriggerRound(st, t, n);
    EndsAt(AnomalyFields(a), 22, post);
    m := Next(n);
    ReadObject(n, ":", PolicyFields(a), tail);
    CleanNext(Next(n));
    TriggerRound(n, t, m);
    m := TriggerScope(m, a, "}" + tail, t);
    var last := m;
    m := Next(last);
    NextClosing(last, '}', tail);
    CleanNext(last);
    TriggerRound(last, t, m);
  }

  lemma TriggerScope(st: State, a: Anomaly, post: string, t: Trigger) returns (m: State)
    requires Before(st, PolicyFields(a), 0, post)
    ensures Clean(m.rest) && m.rest == post
    ensures TriggerFrom(st, t) == TriggerFrom(m, t)
  {
    PolicyNames();
    PolicyKeys();
    ShortTexts(a);
    AtEnd(PolicyFields(a), post);
    hide IsName, At, Clean, TriggerFrom, IsTriggerKey, SetTrigger, ScopeName, ScopeDescription, Seen;
    var fs := PolicyFields(a);
    m := TriggerField(st, fs, 0, post, t);
    m := TriggerField(m, fs, 1, post, t);
    m := TriggerField(m, fs, 2, post, t);
  }

  // ----- process lists -----

  lemma ProcKeyPid(p: Proc, s: string, n: string)
    ensures IsProcKey("pid") && SetProc(p, "pid", s, n) == p.(pid := AsI32(GetInt(n)))
  {
    hide GetInt, Strtod, AsI32, AsU32, Truncate;
  }

  lemma ProcKeyPpid(p: Proc, s: string, n: string)
    ensures IsProcKey("ppid") && SetProc(p, "ppid", s, n) == p.(ppid := AsI32(GetInt(n)))
  {
    hide GetInt, Strtod, AsI32, AsU32, Truncate;
  }

  lemma ProcKeyUid(p: Proc, s: string, n: string)
    ensures IsProcKey("uid") && SetProc(p, "uid", s, n) == p.(uid := AsU32(GetInt(n)))
  {
    hide GetInt, Strtod, AsI32, AsU32, Truncate;
  }

  lemma ProcKeyState(p: Proc, s: string, n: string)
    ensures IsProcKey("state") && SetProc(p, "state", s, n) == p.(state := if s != "" then s[0] else '?')
  {
    hide GetInt, Strtod, AsI32, AsU32, Truncate;
  }

  lemma ProcKeyComm(p: Proc, s: string, n: string)
    ensures IsProcKey("comm") && SetProc(p, "comm", s, n) == p.(comm := Truncate(s, 15))
  {
    hide GetInt, Strtod, AsI32, AsU32, Truncate;
  }

  lemma ProcKeyCmdline(p: Proc, s: string, n: string)
    ensures IsProcKey("cmdline") && SetProc(p, "cmdline", s, n) == p.(cmdline := Truncate(s, 255))
  {
    hide GetInt, Strtod, AsI32, AsU32, Truncate;
  }

  lemma ProcKeyCpu(p: Proc, s: string, n: string)
    ensures IsProcKey("cpu_pct") && SetProc(p, "cpu_pct", s, n) == p.(cpuPct := Strtod(n))
  {
    hide GetInt, Strtod, AsI32, AsU32, Truncate;
  }

  lemma ProcKeyRss(p: Proc, s: string, n: string)
    ensures IsProcKey("rss_kib") && SetProc(p, "rss_kib", s, n) == p.(rssKib := GetInt(n))
  {
    hide GetInt, Strtod, AsI32, AsU32, Truncate;
  }

  /** The first character read of the state string; a question mark when there is none. */
  function ShowState(state: char): char {
    var s := Seen(OneChar(state));
    if s != "" then s[0] else '?'
  }

  /** What the viewer shows of a process entry. */
  function ShowProc(e: ProcEntry): Proc {
    Proc(e.pid, e.ppid, e.uid, ShowState(e.state),
         Truncate(Seen(e.comm), 15), Truncate(Seen(e.cmdline), 255),
         ShownDec(e.cpuPct), ShownInt(e.rssKib))
  }

  function ShowProcs(es: seq<ProcEntry>): (ps: seq<Proc>)
    ensures |ps| == |es|
  {
    if es == [] then [] else [ShowProc(es[0])] + ShowProcs(es[1..])
  }

  lemma ProcField(st: State, fs: Fields, i: nat, post: string, p: Proc) returns (m: State)
    requires PlainField(fs, i) && Before(st, fs, i, post)
    ensures Before(m, fs, i + 1, post) && Carries(m, fs[i].1)
    ensures ProcFrom(st, p) == ProcFrom(m, if IsProcKey(fs[i].0) then SetProc(p, fs[i].0, m.str, m.num) else p)
  {
    hide At, Print, Lex, Clean, ProcFrom, IsProcKey, SetProc, Readable, IsName;
    var n := Next(st);
    ReadKey(st, fs, i, post);
    CleanNext(st);
    CleanNext(Next(st));
    ProcRound(st, p, n);
    EndsAt(fs, i + 1, post);
    m := Next(n);
    ReadScalar(n, fs[i].1, At(fs, i + 1, post));
    assert Skip(m) == Skipped(true, m);
  }

  lemma ProcPart(e: ProcEntry)
    ensures var fs := ProcFields(e);
            && |fs| == 9
            && fs[0] == ("pid", Int(e.pid))
            && fs[1] == ("ppid", Int(e.ppid))
            && fs[2] == ("uid", Int(e.uid))
            && fs[3] == ("state", Str(OneChar(e.state)))
            && fs[4] == ("comm", Str(e.comm))
            && fs[5] == ("cmdline", Str(e.cmdline))
            && fs[6] == ("cpu_pct", DecOf(e.cpuPct))
            && fs[7] == ("rss_kib", Int(e.rssKib))
            && fs[8] == ("rss_mib", Int(KibToMib(e.rssKib)))
  {
    hide DecOf, KibToMib, OneChar;
  }

  lemma ProcNames()
    ensures IsName("pid") && IsName("ppid") && IsName("uid") && IsName("state") && IsName("comm")
    ensures IsName("cmdline") && IsName("cpu_pct") && IsName("rss_kib") && IsName("rss_mib")
    ensures !IsProcKey("rss_mib")
  {
  }

  /** The numbers that identify an entry, and then its state, as the viewer shows them. */
  function ShowIds(e: ProcEntry): Proc {
    NO_PROC.(pid := e.pid, ppid := e.ppid, uid := e.uid)
  }

  function ShowIdsAndState(e: ProcEntry): Proc {
    ShowIds(e).(state := ShowState(e.state))
  }

  lemma ProcIds(st: State, e: ProcEntry, post: string) returns (m: State)
    requires Before(st, ProcFields(e), 0, post)
    ensures Before(m, ProcFields(e), 3, post)
    ensures ProcFrom(st, NO_PROC) == ProcFrom(m, ShowIds(e))
  {
    ProcPart(e);
    ProcNames();
    hide ProcFields, IsName, Before, Clean, ProcFrom, IsProcKey, SetProc, DecOf, GetInt, AsI32, AsU32,
         KibToMib, OneChar, Lex, MembersOf;
    var fs := ProcFields(e);
    var p := NO_PROC;
    m := ProcField(st, fs, 0, post, p);
    ProcKeyPid(p, m.str, m.num);
    ShowI32(m, e.pid);
    p := p.(pid := e.pid);
    m := ProcField(m, fs, 1, post, p);
    ProcKeyPpid(p, m.str, m.num);
    ShowI32(m, e.ppid);
    p := p.(ppid := e.ppid);
    m := ProcField(m, fs, 2, post, p);
    ProcKeyUid(p, m.str, m.num);
    ShowU32(m, e.uid);
  }

  lemma ProcState(st: State, e: ProcEntry, post: string) returns (m: State)
    requires Before(st, ProcFields(e), 3, post)
    ensures Before(m, ProcFields(e), 4, post)
    ensures ProcFrom(st, ShowIds(e)) == ProcFrom(m, ShowIdsAndState(e))
  {
    ProcPart(e);
    ProcNames();
    SeenLength(OneChar(e.state));
    assert |OneChar(e.state)| <= 1;
    hide ProcFields, IsName, Before, Clean, ProcFrom, IsProcKey, SetProc, DecOf, KibToMib, OneChar, Lex,
         MembersOf, Seen, ShowIds;
    m := ProcField(st, ProcFields(e), 3, post, ShowIds(e));
    ProcKeyState(ShowIds(e), m.str, m.num);
  }

  lemma ProcUsage(st: State, e: ProcEntry, post: string) returns (m: State)
    requires ReadableProc(e) && Before(st, ProcFields(e), 4, post)
    ensures Clean(m.rest) && m.rest == post
    ensures ProcFrom(st, ShowIdsAndState(e)) == ProcFrom(m, ShowProc(e))
  {
    ProcPart(e);
    ProcNames();
    AtEnd(ProcFields(e), post);
    SeenLength(e.comm);
    hide ProcFields, IsName, At, Clean, ProcFrom, IsProcKey, SetProc, DecOf, GetInt, Strtod,
         Seen, Hundredths, RoundInt, Truncate, KibToMib, OneChar, Lex, MembersOf;
    var fs := ProcFields(e);
    var p := ShowIdsAndState(e);
    m := ProcField(st, fs, 4, post, p);
    ProcKeyComm(p, m.str, m.num);
    p := p.(comm := Truncate(Seen(e.comm), 15));
    m := ProcField(m, fs, 5, post, p);
    ProcKeyCmdline(p, m.str, m.num);
    p := p.(cmdline := Truncate(Seen(e.cmdline), 255));
    m := ProcField(m, fs, 6, post, p);
    ProcKeyCpu(p, m.str, m.num);
    ShowDec(m, e.cpuPct);
    p := p.(cpuPct := ShownDec(e.cpuPct));
    m := ProcField(m, fs, 7, post, p);
    ProcKeyRss(p, m.str, m.num);
    ShowInt(m, e.rssKib);
    p := p.(rssKib := ShownInt(e.rssKib));
    m := ProcField(m, fs, 8, post, p);
  }

  /** The entry loop on a whole entry, up to and over its closing brace. */
  lemma ProcRead(st: State, e: ProcEntry, post: string) returns (m: State)
    requires ReadableProc(e) && Ends(post) && Before(st, ProcFields(e), 0, "}" + post)
    ensures Clean(m.rest) && m.rest == post
    ensures ProcFrom(st, NO_PROC) == (m, ShowProc(e))
  {
    hide ProcFields, At, Clean, ProcFrom, ShowIds, ShowIdsAndState, ShowProc, Lex;
    m := ProcIds(st, e, "}" + post);
    m := ProcState(m, e, "}" + post);
    var last := ProcUsage(m, e, "}" + post);
    m := Next(last);
    NextClosing(last, '}', post);
    CleanNext(last);
    ProcRound(last, ShowProc(e), m);
  }

  /** The array loop on a whole process list, up to and over its closing bracket. */
  lemma {:induction false} ProcsRead(st: State, es: seq<ProcEntry>, comma: bool, post: string, done: seq<Proc>)
    returns (m: State)
    requires |done| + |es| <= DumpViewer.MAX_PROCS && forall e :: e in es ==> ReadableProc(e)
    requires Ends(post) && Clean(st.rest) && st.rest == PrintItems(ProcItems(es), comma) + ("]" + post)
    ensures Clean(m.rest) && m.rest == post
    ensures ProcsFrom(st, done) == (m, done + ShowProcs(es))
    decreases |es|
  {
    hide At, Clean, ProcsFrom, ProcFrom, ShowProc, ReadableProc, ProcFields, Print, Lex;
    if es == [] {
      m := NoProcRead(st, comma, post, done);
    } else {
      m := OneProcRead(st, es[0], ProcItems(es[1..]), comma, post, done);
      m := ProcsRead(m, es[1..], true, post, done + [ShowProc(es[0])]);
      OneMoreShown(done, ShowProc(es[0]), ShowProcs(es[1..]));
    }
  }

  lemma OneMoreShown(done: seq<Proc>, p: Proc, rest: seq<Proc>)
    ensures done + [p] + rest == done + ([p] + rest)
  {
  }

  lemma NoProcRead(st: State, comma: bool, post: string, done: seq<Proc>) returns (m: State)
    requires Ends(post) && Clean(st.rest) && st.rest == PrintItems(ProcItems([]), comma) + ("]" + post)
    ensures Clean(m.rest) && m.rest == post
    ensures ProcsFrom(st, done) == (m, done + ShowProcs([]))
  {
    hide Clean, ProcsFrom, ProcFrom, Lex;
    assert PrintItems(ProcItems([]), comma) + ("]" + post) == "]" + post;
    CleanNext(st);
    m := Next(st);
    NextClosing(st, ']', post);
    ProcsRound(st, done, m);
    assert done + ShowProcs([]) == done;
  }

  lemma OneProcRead(st: State, e: ProcEntry, rest: Items, comma: bool, post: string, done: seq<Proc>)
    returns (m: State)
    requires |done| < DumpViewer.MAX_PROCS && ReadableProc(e)
    requires Ends(post) && Clean(st.rest) && st.rest == PrintItems(Item(ProcTree(e), rest), comma) + ("]" + post)
    ensures Clean(m.rest) && m.rest == PrintItems(rest, true) + ("]" + post)
    ensures ProcsFrom(st, done) == ProcsFrom(m, done + [ShowProc(e)])
  {
    hide At, Clean, ProcsFrom, ProcFrom, ShowProc, ReadableProc, ProcFields, Print, Lex;
    var after := PrintItems(rest, true) + ("]" + post);
    Regroup3(Lead(comma) + Print(ProcTree(e)), PrintItems(rest, true), "]" + post);
    EndsItems(rest, "]" + post);
    m := Next(st);
    ReadObject(st, Lead(comma), ProcFields(e), after);
    CleanNext(st);
    ProcsRound(st, done, m);
    m := ProcRead(m, e, after);
  }

  lemma EndsItems(es: Items, post: string)
    requires Ends(post)
    ensures Ends(PrintItems(es, true) + post)
  {
    if es.NoItems? {
      assert PrintItems(es, true) + post == post;
    }
  }

  // ----- the first snapshot -----

  lemma SkippedField(st: State, fs: Fields, i: nat, post: string, s: Summary) returns (m: State)
    requires i < |fs| && IsName(fs[i].0) && Readable(fs[i].1) && Before(st, fs, i, post)
    requires fs[i].0 != "procs" && fs[i].0 != "top_rss_procs"
    ensures Before(m, fs, i + 1, post)
    ensures FirstSnapshotFrom(st, s) == FirstSnapshotFrom(m, s)
  {
    hide At, Print, Lex, Clean, FirstSnapshotFrom, ProcsFrom, Readable, IsName, Skip;
    var n := Next(st);
    ReadKey(st, fs, i, post);
    CleanNext(st);
    CleanNext(Next(st));
    FirstSnapshotRound(st, s, n);
    EndsAt(fs, i + 1, post);
    SkipExact(n, fs[i].1, ":", At(fs, i + 1, post));
    m := Skip(Next(n)).st;
    CleanSkip(Next(n));
  }

  lemma ProcsField(st: State, fs: Fields, i: nat, es: seq<ProcEntry>, post: string, s: Summary) returns (m: State)
    requires i < |fs| && IsName(fs[i].0) && Before(st, fs, i, post)
    requires fs[i].0 == "procs" || fs[i].0 == "top_rss_procs"
    requires fs[i].1 == Arr(ProcItems(es)) && |es| <= DumpViewer.MAX_PROCS && forall e :: e in es ==> ReadableProc(e)
    ensures Before(m, fs, i + 1, post)
    ensures FirstSnapshotFrom(st, s) ==
            FirstSnapshotFrom(m, if fs[i].0 == "procs" then s.(cpuProcs := ShowProcs(es))
                                 else s.(rssProcs := ShowProcs(es)))
  {
    hide At, Print, Lex, Clean, FirstSnapshotFrom, ProcsFrom, Readable, IsName, Skip, ReadableProc, ProcItems;
    var n := Next(st);
    ReadKey(st, fs, i, post);
    CleanNext(st);
    CleanNext(Next(st));
    FirstSnapshotRound(st, s, n);
    EndsAt(fs, i + 1, post);
    ReadArray(n, ":", ProcItems(es), At(fs, i + 1, post));
    m := ProcsRead(Next(n), es, false, At(fs, i + 1, post), []);
    assert [] + ShowProcs(es) == ShowProcs(es);
  }

  lemma SnapshotNames()
    ensures IsName("timestamp_ns") && IsName("uptime_seconds") && IsName("offset_seconds")
    ensures IsName("cpu") && IsName("mem") && IsName("procs") && IsName("top_rss_procs")
  {
  }

  lemma SnapshotPart(s: Snapshot, triggerNs: u64)
    ensures var fs := SnapshotFields(s, triggerNs);
            && |fs| == 7
            && fs[0].0 == "timestamp_ns" && fs[1].0 == "uptime_seconds" && fs[2].0 == "offset_seconds"
            && fs[0].1.Int? && fs[1].1.Dec? && fs[2].1.Dec?
            && fs[3] == ("cpu", Obj(MembersOf(CpuFields(s.cpu))))
            && fs[4] == ("mem", Obj(MembersOf(MemFields(s.mem))))
            && fs[5] == ("procs", Arr(ProcItems(s.procs)))
            && fs[6] == ("top_rss_procs", Arr(ProcItems(s.topRss)))
  {
    hide MembersOf, CpuFields, MemFields, ProcItems;
  }

  /** The first-snapshot loop, up to and over the closing brace of the snapshot. */
  lemma FirstSnapshotRead(st: State, snap: Snapshot, triggerNs: u64, post: string, s: Summary) returns (m: State)
    requires ReadableSnapshot(snap) && Ends(post) && Before(st, SnapshotFields(snap, triggerNs), 0, "}" + post)
    ensures Clean(m.rest) && m.rest == post
    ensures FirstSnapshotFrom(st, s) ==
            (m, s.(cpuProcs := ShowProcs(snap.procs), rssProcs := ShowProcs(snap.topRss)))
  {
    SnapshotPart(snap, triggerNs);
    SnapshotNames();
    ReadableCpu(snap.cpu);
    ReadableMemExactly(snap.mem);
    AtEnd(SnapshotFields(snap, triggerNs), "}" + post);
    hide SnapshotFields, At, Clean, FirstSnapshotFrom, MembersOf, CpuFields, MemFields, ProcItems,
         ReadableProc, IsName, Lex;
    var fs, post' := SnapshotFields(snap, triggerNs), "}" + post;
    m := SkippedField(st, fs, 0, post', s);
    m := SkippedField(m, fs, 1, post', s);
    m := SkippedField(m, fs, 2, post', s);
    m := SkippedField(m, fs, 3, post', s);
    m := SkippedField(m, fs, 4, post', s);
    m := ProcsField(m, fs, 5, snap.procs, post', s);
    var s := s.(cpuProcs := ShowProcs(snap.procs));
    m := ProcsField(m, fs, 6, snap.topRss, post', s);
    var last := m;
    m := Next(last);
    NextClosing(last, '}', post);
    CleanNext(last);
    CleanNext(Next(last));
    FirstSnapshotRound(last, s.(rssProcs := ShowProcs(snap.topRss)), m);
  }

  // ----- the rest of the document has none of the keys the main loop looks for -----

  predicate IsTopKey(key: string) {
    key == "dump_timestamp_ns" || key == "trigger" || key == "snapshots"
  }

  predicate Quiet(ts: Tokens) {
    ts.Cons? ==> (ts.head.Key? ==> !IsTopKey(Truncate(ts.head.key, MAX_KEY - 1))) && Quiet(ts.tail)
  }

  predicate QuietTree(t: Tree) {
    match t
    case Obj(ms) => QuietMembers(ms)
    case Arr(es) => QuietItems(es)
    case _ => true
  }

  predicate QuietMembers(ms: Members) {
    match ms
    case NoMembers => true
    case Member(k, v, rest) => IsName(k) && !IsTopKey(k) && QuietTree(v) && QuietMembers(rest)
  }

  predicate QuietItems(es: Items) {
    match es
    case NoItems => true
    case Item(v, rest) => QuietTree(v) && QuietItems(rest)
  }

  lemma {:induction false} QuietTokens(t: Tree, k: Tokens)
    requires QuietTree(t) && Quiet(k)
    ensures Quiet(TokensOf(t, k))
  {
    hide IsTopKey;
    match t
    case Obj(ms) => QuietMemberTokens(ms, Cons(ObjectEnd, k));
    case Arr(es) => QuietItemTokens(es, Cons(ArrayEnd, k));
    case _ =>
  }

  lemma {:induction false} QuietMemberTokens(ms: Members, k: Tokens)
    requires QuietMembers(ms) && Quiet(k)
    ensures Quiet(MemberTokens(ms, k))
  {
    hide IsTopKey;
    match ms
    case NoMembers =>
    case Member(key, v, rest) =>
      NameIsSeen(key);
      QuietMemberTokens(rest, k);
      QuietTokens(v, MemberTokens(rest, k));
  }

  lemma {:induction false} QuietItemTokens(es: Items, k: Tokens)
    requires QuietItems(es) && Quiet(k)
    ensures Quiet(ItemTokens(es, k))
  {
    match es
    case NoItems =>
    case Item(v, rest) =>
      QuietItemTokens(rest, k);
      QuietTokens(v, ItemTokens(rest, k));
  }

  ghost predicate QuietFields(fs: Fields) {
    forall i :: 0 <= i < |fs| ==> IsName(fs[i].0) && !IsTopKey(fs[i].0) && QuietTree(fs[i].1)
  }

  lemma {:induction false} QuietMembersOf(fs: Fields)
    requires QuietFields(fs)
    ensures QuietMembers(MembersOf(fs))
  {
    hide IsTopKey, IsName;
    if fs != [] {
      assert forall i :: 0 <= i < |fs[1..]| ==> fs[1..][i] == fs[i + 1];
      QuietMembersOf(fs[1..]);
    }
  }

  /** One token of a quiet text leaves the rest quiet. */
  lemma QuietNext(st: State)
    requires Clean(st.rest) && Quiet(Stream(st.rest))
    ensures Quiet(Stream(Next(st).rest))
    ensures Next(st).kind.KKey? ==> !IsTopKey(Next(st).key)
  {
    hide IsTopKey;
    var l := Lex(st.rest);
    assert Stream(st.rest) == if l.token.Eof? then End
                              else if |l.rest| == |st.rest| then Stuck
                              else Cons(l.token, Stream(l.rest));
    if l.token.Eof? {
      assert Lex("").token.Eof?;
    }
  }

  lemma QuietSummary(st: State, s: Summary)
    requires Clean(st.rest) && Quiet(Stream(st.rest))
    ensures SummaryFrom(st, s) == s
    decreases |st.rest|
  {
    hide Lex, Clean, Quiet, Stream;
    QuietNext(st);
    CleanNext(st);
    CleanNext(Next(st));
    SummaryRound(st, s, Next(st));
    if !Next(st).kind.KEof? {
      QuietSummary(Next(st), s);
    }
  }

  lemma QuietSnapshots(st: State, s: Summary)
    requires Clean(st.rest) && Quiet(Stream(st.rest)) && s.gotFirst
    ensures var r := SnapshotsFrom(st, s);
            r.1 == s && Clean(r.0.rest) && Quiet(Stream(r.0.rest))
    decreases |st.rest|
  {
    hide Lex, Clean, Quiet, Stream;
    QuietNext(st);
    CleanNext(st);
    CleanNext(Next(st));
    SnapshotsRound(st, s, Next(st));
    if !Next(st).kind.KArrayEnd? && !Next(st).kind.KEof? {
      QuietSnapshots(Next(st), s);
    }
  }

  lemma QuietAppend(a: Fields, b: Fields)
    requires QuietFields(a) && QuietFields(b)
    ensures QuietFields(a + b)
  {
    hide IsName, IsTopKey;
  }

  lemma QuietMemKib(m: MemSnapshot)
    ensures QuietFields(MemKibFields(m))
  {
    KibNames();
    KibKeys();
    hide IsName, IsTopKey;
  }

  lemma KibNames()
    ensures IsName("total_kib") && IsName("available_kib") && IsName("free_kib") && IsName("swap_total_kib")
    ensures IsName("swap_free_kib") && IsName("active_kib") && IsName("inactive_kib") && IsName("dirty_kib")
    ensures IsName("slab_kib") && IsName("shmem_kib")
  {
  }

  lemma KibKeys()
    ensures !IsTopKey("total_kib") && !IsTopKey("available_kib") && !IsTopKey("free_kib")
    ensures !IsTopKey("swap_total_kib") && !IsTopKey("swap_free_kib") && !IsTopKey("active_kib")
    ensures !IsTopKey("inactive_kib") && !IsTopKey("dirty_kib") && !IsTopKey("slab_kib")
    ensures !IsTopKey("shmem_kib")
  {
  }

  lemma MibNames()
    ensures IsName("total_mib") && IsName("available_mib") && IsName("free_mib") && IsName("swap_total_mib")
    ensures IsName("swap_free_mib") && IsName("swap_used_mib") && IsName("active_mib") && IsName("inactive_mib")
    ensures IsName("dirty_mib") && IsName("slab_mib") && IsName("shmem_mib") && IsName("used_pct")
  {
  }

  lemma MibKeys()
    ensures !IsTopKey("total_mib") && !IsTopKey("available_mib") && !IsTopKey("free_mib") && !IsTopKey("swap_total_mib")
    ensures !IsTopKey("swap_free_mib") && !IsTopKey("swap_used_mib") && !IsTopKey("active_mib") && !IsTopKey("inactive_mib")
    ensures !IsTopKey("dirty_mib") && !IsTopKey("slab_mib") && !IsTopKey("shmem_mib") && !IsTopKey("used_pct")
  {
  }

  lemma QuietMemMib(m: MemSnapshot)
    ensures QuietFields(MemMibFields(m))
  {
    MibNames();
    MibKeys();
    hide IsName, IsTopKey, KibToMib, SubU64, DecOf;
  }

  lemma QuietProc(e: ProcEntry)
    ensures QuietTree(ProcTree(e))
  {
    ProcPart(e);
    ProcNames();
    assert QuietFields(ProcFields(e)) by {
      hide ProcFields, IsName, KibToMib, DecOf;
    }
    hide ProcFields, MembersOf;
    QuietMembersOf(ProcFields(e));
  }

  lemma {:induction false} QuietProcs(es: seq<ProcEntry>)
    ensures QuietItems(ProcItems(es))
  {
    hide ProcTree;
    if es != [] {
      QuietProc(es[0]);
      QuietProcs(es[1..]);
    }
  }

  lemma {:induction false} QuietNumbers(xs: seq<measure>)
    ensures QuietItems(NumberItems(xs))
  {
    hide DecOf;
    if xs != [] {
      QuietNumbers(xs[1..]);
    }
  }

  lemma QuietCpu(c: CpuSnapshot)
    ensures QuietTree(Obj(MembersOf(CpuFields(c))))
  {
    QuietNumbers(c.perCorePct);
    hide MembersOf, NumberItems, DecOf;
    QuietMembersOf(CpuFields(c));
  }

  lemma QuietMem(m: MemSnapshot)
    ensures QuietTree(Obj(MembersOf(MemFields(m))))
  {
    hide MembersOf, MemKibFields, MemMibFields;
    QuietMemKib(m);
    QuietMemMib(m);
    QuietAppend(MemKibFields(m), MemMibFields(m));
    QuietMembersOf(MemFields(m));
  }

  lemma QuietSnapshotTree(s: Snapshot, triggerNs: u64)
    ensures QuietTree(SnapshotTree(s, triggerNs))
  {
    SnapshotPart(s, triggerNs);
    SnapshotNames();
    QuietCpu(s.cpu);
    QuietMem(s.mem);
    QuietProcs(s.procs);
    QuietProcs(s.topRss);
    hide SnapshotFields, IsName, MembersOf, CpuFields, MemFields, ProcItems;
    QuietMembersOf(SnapshotFields(s, triggerNs));
  }

  lemma {:induction false} QuietSnapshotItems(ss: seq<Snapshot>, triggerNs: u64)
    ensures QuietItems(SnapshotItems(ss, triggerNs))
  {
    hide SnapshotTree;
    if ss != [] {
      QuietSnapshotTree(ss[0], triggerNs);
      QuietSnapshotItems(ss[1..], triggerNs);
    }
  }

  // ----- the whole document -----

  /** A member the main loop passes over. */
  lemma SummaryPlain(st: State, fs: Fields, i: nat, post: string, s: Summary) returns (m: State)
    requires PlainField(fs, i) && !IsTopKey(fs[i].0) && Before(st, fs, i, post)
    ensures Before(m, fs, i + 1, post)
    ensures SummaryFrom(st, s) == SummaryFrom(m, s)
  {
    hide At, Print, Lex, Clean, SummaryFrom, Readable, IsName, GetInt;
    var n := Next(st);
    ReadKey(st, fs, i, post);
    CleanNext(st);
    CleanNext(Next(st));
    SummaryRound(st, s, n);
    EndsAt(fs, i + 1, post);
    m := Next(n);
    ReadScalar(n, fs[i].1, At(fs, i + 1, post));
    CleanNext(n);
    CleanNext(Next(n));
    SummaryRound(n, s, m);
  }

  lemma SummaryTimestamp(st: State, fs: Fields, i: nat, ns: u64, post: string, s: Summary) returns (m: State)
    requires i < |fs| && fs[i] == ("dump_timestamp_ns", Int(ns)) && Before(st, fs, i, post)
    ensures Before(m, fs, i + 1, post)
    ensures SummaryFrom(st, s) == SummaryFrom(m, s.(timestampNs := ShownInt(ns)))
  {
    HeadNames();
    hide At, Print, Lex, Clean, SummaryFrom, IsName, GetInt, RoundInt;
    var n := Next(st);
    ReadKey(st, fs, i, post);
    CleanNext(st);
    CleanNext(Next(st));
    SummaryRound(st, s, n);
    EndsAt(fs, i + 1, post);
    m := Next(n);
    ReadScalar(n, fs[i].1, At(fs, i + 1, post));
    ShowInt(m, ns);
  }

  lemma HeadNames()
    ensures IsName("schema_version") && IsName("created_at")
    ensures IsName("uptime_seconds") && IsName("dump_timestamp_ns")
    ensures IsName("trigger") && IsName("snapshots")
    ensures !IsTopKey("schema_version") && !IsTopKey("created_at") && !IsTopKey("uptime_seconds")
    ensures !IsTopKey("origin_snapshot_index")
  {
  }

  lemma OriginPart(a: Anomaly)
    ensures |AnomalyFields(a)| == 23
    ensures PlainField(AnomalyFields(a), 22) && !IsTopKey(AnomalyFields(a)[22].0)
  {
    HeadNames();
    PolicyNames();
    SwapPart(a);
    hide AnomalyFields, IsName, IsTopKey;
  }

  /** The trigger member up to its last field, where the trigger loop leaves it. */
  lemma TriggerMember(st: State, fs: Fields, i: nat, a: Anomaly, post: string, s: Summary) returns (m: State)
    requires i < |fs| && fs[i] == ("trigger", AnomalyTree(a)) && Before(st, fs, i, post)
    ensures Ends(At(fs, i + 1, post)) && Before(m, AnomalyFields(a), 22, "}" + At(fs, i + 1, post))
    ensures SummaryFrom(st, s) == SummaryFrom(m, s.(trigger := ShowTrigger(a)))
  {
    HeadNames();
    hide At, Print, Lex, Clean, SummaryFrom, TriggerFrom, IsName, AnomalyFields, MembersOf, ShowTrigger, GetInt;
    var tail := At(fs, i + 1, post);
    var n := Next(st);
    ReadKey(st, fs, i, post);
    CleanNext(st);
    CleanNext(Next(st));
    SummaryRound(st, s, n);
    EndsAt(fs, i + 1, post);
    var o := Next(n);
    ReadObject(n, ":", AnomalyFields(a), tail);
    m := TriggerRead(o, a, "}" + tail);
  }

  /** The last field of the trigger, read by the main loop, and its closing brace. */
  lemma TriggerRest(st: State, a: Anomaly, tail: string, s: Summary) returns (m: State)
    requires Ends(tail) && Before(st, AnomalyFields(a), 22, "}" + tail)
    ensures Clean(m.rest) && m.rest == tail
    ensures SummaryFrom(st, s) == SummaryFrom(m, s)
  {
    OriginPart(a);
    AtEnd(AnomalyFields(a), "}" + tail);
    hide At, Clean, Lex, SummaryFrom, IsTopKey, PlainField, AnomalyFields;
    var last := SummaryPlain(st, AnomalyFields(a), 22, "}" + tail, s);
    m := Next(last);
    NextClosing(last, '}', tail);
    CleanNext(last);
    CleanNext(Next(last));
    SummaryRound(last, s, m);
  }

  lemma SummaryTrigger(st: State, fs: Fields, i: nat, a: Anomaly, post: string, s: Summary) returns (m: State)
    requires i < |fs| && fs[i] == ("trigger", AnomalyTree(a)) && Before(st, fs, i, post)
    ensures Before(m, fs, i + 1, post)
    ensures SummaryFrom(st, s) == SummaryFrom(m, s.(trigger := ShowTrigger(a)))
  {
    hide At, Clean, SummaryFrom, AnomalyFields, AnomalyTree, ShowTrigger;
    m := TriggerMember(st, fs, i, a, post, s);
    m := TriggerRest(m, a, At(fs, i + 1, post), s.(trigger := ShowTrigger(a)));
  }

  /** From the key of the snapshots array to the first token inside its first snapshot. */
  lemma SnapshotsOpen(st: State, fs: Fields, i: nat, ss: seq<Snapshot>, triggerNs: u64, post: string, s: Summary)
    returns (m: State)
    requires i + 1 == |fs| && fs[i] == ("snapshots", Arr(SnapshotItems(ss, triggerNs)))
    requires ss != [] && !s.gotFirst && Before(st, fs, i, post)
    ensures var after := PrintItems(SnapshotItems(ss[1..], triggerNs), true) + ("]" + post);
            Clean(m.rest) && m.rest == At(SnapshotFields(ss[0], triggerNs), 0, "}" + after)
    ensures SummaryFrom(st, s) ==
            var f := FirstSnapshotFrom(m, s);
            var r := SnapshotsFrom(f.0, f.1.(gotFirst := true));
            SummaryFrom(r.0, r.1)
  {
    HeadNames();
    AtEnd(fs, post);
    hide At, Print, Lex, Clean, SummaryFrom, SnapshotsFrom, FirstSnapshotFrom, IsName, MembersOf, SnapshotFields,
         GetInt;
    var es := SnapshotItems(ss, triggerNs);
    var rest := SnapshotItems(ss[1..], triggerNs);
    var n := Next(st);
    ReadKey(st, fs, i, post);
    CleanNext(st);
    CleanNext(Next(st));
    SummaryRound(st, s, n);
    var o := Next(n);
    ReadArray(n, ":", es, post);
    var text, after := Print(SnapshotTree(ss[0], triggerNs)), PrintItems(rest, true) + ("]" + post);
    Regroup3(text, PrintItems(rest, true), "]" + post);
    assert Lead(false) + text == text;
    assert o.rest == "" + text + after;
    m := Next(o);
    ReadObject(o, "", SnapshotFields(ss[0], triggerNs), after);
    CleanNext(o);
    CleanNext(Next(o));
    SnapshotsRound(o, s, m);
  }

  /** The snapshots member and everything behind it. */
  lemma SummarySnapshots(st: State, fs: Fields, i: nat, ss: seq<Snapshot>, triggerNs: u64, post: string, s: Summary)
    requires i + 1 == |fs| && fs[i] == ("snapshots", Arr(SnapshotItems(ss, triggerNs)))
    requires Clean(post) && Quiet(Stream(post))
    requires ss != [] && (forall snap :: snap in ss ==> ReadableSnapshot(snap)) && !s.gotFirst
    requires Before(st, fs, i, post)
    ensures SummaryFrom(st, s) ==
            s.(cpuProcs := ShowProcs(ss[0].procs), rssProcs := ShowProcs(ss[0].topRss), gotFirst := true)
  {
    hide At, Clean, SummaryFrom, SnapshotsFrom, FirstSnapshotFrom, SnapshotFields, SnapshotItems, Quiet,
         ReadableSnapshot, ShowProcs, Stream;
    QuietSnapshotItems(ss[1..], triggerNs);
    ReadableSnapshotsExactly(ss[1..], triggerNs);
    var rest := SnapshotItems(ss[1..], triggerNs);
    var after := PrintItems(rest, true) + ("]" + post);
    var m := SnapshotsOpen(st, fs, i, ss, triggerNs, post, s);
    EndsItems(rest, "]" + post);
    var last := FirstSnapshotRead(m, ss[0], triggerNs, after, s);
    var s := s.(cpuProcs := ShowProcs(ss[0].procs), rssProcs := ShowProcs(ss[0].topRss), gotFirst := true);
    QuietRest(rest, post);
    QuietSnapshots(last, s);
    QuietSummary(SnapshotsFrom(last, s).0, s);
  }

  lemma QuietRest(rest: Items, post: string)
    requires QuietItems(rest) && ReadableItems(rest)
    requires Ends(post) && Clean(post) && Quiet(Stream(post))
    ensures Quiet(Stream(PrintItems(rest, true) + ("]" + post)))
  {
    hide IsTopKey, Clean;
    StreamItems(rest, true, "]" + post);
    StreamBracket("", ']', post);
    assert "" + ("]" + post) == "]" + post;
    QuietItemTokens(rest, Stream("]" + post));
  }

  /** What the viewer shows of a dump. */
  function Shown(d: Dump): Summary
    requires d.snapshots != []
  {
    Summary(ShownInt(d.timestampNs), ShowTrigger(d.anomaly),
            ShowProcs(d.snapshots[0].procs), ShowProcs(d.snapshots[0].topRss), true)
  }

  lemma HeadPart(d: Dump, fs: Fields)
    requires fs == HeadFields(d) + BodyFields(d)
    ensures PlainField(fs, 0) && !IsTopKey(fs[0].0)
    ensures d.createdAt.Some? ==> |HeadFields(d)| == 2 && PlainField(fs, 1) && !IsTopKey(fs[1].0)
    ensures d.createdAt.None? ==> |HeadFields(d)| == 1
  {
    hide IsName, IsTopKey, BodyFields, Seen;
    HeadNames();
    if d.createdAt.Some? {
      SeenLength(d.createdAt.value);
    }
    assert fs[0] == HeadFields(d)[0];
    if d.createdAt.Some? {
      assert fs[1] == HeadFields(d)[1] == ("created_at", Str(d.createdAt.value));
    }
  }

  /** One or two header members the main loop passes over. */
  lemma HeadRead(st: State, fs: Fields, n: nat, post: string, s: Summary) returns (m: State)
    requires 1 <= n <= 2 && Before(st, fs, 0, post)
    requires PlainField(fs, 0) && !IsTopKey(fs[0].0)
    requires n == 2 ==> PlainField(fs, 1) && !IsTopKey(fs[1].0)
    ensures Before(m, fs, n, post)
    ensures SummaryFrom(st, s) == SummaryFrom(m, s)
  {
    hide Before, PlainField, Clean, SummaryFrom, IsTopKey;
    m := SummaryPlain(st, fs, 0, post, s);
    if n == 2 {
      m := SummaryPlain(m, fs, 1, post, s);
    }
  }

  lemma BodyRead(st: State, d: Dump, fs: Fields, post: string)
    requires d.snapshots != [] && ReadableDump(d)
    requires fs == HeadFields(d) + BodyFields(d)
    requires Clean(post) && Quiet(Stream(post)) && Before(st, fs, |HeadFields(d)|, post)
    ensures SummaryFrom(st, NO_SUMMARY) == Shown(d)
  {
    hide Before, PlainField, Clean, SummaryFrom, BodyFields, HeadFields, IsTopKey, DecOf, AnomalyTree, SnapshotItems,
         Quiet, Stream, ReadableSnapshot, ShowTrigger, ShowProcs, RoundInt;
    BodyPart(d, fs);
    var i := |HeadFields(d)|;
    var s := NO_SUMMARY;
    var m := SummaryPlain(st, fs, i, post, s);
    m := SummaryTimestamp(m, fs, i + 1, d.timestampNs, post, s);
    s := s.(timestampNs := ShownInt(d.timestampNs));
    m := SummaryTrigger(m, fs, i + 2, d.anomaly, post, s);
    s := s.(trigger := ShowTrigger(d.anomaly));
    SummarySnapshots(m, fs, i + 3, Written(d.snapshots), d.timestampNs, post, s);
  }

  lemma BodyPart(d: Dump, fs: Fields)
    requires fs == HeadFields(d) + BodyFields(d)
    ensures var i := |HeadFields(d)|;
            && |fs| == i + 4
            && PlainField(fs, i) && !IsTopKey(fs[i].0)
            && fs[i + 1] == ("dump_timestamp_ns", Int(d.timestampNs))
            && fs[i + 2] == ("trigger", AnomalyTree(d.anomaly))
            && fs[i + 3] == ("snapshots", Arr(SnapshotItems(Written(d.snapshots), d.timestampNs)))
  {
    HeadNames();
    hide DecOf, AnomalyTree, SnapshotItems, Written, HeadFields, IsName, IsTopKey, Seconds;
    var head, body := HeadFields(d), BodyFields(d);
    assert fs[|head|] == body[0] == ("uptime_seconds", DecOf(Seconds(d.timestampNs)));
    assert fs[|head| + 1] == body[1] && fs[|head| + 2] == body[2] && fs[|head| + 3] == body[3];
  }

  /** Run on the text of any readable dump, the viewer shows its timestamp, its trigger and both
      process lists of its newest snapshot. */
  lemma ViewerShowsDump(d: Dump)
    requires d.snapshots != [] && ReadableDump(d)
    ensures Clean(Print(DumpTree(d)))
    ensures SummaryFrom(Init(Print(DumpTree(d))), NO_SUMMARY) == Shown(d)
  {
    DumpReadsBackExactly(d);
    EmptyIsQuiet();
    hide At, Clean, SummaryFrom, HeadFields, BodyFields, MembersOf, Print, ReadableDump, Shown, Quiet, Stream, Lex,
         GetInt, PlainField, IsTopKey;
    var fs := HeadFields(d) + BodyFields(d);
    var st := Init(Print(DumpTree(d)));
    assert "" + Print(DumpTree(d)) + "" == Print(DumpTree(d));
    ReadObject(st, "", fs, "");
    CleanNext(st);
    CleanNext(Next(st));
    SummaryRound(st, NO_SUMMARY, Next(st));
    HeadPart(d, fs);
    var m := HeadRead(Next(st), fs, |HeadFields(d)|, "}" + "", NO_SUMMARY);
    assert "}" + "" == "}";
    BodyRead(m, d, fs, "}");
  }

  lemma EmptyIsQuiet()
    ensures Clean("}") && Quiet(Stream("}"))
  {
    LexBracket('}', "");
    assert "}" + "" == "}";
    assert Lex("").token.Eof?;
  }
}
