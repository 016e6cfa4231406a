/** What a dump says, member by member and by name. */
module DumpFigures {
  import opened JsonValue
  import opened Snapshots
  import opened SpikeDump
  import AnomalyDetector
  import Rfc8259
  import DumpJson

  // ----- looking a member up -----

  /** The value of the first member with a name. */
  function Lookup(t: Tree, name: string): Option<Tree> {
    if t.Obj? then Search(t.members, name) else None
  }

  function Search(ms: Members, name: string): Option<Tree> {
    match ms
    case NoMembers => None
    case Member(k, v, rest) => if k == name then Some(v) else Search(rest, name)
  }

  function Elements(es: Items): seq<Tree> {
    match es
    case NoItems => []
    case Item(v, rest) => [v] + Elements(rest)
  }

  ghost predicate Distinct(fs: Fields) {
    forall i, j :: 0 <= i < j < |fs| ==> fs[i].0 != fs[j].0
  }

  ghost predicate Given(fs: Fields, t: Tree) {
    forall i :: 0 <= i < |fs| ==> Lookup(t, fs[i].0) == Some(fs[i].1)
  }

  lemma {:induction false} SearchAt(fs: Fields, i: nat)
    requires i < |fs| && forall j :: 0 <= j < i ==> fs[j].0 != fs[i].0
    ensures Search(MembersOf(fs), fs[i].0) == Some(fs[i].1)
  {
    if i > 0 {
      SearchAt(fs[1..], i - 1);
    }
  }

  lemma LookupEach(fs: Fields)
    requires Distinct(fs)
    ensures Given(fs, Obj(MembersOf(fs)))
  {
    hide Search, MembersOf;
    forall i | 0 <= i < |fs|
      ensures Search(MembersOf(fs), fs[i].0) == Some(fs[i].1)
    {
      SearchAt(fs, i);
    }
  }

  /** What a parser that keeps to the standard gets back has the same members. */
  function FieldOf(j: Rfc8259.Json, name: string): Option<Rfc8259.Json> {
    if j.Object? then SearchFields(j.fields, name) else None
  }

  function SearchFields(fs: Rfc8259.Fields, name: string): Option<Rfc8259.Json> {
    match fs
    case NoFields => None
    case Field(k, v, rest) => if k == name then Some(v) else SearchFields(rest, name)
  }

  lemma ParsedMember(t: Tree, name: string)
    ensures var v := Lookup(t, name);
            FieldOf(Rfc8259.JsonOf(t), name) == if v.Some? then Some(Rfc8259.JsonOf(v.value)) else None
  {
    if t.Obj? {
      ParsedSearch(t.members, name);
    }
  }

  lemma {:induction false} ParsedSearch(ms: Members, name: string)
    ensures var v := Search(ms, name);
            SearchFields(Rfc8259.FieldsIn(ms), name) == if v.Some? then Some(Rfc8259.JsonOf(v.value)) else None
  {
    if ms.Member? {
      ParsedSearch(ms.rest, name);
    }
  }

  // ----- what a member says -----

  predicate Says(t: Tree, name: string, v: Tree) {
    Lookup(t, name) == Some(v)
  }

  function Abs(x: real): real {
    if x < 0.0 then -x else x
  }

  /** Hundredths, without their sign, nearest to a number; of two that are as near, the even ones. */
  predicate Nearest(v: Tree, x: real) {
    && v.Dec? && (v.minus <==> x < 0.0)
    && var d := 100.0 * Abs(x) - v.hundredths as real;
       && -0.5 <= d <= 0.5
       && (d == 0.5 || d == -0.5 ==> v.hundredths % 2 == 0)
  }

  predicate SaysNearest(t: Tree, name: string, x: real) {
    var v := Lookup(t, name);
    v.Some? && Nearest(v.value, x)
  }

  /** Whole MiB, of a negative number as of its absolute value. */
  predicate IsMib(v: Tree, kib: int) {
    v.Int? && WholeMib(v.n, kib)
  }

  predicate WholeMib(n: int, kib: int) {
    if kib >= 0 then 1024 * n <= kib < 1024 * (n + 1) else 1024 * -n <= -kib < 1024 * (-n + 1)
  }

  predicate SaysMib(t: Tree, name: string, kib: int) {
    var v := Lookup(t, name);
    v.Some? && IsMib(v.value, kib)
  }

  lemma NearestDec(x: real)
    requires -WIDEST <= x <= WIDEST
    ensures Nearest(DecOf(x), x)
  {
    var y := x * 100.0;
    var h := Hundredths(x);
    assert -0.5 <= h as real - y <= 0.5;
    var f := y.Floor;
    assert f as real <= y < f as real + 1.0;
    if x < 0.0 {
      assert 100.0 * Abs(x) == -y;
      assert h <= 0;
    } else {
      assert 100.0 * Abs(x) == y;
      assert h >= 0;
    }
  }

  lemma MibOf(kib: u64)
    ensures WholeMib(KibToMib(kib), kib)
  {
  }

  lemma SignedMibOf(kib: i64)
    ensures WholeMib(MibDelta(kib), kib)
  {
  }

  // ----- memory -----

  /** What is taken as used, modulo 2^64 where more is available than there is. */
  function Used(total: u64, available: u64): nat {
    (total - available) % TWO_64
  }

  /** The used percentage, in hundredths, is nearest to 10000 times used over total. */
  predicate IsUsedPct(h: int, total: int, used: int) {
    -total <= 2 * (h * total - 10000 * used) <= total
  }

  predicate SaysUsedPct(t: Tree, name: string, m: MemSnapshot) {
    var v := Lookup(t, name);
    v.Some? &&
    if m.total == 0 then v.value.NonFinite?
    else v.value.Dec? && !v.value.minus && IsUsedPct(v.value.hundredths, m.total, Used(m.total, m.available))
  }

  ghost predicate ShowsMem(t: Tree, m: MemSnapshot) {
    && ShowsKib(t, m) && ShowsMib(t, m)
    && SaysMib(t, "swap_used_mib", Used(m.swapTotal, m.swapFree))
    && SaysUsedPct(t, "used_pct", m)
  }

  ghost predicate ShowsKib(t: Tree, m: MemSnapshot) {
    && Says(t, "total_kib", Int(m.total)) && Says(t, "available_kib", Int(m.available))
    && Says(t, "free_kib", Int(m.free)) && Says(t, "active_kib", Int(m.active))
    && Says(t, "inactive_kib", Int(m.inactive)) && Says(t, "dirty_kib", Int(m.dirty))
    && Says(t, "slab_kib", Int(m.slab)) && Says(t, "shmem_kib", Int(m.shmem))
    && Says(t, "swap_total_kib", Int(m.swapTotal)) && Says(t, "swap_free_kib", Int(m.swapFree))
  }

  ghost predicate ShowsMib(t: Tree, m: MemSnapshot) {
    && SaysMib(t, "total_mib", m.total) && SaysMib(t, "available_mib", m.available)
    && SaysMib(t, "free_mib", m.free) && SaysMib(t, "active_mib", m.active)
    && SaysMib(t, "inactive_mib", m.inactive) && SaysMib(t, "dirty_mib", m.dirty)
    && SaysMib(t, "slab_mib", m.slab) && SaysMib(t, "shmem_mib", m.shmem)
    && SaysMib(t, "swap_total_mib", m.swapTotal) && SaysMib(t, "swap_free_mib", m.swapFree)
  }

  lemma MemNames(m: MemSnapshot)
    ensures Distinct(MemFields(m))
  {
    hide UsedPct, KibToMib, SubU64;
  }

  lemma MemFigures(m: MemSnapshot)
    ensures ShowsMem(Obj(MembersOf(MemFields(m))), m)
  {
    hide ShowsKib, ShowsMib, Lookup, MembersOf, UsedPct, KibToMib, SubU64, Used, WholeMib, IsUsedPct;
    var fs := MemFields(m);
    MemNames(m);
    LookupEach(fs);
    hide Distinct;
    KibFigures(m);
    MibFigures(m);
    SubIsUsed(m.swapTotal, m.swapFree);
    MibOf(Used(m.swapTotal, m.swapFree));
    UsedPctIs(m);
    assert fs[15].0 == "swap_used_mib" && fs[21].0 == "used_pct";
  }

  lemma KibFigures(m: MemSnapshot)
    requires Given(MemFields(m), Obj(MembersOf(MemFields(m))))
    ensures ShowsKib(Obj(MembersOf(MemFields(m))), m)
  {
    hide Lookup, MembersOf, UsedPct, KibToMib, SubU64;
    var fs := MemFields(m);
    assert fs[0].0 == "total_kib" && fs[1].0 == "available_kib" && fs[2].0 == "free_kib" && fs[3].0 == "swap_total_kib";
    assert fs[4].0 == "swap_free_kib" && fs[5].0 == "active_kib" && fs[6].0 == "inactive_kib" && fs[7].0 == "dirty_kib";
    assert fs[8].0 == "slab_kib" && fs[9].0 == "shmem_kib";
  }

  lemma MibFigures(m: MemSnapshot)
    requires Given(MemFields(m), Obj(MembersOf(MemFields(m))))
    ensures ShowsMib(Obj(MembersOf(MemFields(m))), m)
  {
    hide Lookup, MembersOf, UsedPct, KibToMib, SubU64, WholeMib;
    var fs := MemFields(m);
    forall kib: u64
      ensures WholeMib(KibToMib(kib), kib)
    {
      MibOf(kib);
    }
    assert fs[10].0 == "total_mib" && fs[11].0 == "available_mib" && fs[12].0 == "free_mib" && fs[13].0 == "swap_total_mib";
    assert fs[14].0 == "swap_free_mib" && fs[16].0 == "active_mib" && fs[17].0 == "inactive_mib" && fs[18].0 == "dirty_mib";
    assert fs[19].0 == "slab_mib" && fs[20].0 == "shmem_mib";
  }

  lemma SubIsUsed(a: u64, b: u64)
    ensures SubU64(a, b) == Used(a, b)
  {
  }

  lemma UsedPctIs(m: MemSnapshot)
    ensures var v := UsedPct(m);
            if m.total == 0 then v.NonFinite?
            else v.Dec? && !v.minus && IsUsedPct(v.hundredths, m.total, Used(m.total, m.available))
  {
    hide Hundredths, IsUsedPct;
    if m.total > 0 {
      var used := Used(m.total, m.available);
      SubIsUsed(m.total, m.available);
      var x := 100.0 * used as real / m.total as real;
      Percent(used, m.total, x);
      NearestDec(x);
      hide Times;
      PctOf(UsedPct(m).hundredths, m.total, used, x);
    }
  }

  lemma Percent(used: u64, total: u64, x: real)
    requires total > 0 && x == 100.0 * used as real / total as real
    ensures 0.0 <= x <= WIDEST && Times(x, total as real) == 100.0 * used as real
  {
    QuotientBound(100.0 * used as real, total as real);
  }

  function Times(x: real, y: real): real {
    x * y
  }

  lemma PctOf(h: nat, total: nat, used: nat, x: real)
    requires total > 0 && Times(x, total as real) == 100.0 * used as real && -0.5 <= 100.0 * x - h as real <= 0.5
    ensures IsUsedPct(h, total, used)
  {
    hide IsUsedPct, Times;
    var t := total as real;
    Scaled(100.0 * x - h as real, t);
    Spread(x, h as real, t);
    var p := WholeProduct(h, total);
    FromReals(h, total, used, p);
  }

  lemma FromReals(h: nat, total: nat, used: nat, p: nat)
    requires p == h * total && -(total as real) <= 2.0 * (10000.0 * used as real - p as real) <= total as real
    ensures IsUsedPct(h, total, used)
  {
  }

  lemma Spread(x: real, h: real, t: real)
    ensures Times(100.0 * x - h, t) == 100.0 * Times(x, t) - Times(h, t)
  {
  }

  lemma WholeProduct(h: nat, t: nat) returns (p: nat)
    ensures p == h * t && Times(h as real, t as real) == p as real
  {
    p := h * t;
  }

  lemma Scaled(d: real, t: real)
    requires -0.5 <= d <= 0.5 && t > 0.0
    ensures -t <= 2.0 * Times(d, t) <= t
  {
    AnomalyDetector.ProductSign(0.5 - d, t);
    AnomalyDetector.ProductSign(0.5 + d, t);
    assert (0.5 - d) * t == 0.5 * t - d * t && (0.5 + d) * t == 0.5 * t + d * t;
  }

  lemma Closer(p: nat, q: nat, total: nat, a: nat, b: nat)
    requires a < b <= total && IsUsedPct(p, total, total - a) && IsUsedPct(q, total, total - b)
    ensures p >= q
  {
    if p < q {
      MoreProduct(p, q, total);
    }
  }

  lemma MoreProduct(p: nat, q: nat, t: nat)
    requires p < q
    ensures q * t >= p * t + t
  {
    assert (q - p - 1) * t >= 0;
    assert (q - p - 1) * t == q * t - p * t - t;
  }

  lemma UsedIsLess(total: u64, available: u64)
    requires available <= total
    ensures Used(total, available) == total - available
  {
  }

  lemma AtEnds(p: nat, total: nat, whole: nat)
    requires total > 0 && IsUsedPct(p, total, whole) && (whole == 0 || whole == total)
    ensures p == if whole == 0 then 0 else 10000
  {
    var end := if whole == 0 then 0 else 10000;
    if p < end {
      MoreProduct(p, end, total);
    } else if p > end {
      MoreProduct(end, p, total);
    }
  }

  lemma OnlyAvailableCounts(m: MemSnapshot, n: MemSnapshot)
    requires m.total == n.total && m.available == n.available
    ensures UsedPct(m) == UsedPct(n)
  {
    hide Hundredths;
  }

  /** The more is available, of the same total, the smaller the used percentage: none when all is
      available, and 100 when nothing is. */
  lemma UsedPctFalls(m: MemSnapshot, n: MemSnapshot)
    requires 0 < m.total == n.total && m.available <= n.available <= n.total
    ensures var p, q := UsedPct(m), UsedPct(n);
            && p.hundredths >= q.hundredths
            && (m.available == 0 ==> p.hundredths == 10000)
            && (n.available == n.total ==> q.hundredths == 0)
  {
    hide UsedPct, IsUsedPct, Used;
    UsedPctIs(m);
    UsedPctIs(n);
    UsedIsLess(m.total, m.available);
    UsedIsLess(n.total, n.available);
    var p, q := UsedPct(m).hundredths, UsedPct(n).hundredths;
    if m.available == n.available {
      OnlyAvailableCounts(m, n);
    } else {
      Closer(p, q, m.total, m.available, n.available);
    }
    if m.available == 0 {
      AtEnds(p, m.total, m.total);
    }
    if n.available == n.total {
      AtEnds(q, n.total, 0);
    }
  }

  // ----- processes and the CPU -----

  ghost predicate ShowsProc(t: Tree, e: ProcEntry) {
    && Says(t, "pid", Int(e.pid)) && Says(t, "ppid", Int(e.ppid)) && Says(t, "uid", Int(e.uid))
    && Says(t, "state", Str(if e.state == '\0' then "" else [e.state]))
    && Says(t, "comm", Str(e.comm)) && Says(t, "cmdline", Str(e.cmdline))
    && SaysNearest(t, "cpu_pct", e.cpuPct)
    && Says(t, "rss_kib", Int(e.rssKib)) && SaysMib(t, "rss_mib", e.rssKib)
  }

  ghost predicate ShowsProcs(v: Tree, es: seq<ProcEntry>) {
    v.Arr? && var ts := Elements(v.items);
    |ts| == |es| && forall i :: 0 <= i < |ts| ==> ShowsProc(ts[i], es[i])
  }

  lemma ProcNames(e: ProcEntry)
    ensures Distinct(ProcFields(e))
  {
    hide KibToMib, DecOf, OneChar;
  }

  lemma ProcFigures(e: ProcEntry)
    ensures ShowsProc(ProcTree(e), e)
  {
    hide Lookup, MembersOf, KibToMib, DecOf, Nearest, WholeMib;
    var fs := ProcFields(e);
    ProcNames(e);
    LookupEach(fs);
    hide Distinct;
    NearestDec(e.cpuPct);
    MibOf(e.rssKib);
    assert fs[0].0 == "pid" && fs[1].0 == "ppid" && fs[2].0 == "uid" && fs[3].0 == "state" && fs[4].0 == "comm";
    assert fs[5].0 == "cmdline" && fs[6].0 == "cpu_pct" && fs[7].0 == "rss_kib" && fs[8].0 == "rss_mib";
  }

  lemma {:induction false} ProcsFigures(es: seq<ProcEntry>)
    ensures ShowsProcs(Arr(ProcItems(es)), es)
  {
    hide ShowsProc, ProcTree;
    if es != [] {
      ProcsFigures(es[1..]);
      ProcFigures(es[0]);
      var ts, rest := Elements(ProcItems(es)), Elements(ProcItems(es[1..]));
      assert ts == [ProcTree(es[0])] + rest;
      assert forall i :: 0 < i < |es| ==> ts[i] == rest[i - 1] && es[i] == es[1..][i - 1];
    }
  }

  ghost predicate ShowsNumbers(v: Tree, xs: seq<real>) {
    v.Arr? && var ts := Elements(v.items);
    |ts| == |xs| && forall i :: 0 <= i < |ts| ==> Nearest(ts[i], xs[i])
  }

  lemma {:induction false} NumbersFigures(xs: seq<measure>)
    ensures ShowsNumbers(Arr(NumberItems(xs)), xs)
  {
    hide Nearest, DecOf;
    if xs != [] {
      NumbersFigures(xs[1..]);
      NearestDec(xs[0]);
      var ts, rest := Elements(NumberItems(xs)), Elements(NumberItems(xs[1..]));
      assert ts == [DecOf(xs[0])] + rest;
      assert forall i :: 0 < i < |xs| ==> ts[i] == rest[i - 1] && xs[i] == xs[1..][i - 1];
    }
  }

  ghost predicate ShowsCpu(t: Tree, c: CpuSnapshot) {
    && SaysNearest(t, "global_pct", c.globalPct) && SaysNearest(t, "iowait_pct", c.iowaitPct)
    && var cores := Lookup(t, "per_core_pct");
       cores.Some? && ShowsNumbers(cores.value, c.perCorePct)
  }

  lemma CpuFigures(c: CpuSnapshot)
    ensures ShowsCpu(Obj(MembersOf(CpuFields(c))), c)
  {
    hide Lookup, MembersOf, NumberItems, ShowsNumbers, DecOf, Nearest;
    var fs := CpuFields(c);
    LookupEach(fs);
    NearestDec(c.globalPct);
    NearestDec(c.iowaitPct);
    NumbersFigures(c.perCorePct);
    assert fs[0].0 == "global_pct" && fs[1].0 == "per_core_pct" && fs[2].0 == "iowait_pct";
  }

  // ----- a snapshot -----

  /** Times are those of the snapshot, in seconds since boot and since the trigger. */
  ghost predicate ShowsSnapshot(t: Tree, s: Snapshot, triggerNs: int) {
    && Says(t, "timestamp_ns", Int(s.timestampNs))
    && SaysNearest(t, "uptime_seconds", s.timestampNs as real / 1000000000.0)
    && SaysNearest(t, "offset_seconds", (s.timestampNs - triggerNs) as real / 1000000000.0)
    && (var cpu, mem := Lookup(t, "cpu"), Lookup(t, "mem");
        cpu.Some? && ShowsCpu(cpu.value, s.cpu) && mem.Some? && ShowsMem(mem.value, s.mem))
    && (var procs, topRss := Lookup(t, "procs"), Lookup(t, "top_rss_procs");
        procs.Some? && ShowsProcs(procs.value, s.procs) && topRss.Some? && ShowsProcs(topRss.value, s.topRss))
  }

  lemma SnapshotFigures(s: Snapshot, triggerNs: u64)
    ensures ShowsSnapshot(SnapshotTree(s, triggerNs), s, triggerNs)
  {
    hide Lookup, MembersOf, ProcItems, ShowsProcs, ShowsCpu, ShowsMem, CpuFields, MemFields, DecOf, Nearest;
    var fs := SnapshotFields(s, triggerNs);
    LookupEach(fs);
    CpuFigures(s.cpu);
    MemFigures(s.mem);
    ProcsFigures(s.procs);
    ProcsFigures(s.topRss);
    NearestDec(Seconds(s.timestampNs));
    NearestDec(Seconds(s.timestampNs) - Seconds(triggerNs));
    SecondsBetween(s.timestampNs, triggerNs);
    assert fs[0].0 == "timestamp_ns" && fs[1].0 == "uptime_seconds" && fs[2].0 == "offset_seconds" && fs[3].0 == "cpu";
    assert fs[4].0 == "mem" && fs[5].0 == "procs" && fs[6].0 == "top_rss_procs";
  }

  lemma SecondsBetween(a: u64, b: u64)
    ensures Seconds(a) - Seconds(b) == (a - b) as real / 1000000000.0
  {
  }

  lemma {:induction false} SnapshotsFigures(ss: seq<Snapshot>, triggerNs: u64)
    ensures var ts := Elements(SnapshotItems(ss, triggerNs));
            |ts| == |ss| && forall i :: 0 <= i < |ts| ==> ShowsSnapshot(ts[i], ss[i], triggerNs)
  {
    hide ShowsSnapshot, SnapshotTree;
    if ss != [] {
      SnapshotsFigures(ss[1..], triggerNs);
      SnapshotFigures(ss[0], triggerNs);
      var ts, rest := Elements(SnapshotItems(ss, triggerNs)), Elements(SnapshotItems(ss[1..], triggerNs));
      assert ts == [SnapshotTree(ss[0], triggerNs)] + rest;
      assert forall i :: 0 < i < |ss| ==> ts[i] == rest[i - 1] && ss[i] == ss[1..][i - 1];
    }
  }

  // ----- the trigger -----

  /** The scope that a name stands for in the configuration; other names are ignored. */
  function ScopeNamed(name: string): Option<Scope> {
    if name == "per_process" then Some(PerProcess)
    else if name == "process_group" then Some(ProcessGroup)
    else if name == "parent" then Some(Parent)
    else if name == "system" then Some(System)
    else None
  }

  ghost predicate ShowsPolicy(t: Tree, a: Anomaly) {
    && (var scope := Lookup(t, "scope"); scope.Some? && scope.value.Str? && ScopeNamed(scope.value.s) == Some(a.scope))
    && Says(t, "scope_key", Int(a.scopeKey)) && Says(t, "description", Str(Grouping(a.scope)))
  }

  function Grouping(s: Scope): string {
    if s == PerProcess then "Per-process (no grouping)"
    else if s == System then "System-wide grouping"
    else "Grouped by " + if s == Parent then "PPID" else "PGID"
  }

  lemma GroupingIsDescribed(s: Scope)
    ensures ScopeDescription(s) == Grouping(s)
  {
  }

  ghost predicate ShowsCause(t: Tree, a: Anomaly) {
    && Says(t, "type", Str(TypeName(a.kind))) && Says(t, "type_description", Str(TypeDescription(a.kind)))
    && Says(t, "pid", Int(a.spikePid)) && Says(t, "comm", Str(a.spikeComm))
    && SaysNearest(t, "cpu_pct", a.spikeCpuPct) && SaysNearest(t, "baseline_pct", a.spikeBaselinePct)
    && SaysNearest(t, "delta_pct", a.spikeDelta) && Says(t, "is_new_process", Boolean(a.isNewProcess))
    && Says(t, "origin_snapshot_index", Int(a.originSnapshotIdx))
    && (var policy := Lookup(t, "policy"); policy.Some? && ShowsPolicy(policy.value, a))
  }

  ghost predicate ShowsReadings(t: Tree, a: Anomaly) {
    && Says(t, "mem_available_kib", Int(a.memAvailableKib)) && SaysMib(t, "mem_available_mib", a.memAvailableKib)
    && Says(t, "mem_baseline_kib", Int(a.memBaselineKib)) && SaysMib(t, "mem_baseline_mib", a.memBaselineKib)
    && Says(t, "mem_delta_kib", Int(a.memDeltaKib)) && SaysMib(t, "mem_delta_mib", a.memDeltaKib)
    && SaysNearest(t, "mem_used_pct", a.memUsedPct)
    && Says(t, "swap_used_kib", Int(a.swapUsedKib)) && SaysMib(t, "swap_used_mib", a.swapUsedKib)
    && Says(t, "swap_baseline_kib", Int(a.swapBaselineKib)) && SaysMib(t, "swap_baseline_mib", a.swapBaselineKib)
    && Says(t, "swap_delta_kib", Int(a.swapDeltaKib)) && SaysMib(t, "swap_delta_mib", a.swapDeltaKib)
  }

  lemma TriggerNames(a: Anomaly)
    ensures Distinct(AnomalyFields(a))
  {
    hide KibToMib, MibDelta, DecOf, MembersOf, PolicyFields, TypeName, TypeDescription;
  }

  lemma TriggerFigures(a: Anomaly)
    ensures ShowsCause(AnomalyTree(a), a) && ShowsReadings(AnomalyTree(a), a)
  {
    hide Lookup, MembersOf, AnomalyFields, Distinct, Given, ShowsCause, ShowsReadings;
    TriggerNames(a);
    LookupEach(AnomalyFields(a));
    CauseFigures(a);
    ReadingsFigures(a);
  }

  lemma CauseFigures(a: Anomaly)
    requires Given(AnomalyFields(a), AnomalyTree(a))
    ensures ShowsCause(AnomalyTree(a), a)
  {
    hide Lookup, MembersOf, KibToMib, MibDelta, DecOf, Nearest, PolicyFields, TypeName, TypeDescription, ShowsPolicy;
    var fs := AnomalyFields(a);
    PolicyFigures(a);
    NearestDec(a.spikeCpuPct);
    NearestDec(a.spikeBaselinePct);
    NearestDec(a.spikeDelta);
    assert fs[0].0 == "type" && fs[1].0 == "type_description" && fs[2].0 == "pid" && fs[3].0 == "comm";
    assert fs[4].0 == "cpu_pct" && fs[5].0 == "baseline_pct" && fs[6].0 == "delta_pct" && fs[7].0 == "is_new_process";
    assert fs[21].0 == "policy" && fs[22].0 == "origin_snapshot_index";
  }

  lemma ReadingsFigures(a: Anomaly)
    requires Given(AnomalyFields(a), AnomalyTree(a))
    ensures ShowsReadings(AnomalyTree(a), a)
  {
    hide Lookup, MembersOf, KibToMib, MibDelta, DecOf, Nearest, PolicyFields, TypeName, TypeDescription, WholeMib;
    var fs := AnomalyFields(a);
    NearestDec(a.memUsedPct);
    MibOf(a.memAvailableKib);
    MibOf(a.memBaselineKib);
    MibOf(a.swapUsedKib);
    MibOf(a.swapBaselineKib);
    SignedMibOf(a.memDeltaKib);
    SignedMibOf(a.swapDeltaKib);
    assert fs[8].0 == "mem_available_kib" && fs[9].0 == "mem_baseline_kib" && fs[10].0 == "mem_delta_kib";
    assert fs[11].0 == "mem_used_pct" && fs[12].0 == "mem_available_mib" && fs[13].0 == "mem_baseline_mib";
    assert fs[14].0 == "mem_delta_mib" && fs[15].0 == "swap_used_kib" && fs[16].0 == "swap_baseline_kib";
    assert fs[17].0 == "swap_delta_kib" && fs[18].0 == "swap_used_mib" && fs[19].0 == "swap_baseline_mib";
    assert fs[20].0 == "swap_delta_mib";
  }

  lemma PolicyFigures(a: Anomaly)
    ensures ShowsPolicy(Obj(MembersOf(PolicyFields(a))), a)
  {
    hide Lookup, MembersOf, ScopeName, ScopeDescription, ScopeNamed, Grouping;
    var fs := PolicyFields(a);
    GroupingIsDescribed(a.scope);
    LookupEach(fs);
    ScopeReadsBack(a.scope);
    assert fs[0].0 == "scope" && fs[1].0 == "scope_key" && fs[2].0 == "description";
  }

  /** A dump names the scope as the configuration does. */
  lemma ScopeReadsBack(s: Scope)
    ensures ScopeNamed(ScopeName(s)) == Some(s)
  {
  }

  // ----- the whole dump -----

  ghost predicate ShowsDump(t: Tree, d: Dump) {
    && Says(t, "schema_version", Int(5))
    && Lookup(t, "created_at") == (if d.createdAt.Some? then Some(Str(d.createdAt.value)) else None)
    && SaysNearest(t, "uptime_seconds", d.timestampNs as real / 1000000000.0)
    && Says(t, "dump_timestamp_ns", Int(d.timestampNs))
    && (var trigger := Lookup(t, "trigger");
        trigger.Some? && ShowsCause(trigger.value, d.anomaly) && ShowsReadings(trigger.value, d.anomaly))
    && (var ss := Lookup(t, "snapshots"); ss.Some? && ShowsSnapshots(ss.value, d))
  }

  ghost predicate ShowsSnapshots(v: Tree, d: Dump) {
    v.Arr? && var ts := Elements(v.items);
    && |ts| == (if |d.snapshots| < 10 then |d.snapshots| else 10)
    && forall i :: 0 <= i < |ts| ==> ShowsSnapshot(ts[i], d.snapshots[i], d.timestampNs)
  }

  /** Every member of a dump, by its name, says what it is named after; and as long as there is RAM
      a parser that keeps to the standard gets these members back from its text. */
  lemma DumpSays(d: Dump)
    ensures ShowsDump(DumpTree(d), d)
    ensures DumpJson.HasRam(d) ==> Rfc8259.Document(Print(DumpTree(d))) == Rfc8259.Got(Rfc8259.JsonOf(DumpTree(d)), "")
  {
    hide Lookup, MembersOf, AnomalyTree, ShowsCause, ShowsReadings, ShowsSnapshot, DecOf, Nearest, SnapshotItems,
         DumpJson.HasRam, Rfc8259.Document, Print;
    DumpJson.DumpIsJsonExactly(d);
    var fs := HeadFields(d) + BodyFields(d);
    LookupEach(fs);
    TriggerFigures(d.anomaly);
    SnapshotsFigures(Written(d.snapshots), d.timestampNs);
    NearestDec(Seconds(d.timestampNs));
    var n := |HeadFields(d)|;
    assert fs[0].0 == "schema_version";
    assert fs[n].0 == "uptime_seconds" && fs[n + 1].0 == "dump_timestamp_ns" && fs[n + 2].0 == "trigger" && fs[n + 3].0 == "snapshots";
    if d.createdAt.Some? {
      assert fs[1].0 == "created_at";
    } else {
      NotThere(fs, "created_at");
    }
  }

  lemma {:induction false} NotThere(fs: Fields, name: string)
    requires forall i :: 0 <= i < |fs| ==> fs[i].0 != name
    ensures Lookup(Obj(MembersOf(fs)), name) == None
  {
    if fs != [] {
      NotThere(fs[1..], name);
    }
  }
}
