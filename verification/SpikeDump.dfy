/** The document a spike dump consists of, and the writer calls that produce it. */
module SpikeDump {
  import opened JsonValue
  import opened JsonWriter
  import opened Snapshots

  const SCHEMA_VERSION: int := 5
  const MAX_SNAPSHOTS: nat := 10

  // ----- numbers as they are written -----

  /** A real in hundredths, to the nearest, ties to even. */
  function Hundredths(x: real): int {
    var y := x * 100.0;
    var f := y.Floor;
    var d := y - f as real;
    if d < 0.5 || (d == 0.5 && f % 2 == 0) then f else f + 1
  }

  const WIDEST: real := 10000000000000000000000.0

  /** A double as the two-decimal number it is printed as. */
  function DecOf(x: real): (t: Tree)
    requires -WIDEST <= x <= WIDEST
    ensures t.Dec?
  {
    var h := Hundredths(x);
    Dec(x < 0.0, if h < 0 then -h else h)
  }

  function KibToMib(kib: u64): u64 {
    kib / 1024
  }

  /** Signed division truncates toward zero. */
  function MibDelta(kib: i64): i64 {
    var k: int := kib;
    if k < 0 then -(-k / 1024) else k / 1024
  }

  function Seconds(ns: u64): (r: real)
    ensures 0.0 <= r <= 18446744074.0
  {
    ns as real / 1000000000.0
  }

  // ----- the trees -----

  /** The members of an object, in the order they are written. */
  type Fields = seq<(CString, Tree)>

  function MembersOf(fs: Fields): Members {
    if fs == [] then NoMembers else Member(fs[0].0, fs[0].1, MembersOf(fs[1..]))
  }

  function OneChar(c: char): CString {
    if c == '\0' then "" else [c]
  }

  function ProcFields(e: ProcEntry): Fields {
    [("pid", Int(e.pid)),
     ("ppid", Int(e.ppid)),
     ("uid", Int(e.uid)),
     ("state", Str(OneChar(e.state))),
     ("comm", Str(e.comm)),
     ("cmdline", Str(e.cmdline)),
     ("cpu_pct", DecOf(e.cpuPct)),
     ("rss_kib", Int(e.rssKib)),
     ("rss_mib", Int(KibToMib(e.rssKib)))]
  }

  function ProcTree(e: ProcEntry): Tree {
    Obj(MembersOf(ProcFields(e)))
  }

  function ProcItems(es: seq<ProcEntry>): Items {
    if es == [] then NoItems else Item(ProcTree(es[0]), ProcItems(es[1..]))
  }

  function NumberItems(xs: seq<measure>): Items {
    if xs == [] then NoItems else Item(DecOf(xs[0]), NumberItems(xs[1..]))
  }

  function CpuFields(c: CpuSnapshot): Fields {
    [("global_pct", DecOf(c.globalPct)),
     ("per_core_pct", Arr(NumberItems(c.perCorePct))),
     ("iowait_pct", DecOf(c.iowaitPct))]
  }

  lemma QuotientBound(x: real, t: real)
    requires 0.0 <= x && t >= 1.0
    ensures 0.0 <= x / t <= x
  {
    assert x / t * t == x;
  }

  /** The used percentage is a division by the total: without RAM it has no finite value. */
  function UsedPct(m: MemSnapshot): Tree {
    var used := SubU64(m.total, m.available);
    if m.total == 0 then NonFinite(used != 0)
    else
      QuotientBound(100.0 * used as real, m.total as real);
      DecOf(100.0 * used as real / m.total as real)
  }

  function MemKibFields(m: MemSnapshot): Fields {
    [("total_kib", Int(m.total)),
     ("available_kib", Int(m.available)),
     ("free_kib", Int(m.free)),
     ("swap_total_kib", Int(m.swapTotal)),
     ("swap_free_kib", Int(m.swapFree)),
     ("active_kib", Int(m.active)),
     ("inactive_kib", Int(m.inactive)),
     ("dirty_kib", Int(m.dirty)),
     ("slab_kib", Int(m.slab)),
     ("shmem_kib", Int(m.shmem))]
  }

  function MemMibFields(m: MemSnapshot): Fields {
    [("total_mib", Int(KibToMib(m.total))),
     ("available_mib", Int(KibToMib(m.available))),
     ("free_mib", Int(KibToMib(m.free))),
     ("swap_total_mib", Int(KibToMib(m.swapTotal))),
     ("swap_free_mib", Int(KibToMib(m.swapFree))),
     ("swap_used_mib", Int(KibToMib(SubU64(m.swapTotal, m.swapFree)))),
     ("active_mib", Int(KibToMib(m.active))),
     ("inactive_mib", Int(KibToMib(m.inactive))),
     ("dirty_mib", Int(KibToMib(m.dirty))),
     ("slab_mib", Int(KibToMib(m.slab))),
     ("shmem_mib", Int(KibToMib(m.shmem))),
     ("used_pct", UsedPct(m))]
  }

  function MemFields(m: MemSnapshot): Fields {
    MemKibFields(m) + MemMibFields(m)
  }

  function SnapshotFields(s: Snapshot, triggerNs: u64): Fields {
    [("timestamp_ns", Int(s.timestampNs)),
     ("uptime_seconds", DecOf(Seconds(s.timestampNs))),
     ("offset_seconds", DecOf(Seconds(s.timestampNs) - Seconds(triggerNs))),
     ("cpu", Obj(MembersOf(CpuFields(s.cpu)))),
     ("mem", Obj(MembersOf(MemFields(s.mem)))),
     ("procs", Arr(ProcItems(s.procs))),
     ("top_rss_procs", Arr(ProcItems(s.topRss)))]
  }

  function SnapshotTree(s: Snapshot, triggerNs: u64): Tree {
    Obj(MembersOf(SnapshotFields(s, triggerNs)))
  }

  function SnapshotItems(ss: seq<Snapshot>, triggerNs: u64): Items {
    if ss == [] then NoItems else Item(SnapshotTree(ss[0], triggerNs), SnapshotItems(ss[1..], triggerNs))
  }

  function TypeName(t: AnomalyType): CString {
    match t
    case CpuDelta => "cpu_delta"
    case CpuNewProc => "cpu_new_process"
    case MemDrop => "mem_drop"
    case MemPressure => "mem_pressure"
    case SwapSpike => "swap_spike"
    case NoAnomaly => "unknown"
  }

  function TypeDescription(t: AnomalyType): CString {
    match t
    case CpuDelta => "Process CPU usage jumped significantly from baseline"
    case CpuNewProc => "New process spawned with high initial CPU usage"
    case MemDrop => "Available memory dropped suddenly"
    case MemPressure => "System under high memory pressure"
    case SwapSpike => "Swap usage increased suddenly"
    case NoAnomaly => "Unknown anomaly type"
  }

  function ScopeName(s: Scope): CString {
    match s
    case ProcessGroup => "process_group"
    case Parent => "parent"
    case System => "system"
    case PerProcess => "per_process"
  }

  function ScopeDescription(s: Scope): CString {
    match s
    case ProcessGroup => "Grouped by PGID"
    case Parent => "Grouped by PPID"
    case System => "System-wide grouping"
    case PerProcess => "Per-process (no grouping)"
  }

  function PolicyFields(a: Anomaly): Fields {
    [("scope", Str(ScopeName(a.scope))),
     ("scope_key", Int(a.scopeKey)),
     ("description", Str(ScopeDescription(a.scope)))]
  }

  function AnomalyFields(a: Anomaly): Fields {
    [("type", Str(TypeName(a.kind))),
     ("type_description", Str(TypeDescription(a.kind))),
     ("pid", Int(a.spikePid)),
     ("comm", Str(a.spikeComm)),
     ("cpu_pct", DecOf(a.spikeCpuPct)),
     ("baseline_pct", DecOf(a.spikeBaselinePct)),
     ("delta_pct", DecOf(a.spikeDelta)),
     ("is_new_process", Boolean(a.isNewProcess)),
     ("mem_available_kib", Int(a.memAvailableKib)),
     ("mem_baseline_kib", Int(a.memBaselineKib)),
     ("mem_delta_kib", Int(a.memDeltaKib)),
     ("mem_used_pct", DecOf(a.memUsedPct)),
     ("mem_available_mib", Int(KibToMib(a.memAvailableKib))),
     ("mem_baseline_mib", Int(KibToMib(a.memBaselineKib))),
     ("mem_delta_mib", Int(MibDelta(a.memDeltaKib))),
     ("swap_used_kib", Int(a.swapUsedKib)),
     ("swap_baseline_kib", Int(a.swapBaselineKib)),
     ("swap_delta_kib", Int(a.swapDeltaKib)),
     ("swap_used_mib", Int(KibToMib(a.swapUsedKib))),
     ("swap_baseline_mib", Int(KibToMib(a.swapBaselineKib))),
     ("swap_delta_mib", Int(MibDelta(a.swapDeltaKib))),
     ("policy", Obj(MembersOf(PolicyFields(a)))),
     ("origin_snapshot_index", Int(a.originSnapshotIdx))]
  }

  function AnomalyTree(a: Anomaly): Tree {
    Obj(MembersOf(AnomalyFields(a)))
  }

  /** The wall-clock time as the 32-byte time buffer holds it. */
  type IsoTime = s: CString | |s| <= 31

  /** What one call of the dump writer is given; `createdAt` is missing when the clock failed. */
  datatype Dump = Dump(createdAt: Option<IsoTime>, timestampNs: u64, anomaly: Anomaly, snapshots: seq<Snapshot>)

  function Written(ss: seq<Snapshot>): seq<Snapshot> {
    if |ss| > MAX_SNAPSHOTS then ss[..MAX_SNAPSHOTS] else ss
  }

  function HeadFields(d: Dump): Fields {
    [("schema_version", Int(SCHEMA_VERSION))]
    + if d.createdAt.Some? then [("created_at", Str(d.createdAt.value))] else []
  }

  function BodyFields(d: Dump): Fields {
    [("uptime_seconds", DecOf(Seconds(d.timestampNs))),
     ("dump_timestamp_ns", Int(d.timestampNs)),
     ("trigger", AnomalyTree(d.anomaly)),
     ("snapshots", Arr(SnapshotItems(Written(d.snapshots), d.timestampNs)))]
  }

  function DumpTree(d: Dump): Tree {
    Obj(MembersOf(HeadFields(d) + BodyFields(d)))
  }

  // ----- writing -----

  /** The writer calls for a tree, left to right, stopping at the first one that fails.
      The comma flag alone puts every comma where the printer has it. */
  method WriteTree(w: Writer, t: Tree) returns (s: Status)
    requires w.Valid()
    modifies w.Repr
    ensures w.Valid() && fresh(w.Repr - old(w.Repr))
    ensures Wrote(old(w.View()), w.View(), Lead(old(w.needsComma)) + Print(t))
    ensures s.Ok? <==> !w.error
    ensures s.Ok? ==> w.needsComma
    decreases t, 1
  {
    match t
    case Obj(ms) => s := WriteObject(w, ms);
    case Arr(es) => s := WriteArray(w, es);
    case Str(v) => s := w.String(v);
    case Int(n) => s := w.Int(n);
    case Dec(minus, h) =>
      DecTextFits(minus, h);
      s := w.Double(minus, h);
    case NonFinite(infinite) => s := w.Scalar(if infinite then "inf" else "nan");
    case Boolean(b) => s := w.Bool(b);
  }

  method WriteObject(w: Writer, ms: Members) returns (s: Status)
    requires w.Valid()
    modifies w.Repr
    ensures w.Valid() && fresh(w.Repr - old(w.Repr))
    ensures Wrote(old(w.View()), w.View(), Lead(old(w.needsComma)) + Print(Obj(ms)))
    ensures s.Ok? <==> !w.error
    ensures s.Ok? ==> w.needsComma
    decreases ms, 1
  {
    ghost var start, lead := w.View(), Lead(w.needsComma);
    ghost var body := PrintMembers(ms, false);
    Around(lead, "{", body, "}");
    s := w.BeginObject();
    if s.IsFailure() {
      WroteStopped(start, w.View(), lead + "{", body + "}");
      return;
    }
    ghost var mid := w.View();
    s := WriteMembers(w, ms);
    WroteThen(start, mid, w.View(), lead + "{", body);
    if s.IsFailure() {
      WroteStopped(start, w.View(), lead + "{" + body, "}");
      return;
    }
    mid := w.View();
    s := w.EndObject();
    WroteThen(start, mid, w.View(), lead + "{" + body, "}");
  }

  method WriteMembers(w: Writer, ms: Members) returns (s: Status)
    requires w.Valid() && !w.error
    modifies w.Repr
    ensures w.Valid() && fresh(w.Repr - old(w.Repr))
    ensures Wrote(old(w.View()), w.View(), PrintMembers(ms, old(w.needsComma)))
    ensures s.Ok? <==> !w.error
    decreases ms, 0
  {
    match ms
    case NoMembers =>
      CapacityRange(w.capacity);
      s := Ok;
    case Member(k, v, rest) =>
      ghost var start := w.View();
      ghost var key := Lead(w.needsComma) + Quote(k) + ":";
      ghost var tail := PrintMembers(rest, true);
      Regroup(key, Print(v), tail);
      s := w.Key(k);
      if s.IsFailure() {
        WroteStopped(start, w.View(), key, Print(v) + tail);
        return;
      }
      ghost var mid := w.View();
      s := WriteTree(w, v);
      assert Lead(false) + Print(v) == Print(v);
      WroteThen(start, mid, w.View(), key, Print(v));
      if s.IsFailure() {
        WroteStopped(start, w.View(), key + Print(v), tail);
        return;
      }
      mid := w.View();
      s := WriteMembers(w, rest);
      WroteThen(start, mid, w.View(), key + Print(v), tail);
  }

  method WriteArray(w: Writer, es: Items) returns (s: Status)
    requires w.Valid()
    modifies w.Repr
    ensures w.Valid() && fresh(w.Repr - old(w.Repr))
    ensures Wrote(old(w.View()), w.View(), Lead(old(w.needsComma)) + Print(Arr(es)))
    ensures s.Ok? <==> !w.error
    ensures s.Ok? ==> w.needsComma
    decreases es, 1
  {
    ghost var start, lead := w.View(), Lead(w.needsComma);
    ghost var body := PrintItems(es, false);
    Around(lead, "[", body, "]");
    s := w.BeginArray();
    if s.IsFailure() {
      WroteStopped(start, w.View(), lead + "[", body + "]");
      return;
    }
    ghost var mid := w.View();
    s := WriteItems(w, es);
    WroteThen(start, mid, w.View(), lead + "[", body);
    if s.IsFailure() {
      WroteStopped(start, w.View(), lead + "[" + body, "]");
      return;
    }
    mid := w.View();
    s := w.EndArray();
    WroteThen(start, mid, w.View(), lead + "[" + body, "]");
  }

  method WriteItems(w: Writer, es: Items) returns (s: Status)
    requires w.Valid() && !w.error
    modifies w.Repr
    ensures w.Valid() && fresh(w.Repr - old(w.Repr))
    ensures Wrote(old(w.View()), w.View(), PrintItems(es, old(w.needsComma)))
    ensures s.Ok? <==> !w.error
    decreases es, 0
  {
    match es
    case NoItems =>
      CapacityRange(w.capacity);
      s := Ok;
    case Item(v, rest) =>
      ghost var start := w.View();
      ghost var head := Lead(w.needsComma) + Print(v);
      ghost var tail := PrintItems(rest, true);
      s := WriteTree(w, v);
      if s.IsFailure() {
        WroteStopped(start, w.View(), head, tail);
        return;
      }
      ghost var mid := w.View();
      s := WriteItems(w, rest);
      WroteThen(start, mid, w.View(), head, tail);
  }

  lemma DecTextFits(minus: bool, h: Centi)
    ensures |DecText(minus, h)| < SCRATCH_SIZE
  {
    assert Pow10(24) == 1000000000000000000000000 by {
      assert Pow10(8) == 100000000;
      assert Pow10(16) == 10000000000000000;
    }
    NatTextLength(h / 100, 24);
  }

  lemma Around(lead: string, open: string, body: string, close: string)
    ensures lead + (open + body + close) == lead + open + body + close
    ensures lead + (open + body + close) == lead + open + (body + close)
  {
  }

  lemma Regroup(a: string, b: string, c: string)
    ensures a + b + c == a + (b + c)
  {
  }

  /** Builds the whole document. What is handed on for writing, if anything, is its printed
      tree; nothing is handed on exactly when there is no snapshot or the document does not
      fit the largest buffer. */
  method BuildDump(d: Dump) returns (text: Option<string>)
    ensures text.Some? <==> d.snapshots != [] && |Print(DumpTree(d))| < MAX_BUFFER_SIZE
    ensures text.Some? ==> text.value == Print(DumpTree(d))
  {
    if d.snapshots == [] {
      return None;
    }
    var w := new Writer();
    var s := WriteTree(w, DumpTree(d));
    assert "" + ("" + Print(DumpTree(d))) == Print(DumpTree(d));
    if s.IsFailure() || w.error {
      return None;
    }
    return Some(w.buffer[..w.length]);
  }
}
