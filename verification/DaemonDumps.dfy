/** The daemon's dumps as they are written and shown. */
module DaemonDumps {
  import opened Snapshots
  import opened AnomalyDetector
  import opened ConfigValidation
  import opened RingBuffer
  import opened Daemon
  import JsonValue
  import JsonLexer
  import JsonRoundTrip
  import SpikeDump
  import DumpViewer
  import DumpReadable
  import DumpRoundTrip
  import DumpLimits
  import Alarms
  import Cooldown
  import opened DumpFigures

  // ----- from a finding to what the viewer shows of it -----

  /** The document the dump writer makes of a call. */
  function DocumentOf(s: ValidSettings, d: DumpCall, createdAt: Option<SpikeDump.IsoTime>): SpikeDump.Dump
    requires Recordable(d.report) && d.originIdx < CAPACITY
  {
    var a := AnomalyOf(s.scope, d.report).(originSnapshotIdx := d.originIdx);
    SpikeDump.Dump(createdAt, d.timestampNs, a, d.snapshots)
  }

  function SpikeComm(r: Report): Comm {
    match r
    case Nothing => ""
    case CpuReport(t) => t.sample.comm
    case MemReport(_, blamed) => if blamed.Some? then blamed.value.comm else ""
    case SwapReport(_, blamed) => if blamed.Some? then blamed.value.comm else ""
  }

  predicate Near(x: real, y: real) {
    -0.005 <= x - y <= 0.005
  }

  function KindShown(r: Report): string {
    match r
    case Nothing => "unknown"
    case CpuReport(f) => if f.isNew then "cpu_new_process" else "cpu_delta"
    case MemReport(f, _) => if f.isDrop then "mem_drop" else "mem_pressure"
    case SwapReport(_, _) => "swap_spike"
  }

  function KindDescribed(r: Report): string {
    match r
    case Nothing => "Unknown anomaly type"
    case CpuReport(f) =>
      if f.isNew then "New process spawned with high initial CPU usage"
      else "Process CPU usage jumped significantly from baseline"
    case MemReport(f, _) => if f.isDrop then "Available memory dropped suddenly" else "System under high memory pressure"
    case SwapReport(_, _) => "Swap usage increased suddenly"
  }

  lemma KindIsNamed(r: Report)
    ensures SpikeDump.TypeName(KindOf(r)) == KindShown(r)
    ensures SpikeDump.TypeDescription(KindOf(r)) == KindDescribed(r)
  {
  }

  /** The trigger shows the kind of the finding, the process blamed and the numbers found. */
  predicate ShowsFinding(t: DumpViewer.Trigger, r: Report) {
    && t.kind == KindShown(r) && t.pid == SpikePid(r)
    && (t.comm == SpikeComm(r) <==> JsonRoundTrip.Lossless(SpikeComm(r)))
    && match r
       case Nothing => true
       case CpuReport(f) =>
         && Near(t.cpuPct, f.sample.cpuPct) && Near(t.baselinePct, f.sample.baselinePct)
         && Near(t.deltaPct, f.sample.cpuPct - f.sample.baselinePct)
       case MemReport(f, _) =>
         && t.memAvailableKib == DumpRoundTrip.ShownInt(f.available)
         && t.memBaselineKib == DumpRoundTrip.ShownInt(f.baseline)
         && t.memDeltaKib == DumpRoundTrip.ShownInt(f.delta) && Near(t.memUsedPct, f.usedPct)
       case SwapReport(f, _) =>
         && t.swapUsedKib == DumpRoundTrip.ShownInt(f.used)
         && t.swapBaselineKib == DumpRoundTrip.ShownInt(f.baseline)
         && t.swapDeltaKib == DumpRoundTrip.ShownInt(f.delta)
  }

  lemma TriggerShowsFinding(s: ValidSettings, d: DumpCall, createdAt: Option<SpikeDump.IsoTime>)
    requires Recordable(d.report) && d.originIdx < CAPACITY
    ensures ShowsFinding(DumpRoundTrip.ShowTrigger(DocumentOf(s, d, createdAt).anomaly), d.report)
  {
    hide JsonRoundTrip.Lossless, JsonRoundTrip.Seen, JsonLexer.Truncate, SpikeDump.Hundredths,
         DumpRoundTrip.ShownInt, DumpRoundTrip.ShownDec, DumpRoundTrip.ShowTrigger, SpikeDump.TypeName,
         SpikeDump.TypeDescription, KindShown, KindDescribed, KindOf;
    hide DocumentOf, Recordable;
    KindIsNamed(d.report);
    RecordHolds(s, d, createdAt);
    KilobytesShown(DocumentOf(s, d, createdAt).anomaly);
    DumpLimits.TriggerShownExactly(DocumentOf(s, d, createdAt).anomaly);
  }

  /** The record holds the finding. */
  lemma RecordHolds(s: ValidSettings, d: DumpCall, createdAt: Option<SpikeDump.IsoTime>)
    requires Recordable(d.report) && d.originIdx < CAPACITY
    ensures var a := DocumentOf(s, d, createdAt).anomaly;
            && a.kind == KindOf(d.report) && a.spikePid == SpikePid(d.report) && a.spikeComm == SpikeComm(d.report)
            && match d.report
               case Nothing => true
               case CpuReport(f) =>
                 && a.spikeCpuPct == f.sample.cpuPct && a.spikeBaselinePct == f.sample.baselinePct
                 && a.spikeDelta == f.sample.cpuPct - f.sample.baselinePct
               case MemReport(f, _) =>
                 && a.memAvailableKib == f.available && a.memBaselineKib == f.baseline
                 && a.memDeltaKib == f.delta && a.memUsedPct == f.usedPct
               case SwapReport(f, _) =>
                 a.swapUsedKib == f.used && a.swapBaselineKib == f.baseline && a.swapDeltaKib == f.delta
  {
    hide KindOf;
  }

  lemma KilobytesShown(a: Anomaly)
    ensures var t := DumpRoundTrip.ShowTrigger(a);
            && t.memAvailableKib == DumpRoundTrip.ShownInt(a.memAvailableKib)
            && t.memBaselineKib == DumpRoundTrip.ShownInt(a.memBaselineKib)
            && t.memDeltaKib == DumpRoundTrip.ShownInt(a.memDeltaKib)
            && t.swapUsedKib == DumpRoundTrip.ShownInt(a.swapUsedKib)
            && t.swapBaselineKib == DumpRoundTrip.ShownInt(a.swapBaselineKib)
            && t.swapDeltaKib == DumpRoundTrip.ShownInt(a.swapDeltaKib)
  {
    hide DumpRoundTrip.ShownInt, DumpRoundTrip.ShownDec, JsonRoundTrip.Seen, JsonLexer.Truncate, SpikeDump.TypeName;
  }

  // ----- what a dump tells of an iteration -----

  predicate TellsBlamed(t: JsonValue.Tree, s: ValidSettings, blamed: Option<Sample>) {
    match blamed
    case None =>
      Says(t, "pid", JsonValue.Int(0)) && Says(t, "comm", JsonValue.Str("")) && TellsPolicy(t, PerProcess, 0)
    case Some(x) =>
      && Says(t, "pid", JsonValue.Int(x.pid)) && Says(t, "comm", JsonValue.Str(x.comm))
      && TellsPolicy(t, s.scope, ScopeKey(x, s.scope))
  }

  predicate TellsPolicy(t: JsonValue.Tree, grouping: Scope, key: i32) {
    var policy := Lookup(t, "policy");
    && policy.Some? && Says(policy.value, "scope_key", JsonValue.Int(key))
    && var scope := Lookup(policy.value, "scope");
       scope.Some? && scope.value.Str? && ScopeNamed(scope.value.s) == Some(grouping)
  }

  /** The document's trigger is the finding, by name: its kind, what was found, and whom it blames
      under which key. */
  predicate TellsFinding(t: JsonValue.Tree, s: ValidSettings, r: Report) {
    && Says(t, "type", JsonValue.Str(KindShown(r))) && Says(t, "type_description", JsonValue.Str(KindDescribed(r)))
    && Says(t, "is_new_process", JsonValue.Boolean(r.CpuReport? && r.cpu.isNew))
    && match r
       case Nothing => true
       case CpuReport(f) =>
         && TellsPolicy(t, s.scope, f.key)
         && Says(t, "pid", JsonValue.Int(f.sample.pid)) && Says(t, "comm", JsonValue.Str(f.sample.comm))
         && SaysNearest(t, "cpu_pct", f.sample.cpuPct) && SaysNearest(t, "baseline_pct", f.sample.baselinePct)
         && SaysNearest(t, "delta_pct", f.sample.cpuPct - f.sample.baselinePct)
       case MemReport(f, blamed) =>
         && TellsBlamed(t, s, blamed)
         && Says(t, "mem_available_kib", JsonValue.Int(f.available))
         && Says(t, "mem_baseline_kib", JsonValue.Int(f.baseline))
         && SaysInt(t, "mem_delta_kib", f.delta) && SaysNearest(t, "mem_used_pct", f.usedPct)
       case SwapReport(f, blamed) =>
         && TellsBlamed(t, s, blamed)
         && Says(t, "swap_used_kib", JsonValue.Int(f.used))
         && Says(t, "swap_baseline_kib", JsonValue.Int(f.baseline))
         && SaysInt(t, "swap_delta_kib", f.delta)
  }

  predicate SaysInt(t: JsonValue.Tree, name: string, n: int) {
    var v := Lookup(t, name);
    v.Some? && v.value.Int? && v.value.n == n
  }

  lemma DumpTellsFinding(s: ValidSettings, d: DumpCall, createdAt: Option<SpikeDump.IsoTime>)
    requires Recordable(d.report) && d.originIdx < CAPACITY
    ensures var t := SpikeDump.AnomalyTree(DocumentOf(s, d, createdAt).anomaly);
            TellsFinding(t, s, d.report) && Says(t, "origin_snapshot_index", JsonValue.Int(d.originIdx))
  {
    hide SpikeDump.AnomalyTree, SpikeDump.TypeName, SpikeDump.TypeDescription, KindShown, KindDescribed, Nearest, WholeMib, ScopeNamed, ScopeKey, Lookup, KindOf;
    KindIsNamed(d.report);
    TriggerFigures(DocumentOf(s, d, createdAt).anomaly);
  }

  /** What an iteration dumps is what its evaluation found: a CPU finding is called new when its
      process is in its first two collections, and the key it tells is the one that cools down from
      then on. */
  lemma DumpTellsIteration(t: Tick, v: View, w: View, dump: Option<DumpCall>, later: nat, createdAt: Option<SpikeDump.IsoTime>)
    requires Iteration(t, v, w, dump) && dump.Some? && Recordable(dump.value.report) && Cooldown.Unique(v.state.table)
    requires later - dump.value.timestampNs < DetectorConfig(w.settings).cooldownNs
    ensures dump.value.originIdx < CAPACITY
    ensures var r := dump.value.report;
            && TellsFinding(SpikeDump.AnomalyTree(DocumentOf(w.settings, dump.value, createdAt).anomaly), w.settings, r)
            && (r.CpuReport? ==>
                 && r.cpu.sample in t.collected.value.samples
                 && (r.cpu.isNew <==> r.cpu.sample.sampleCount < 3)
                 && r.cpu.key in Cooldown.Cooling(w.state.table, later, DetectorConfig(w.settings).cooldownNs))
  {
    hide Step, FindingsOf, Alarms.Free, Alarms.Height, DetectorConfig, TellsFinding, Recordable, Cooldown.Cooling, Origin, Recent;
    DumpIsFound(t, v, w, dump);
    DumpTellsFinding(w.settings, dump.value, createdAt);
    ReloadForgets(t, v, w, dump);
    ReloadTakesEffect(t, v, w, dump);
    var before := if t.reload.NoReload? then v.state else INITIAL;
    var Collected(snap, samples) := t.collected.value;
    Alarms.CpuAlarmExactly(w.settings, samples, before.table, snap.timestampNs);
    if dump.value.report.CpuReport? {
      CpuPart(DetectorConfig(w.settings), samples, snap.mem, snap.timestampNs, before, dump.value.report);
      Alarms.ReportedKeyCools(DetectorConfig(w.settings), samples, snap.mem, snap.timestampNs, later, before, w.state);
    }
  }

  lemma CpuPart(c: Config, samples: seq<Sample>, m: MemSnapshot, now: nat, s: State, r: Report)
    requires r.CpuReport? && HasFinding(FindingsOf(c, samples, m, now, s), r)
    ensures CpuFinding(c, samples, s.table, now) == Some(r.cpu)
  {
    hide CpuFinding;
  }

  /** What the viewer shows of the text of a readable dump is the finding it was written for, and
      the process lists of the snapshot that triggered it. */
  lemma ViewerShowsFinding(
    s: ValidSettings, h: seq<Snapshot>, r: Report, ns: u64, createdAt: Option<SpikeDump.IsoTime>)
    requires h != [] && Recordable(r)
    requires DumpReadable.ReadableDump(DocumentOf(s, DumpOf(s, h, r, ns), createdAt))
    ensures var text := JsonValue.Print(SpikeDump.DumpTree(DocumentOf(s, DumpOf(s, h, r, ns), createdAt)));
            && JsonLexer.Clean(text)
            && var shown := DumpViewer.SummaryFrom(JsonLexer.Init(text), DumpViewer.NO_SUMMARY);
               && shown.gotFirst && shown.timestampNs == DumpRoundTrip.ShownInt(ns)
               && ShowsFinding(shown.trigger, r)
               && shown.cpuProcs == DumpRoundTrip.ShowProcs(h[|h| - 1].procs)
               && shown.rssProcs == DumpRoundTrip.ShowProcs(h[|h| - 1].topRss)
  {
    hide JsonValue.Print, SpikeDump.DumpTree, JsonLexer.Clean, DumpViewer.SummaryFrom, ShowsFinding, DumpRoundTrip.ShowTrigger,
         DumpReadable.ReadableDump, Origin, Recent;
    var call := DumpOf(s, h, r, ns);
    DumpGoesBack(s, h, r, ns);
    TriggerShowsFinding(s, call, createdAt);
    DumpRoundTrip.ViewerShowsDump(DocumentOf(s, call, createdAt));
  }
}
