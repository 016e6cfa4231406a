/** The daemon's main loop: sample, remember, detect, dump. */
module Daemon {
  import opened Snapshots
  import opened AnomalyDetector
  import opened ConfigValidation
  import opened RingBuffer
  import Cooldown
  import DetectorRuns
  import SpikeDump

  const MAX_CONTEXT: nat := 60

  /** A request to reload the configuration, which may fail to load. */
  datatype Reload = NoReload | Reloaded(settings: Settings) | ReloadFailed

  datatype Collected = Collected(snapshot: Snapshot, samples: seq<Sample>)

  /** What one iteration meets: a reload or none, what was sampled if sampling succeeded, the clock. */
  datatype Tick = Tick(reload: Reload, collected: Option<Collected>, clock: u64)

  /** What the dump writer is asked to write. */
  datatype DumpCall = DumpCall(snapshots: seq<Snapshot>, report: Report, originIdx: nat, timestampNs: u64)

  /** The state between iterations. */
  datatype View = View(settings: ValidSettings, state: State, history: seq<Snapshot>)

  // ----- one iteration -----

  /** A reload resets the detector, also when the old settings stay. */
  function AfterReload(v: View, r: Reload): View {
    match r
    case NoReload => v
    case Reloaded(s) => v.(settings := Validated(s), state := INITIAL)
    case ReloadFailed => v.(state := INITIAL)
  }

  predicate Enabled(c: Collection, r: Report) {
    match r
    case Nothing => false
    case CpuReport(_) => c.cpuDetection
    case MemReport(_, _) => c.memDetection
    case SwapReport(_, _) => c.swapDetection
  }

  /** The process a report blames, 0 when there is none. */
  function SpikePid(r: Report): i32 {
    match r
    case Nothing => 0
    case CpuReport(t) => t.sample.pid
    case MemReport(_, blamed) => if blamed.Some? then blamed.value.pid else 0
    case SwapReport(_, blamed) => if blamed.Some? then blamed.value.pid else 0
  }

  /** From this share of the CPU on, the blamed process counts as spiking. */
  function OriginThreshold(t: Thresholds, r: Report): real {
    if r.CpuReport? && r.cpu.isNew then t.newProcessPct * 0.5 else 1.0
  }

  /** How many snapshots a dump is given. */
  function ContextSize(s: Settings, h: seq<Snapshot>): (n: nat)
    ensures n <= |h|
  {
    Min(Min(s.collection.contextSnapshots, MAX_CONTEXT), Min(|h|, CAPACITY))
  }

  /** The origin of the spike, as far back as the ring reaches; -1 for none. */
  function SpikeOrigin(s: Settings, h: seq<Snapshot>, r: Report): int {
    Origin(Recent(h), SpikePid(r), OriginThreshold(s.thresholds, r))
  }

  function DumpOf(s: Settings, h: seq<Snapshot>, r: Report, timestampNs: u64): (d: DumpCall)
    ensures d.report == r && d.timestampNs == timestampNs && d.originIdx < CAPACITY
  {
    var n := ContextSize(s, h);
    var origin := SpikeOrigin(s, h, r);
    DumpCall(Newest(h, n), r, if 0 <= origin < n then origin else 0, timestampNs)
  }

  /** One iteration from `v` to `w`, with what it dumps. */
  ghost predicate Iteration(t: Tick, v: View, w: View, dump: Option<DumpCall>) {
    var u := AfterReload(v, t.reload);
    w.settings == u.settings &&
    if t.collected.None? then w == u && dump.None?
    else
      var Collected(snap, samples) := t.collected.value;
      var c := DetectorConfig(u.settings);
      && w.history == u.history + [Stamped(snap, t.clock)]
      && Step(c, samples, snap.mem, snap.timestampNs, u.state, w.state)
      && exists r ::
           && Reports(FindingsOf(c, samples, snap.mem, snap.timestampNs, u.state), samples, r)
           && dump == if Enabled(u.settings.collection, r)
                      then Some(DumpOf(u.settings, w.history, r, snap.timestampNs)) else None
  }

  // ----- what a dump contains -----

  /** The snapshots the dump writer keeps of those it is given. */
  function WrittenOf(d: DumpCall): seq<Snapshot> {
    SpikeDump.Written(d.snapshots)
  }

  ghost predicate IncreasingTimes(h: seq<Snapshot>) {
    forall i, j :: 0 <= i < j < |h| ==> h[i].timestampNs < h[j].timestampNs
  }

  /** A dump is written newest first from the snapshot that triggered it, going back in time
      without gaps. */
  lemma DumpGoesBack(s: ValidSettings, h: seq<Snapshot>, r: Report, ns: u64)
    requires h != []
    ensures var w := WrittenOf(DumpOf(s, h, r, ns));
            && |DumpOf(s, h, r, ns).snapshots| == Min(Min(s.collection.contextSnapshots, |h|), 60)
            && 0 < |w| == Min(Min(s.collection.contextSnapshots, |h|), 10)
            && w == Newest(h, |w|) && w[0] == h[|h| - 1]
            && (IncreasingTimes(h) ==> forall i, j :: 0 <= i < j < |w| ==> w[i].timestampNs > w[j].timestampNs)
  {
  }

  /** What the origin index says about the dump it comes with: up to it, every snapshot lists
      the blamed process, and the next one does not. Zero stands, besides, for a process that is
      not listed at all and for one that is listed in the whole dump and before it. */
  lemma OriginMeaning(s: ValidSettings, h: seq<Snapshot>, r: Report, ns: u64)
    requires h != []
    ensures var d := DumpOf(s, h, r, ns);
            var pid, t := SpikePid(r), OriginThreshold(s.thresholds, r);
            var k := d.originIdx;
            && k < |d.snapshots|
            && (|| IsOrigin(d.snapshots, pid, t, k)
                || (k == 0 && !Lists(d.snapshots[0], pid, t))
                || (k == 0 && forall i :: 0 <= i < |d.snapshots| ==> Lists(d.snapshots[i], pid, t)))
  {
    var d := DumpOf(s, h, r, ns);
    var pid, t := SpikePid(r), OriginThreshold(s.thresholds, r);
    var origin := Origin(Recent(h), pid, t);
    OriginMeets(Recent(h), pid, t);
    assert forall i :: 0 <= i < |d.snapshots| ==> d.snapshots[i] == Recent(h)[i];
    hide Lists, Origin, Recent;
  }

  /** What counts towards it: a snapshot whose CPU list has the blamed process at half the threshold
      for new processes, if it was reported as one, and at one percent otherwise. */
  lemma CountsTowardsOrigin(s: ValidSettings, r: Report, snap: Snapshot)
    ensures Lists(snap, SpikePid(r), OriginThreshold(s.thresholds, r)) <==>
              exists e :: e in snap.procs && e.pid == SpikePid(r) &&
                if r.CpuReport? && r.cpu.isNew then 2.0 * e.cpuPct >= s.thresholds.newProcessPct else e.cpuPct >= 1.0
  {
  }

  /** The origin index points into the written array unless the run began in one of the context
      snapshots that are not written. */
  lemma OriginInside(s: ValidSettings, h: seq<Snapshot>, r: Report, ns: u64)
    requires h != []
    ensures var d := DumpOf(s, h, r, ns);
            d.originIdx < |WrittenOf(d)| <==> !(SpikeDump.MAX_SNAPSHOTS <= SpikeOrigin(s, h, r) < ContextSize(s, h))
  {
    hide Origin;
  }

  // ----- which findings are dumped -----

  /** Any of the three findings of an iteration. */
  predicate HasFinding(f: Findings, r: Report) {
    match r
    case Nothing => false
    case CpuReport(t) => f.cpu == Some(t)
    case MemReport(t, _) => f.mem == Some(t)
    case SwapReport(t, _) => f.swap == Some(t)
  }

  /** Nothing more urgent was found. */
  predicate MostUrgent(f: Findings, r: Report) {
    && (r.MemReport? ==> f.cpu.None?)
    && (r.SwapReport? ==> f.cpu.None? && f.mem.None?)
  }

  /** The iteration's dump, if any, is about `r`, up to the process blamed for it. */
  predicate DumpsIt(dump: Option<DumpCall>, r: Report) {
    dump.Some? && match r
      case Nothing => false
      case CpuReport(t) => dump.value.report == r
      case MemReport(t, _) => dump.value.report.MemReport? && dump.value.report.mem == t
      case SwapReport(t, _) => dump.value.report.SwapReport? && dump.value.report.swap == t
  }

  /** A finding is dumped exactly when its detection is enabled and nothing more urgent was found;
      and what was found but is disabled still hides what is less urgent. */
  lemma DumpsExactly(t: Tick, v: View, w: View, dump: Option<DumpCall>, r: Report)
    requires Iteration(t, v, w, dump) && t.collected.Some?
    requires var u := AfterReload(v, t.reload);
             var Collected(snap, samples) := t.collected.value;
             HasFinding(FindingsOf(DetectorConfig(u.settings), samples, snap.mem, snap.timestampNs, u.state), r)
    ensures var u := AfterReload(v, t.reload);
            var Collected(snap, samples) := t.collected.value;
            var f := FindingsOf(DetectorConfig(u.settings), samples, snap.mem, snap.timestampNs, u.state);
            DumpsIt(dump, r) <==> Enabled(u.settings.collection, r) && MostUrgent(f, r)
  {
    hide FindingsOf, DetectorConfig, Step, DumpOf, Stamped, IsTopRss;
  }

  /** So of each kind there is a dump exactly when its toggle is on and neither it nor anything more
      urgent is missing or found, respectively. */
  lemma EachKindDumped(t: Tick, v: View, w: View, dump: Option<DumpCall>)
    requires Iteration(t, v, w, dump) && t.collected.Some?
    ensures var before := if t.reload.NoReload? then v.state else INITIAL;
            var Collected(snap, samples) := t.collected.value;
            var f := FindingsOf(DetectorConfig(w.settings), samples, snap.mem, snap.timestampNs, before);
            var on := w.settings.collection;
            && (dump.Some? && dump.value.report.CpuReport? <==> on.cpuDetection && f.cpu.Some?)
            && (dump.Some? && dump.value.report.MemReport? <==> on.memDetection && f.cpu.None? && f.mem.Some?)
            && (dump.Some? && dump.value.report.SwapReport? <==>
                  on.swapDetection && f.cpu.None? && f.mem.None? && f.swap.Some?)
            && (dump.Some? ==> !dump.value.report.Nothing?)
  {
    hide FindingsOf, DetectorConfig, Step, DumpOf, Stamped, IsTopRss;
  }

  // ----- what a reload does -----

  /** A reload that loads brings in what validation leaves of the new settings; one that fails and
      an iteration without one leave the old settings. */
  lemma ReloadTakesEffect(t: Tick, v: View, w: View, dump: Option<DumpCall>)
    requires Iteration(t, v, w, dump)
    ensures t.reload.Reloaded? ==> w.settings == Validated(t.reload.settings)
    ensures !t.reload.Reloaded? ==> w.settings == v.settings
  {
    hide Step, Reports, FindingsOf, DetectorConfig, DumpOf, Stamped, Validated;
  }

  /** The detector goes on from where it was without a reload, and from the start with one. */
  lemma ReloadForgets(t: Tick, v: View, w: View, dump: Option<DumpCall>)
    requires Iteration(t, v, w, dump)
    ensures var before := if t.reload.NoReload? then v.state else INITIAL;
            if t.collected.None? then w.state == before && w.history == v.history && dump.None?
            else
              var Collected(snap, samples) := t.collected.value;
              && Step(DetectorConfig(w.settings), samples, snap.mem, snap.timestampNs, before, w.state)
              && w.history == v.history + [Stamped(snap, t.clock)]
  {
    hide Step, Reports, FindingsOf, DetectorConfig, DumpOf, Stamped, Validated;
  }

  /** So right after one nothing is cooling down and no baseline is known: what is dumped is about
      the CPU, and something is dumped exactly when that detection is enabled and a sample spikes. */
  lemma ReloadStartsAfresh(t: Tick, v: View, w: View, dump: Option<DumpCall>)
    requires Iteration(t, v, w, dump) && !t.reload.NoReload? && t.collected.Some?
    ensures dump.Some? ==> dump.value.report.CpuReport?
    ensures dump.Some? <==>
              && w.settings.collection.cpuDetection
              && exists x :: x in t.collected.value.samples && Eligible(DetectorConfig(w.settings), x, {})
  {
    hide Step, DetectorConfig, DumpOf, Stamped, Validated, IsTopRss, Eligible;
    var Collected(snap, samples) := t.collected.value;
    FirstFindings(DetectorConfig(w.settings), samples, snap.mem, snap.timestampNs);
    hide FindingsOf;
  }

  /** A first evaluation finds nothing but spikes of the CPU. */
  lemma FirstFindings(c: Config, samples: seq<Sample>, m: MemSnapshot, now: nat)
    ensures var f := FindingsOf(c, samples, m, now, INITIAL);
            && f.mem.None? && f.swap.None?
            && (f.cpu.Some? <==> exists x :: x in samples && Eligible(c, x, {}))
  {
    hide Pick, Eligible;
    assert Cooldown.Cooling([], now, c.cooldownNs) == {};
    PickIsArgmax(c, samples, {});
    var p := Pick(c, samples, {});
    assert p.Some? ==> samples[p.value] in samples;
  }

  /** Over any run, the settings of an iteration are those of the last successful reload so far, or
      those it started with. */
  lemma {:induction false} SettingsInForce(ts: seq<Tick>, vs: seq<View>, dumps: seq<Option<DumpCall>>, n: nat)
    returns (j: int)
    requires |vs| == |ts| + 1 && |dumps| == |ts| && n <= |ts|
    requires forall i :: 0 <= i < |ts| ==> Iteration(ts[i], vs[i], vs[i + 1], dumps[i])
    ensures -1 <= j < n && forall i :: j < i < n ==> !ts[i].reload.Reloaded?
    ensures j >= 0 ==> ts[j].reload.Reloaded? && vs[n].settings == Validated(ts[j].reload.settings)
    ensures j == -1 ==> vs[n].settings == vs[0].settings
  {
    hide Iteration, Validated;
    if n == 0 {
      j := -1;
    } else {
      ReloadTakesEffect(ts[n - 1], vs[n - 1], vs[n], dumps[n - 1]);
      if ts[n - 1].reload.Reloaded? {
        j := n - 1;
      } else {
        j := SettingsInForce(ts, vs, dumps, n - 1);
      }
    }
  }

  // ----- whole runs -----

  /** From the start of the daemon, or from a reload, on to the next one. */
  ghost predicate Segment(ts: seq<Tick>, vs: seq<View>, dumps: seq<Option<DumpCall>>) {
    && ts != [] && |vs| == |ts| + 1 && |dumps| == |ts|
    && AfterReload(vs[0], ts[0].reload).state == INITIAL
    && (forall i :: 0 < i < |ts| ==> ts[i].reload.NoReload?)
    && (forall i :: 0 <= i < |ts| ==> Iteration(ts[i], vs[i], vs[i + 1], dumps[i]))
  }

  function InputOf(c: Collected): DetectorRuns.Input {
    DetectorRuns.Input(c.samples, c.snapshot.mem, c.snapshot.timestampNs)
  }

  /** What the detector is given over a segment. */
  function Inputs(ts: seq<Tick>): seq<DetectorRuns.Input> {
    if ts == [] then []
    else
      var last := ts[|ts| - 1];
      Inputs(ts[..|ts| - 1]) + if last.collected.Some? then [InputOf(last.collected.value)] else []
  }

  /** The detector's states between those inputs. */
  function States(ts: seq<Tick>, vs: seq<View>): (ss: seq<State>)
    requires |vs| == |ts| + 1
    ensures |ss| == |Inputs(ts)| + 1
  {
    if ts == [] then [INITIAL]
    else
      var n := |ts| - 1;
      States(ts[..n], vs[..n + 1]) + if ts[n].collected.Some? then [vs[n + 1].state] else []
  }

  /** Between two reloads the daemon takes the detector through one of its runs: whatever holds
      of those holds of the daemon. */
  lemma {:induction false} SegmentIsRun(ts: seq<Tick>, vs: seq<View>, dumps: seq<Option<DumpCall>>)
    requires Segment(ts, vs, dumps) && DetectorRuns.Increasing(Inputs(ts))
    ensures vs[|ts|].settings == vs[1].settings
    ensures DetectorRuns.Run(DetectorConfig(vs[1].settings), Inputs(ts), States(ts, vs))
    ensures States(ts, vs)[|Inputs(ts)|] == vs[|ts|].state
    decreases |ts|
  {
    hide DetectorConfig, Step, FindingsOf;
    var n := |ts| - 1;
    var ins, ss := Inputs(ts[..n]), States(ts[..n], vs[..n + 1]);
    assert Iteration(ts[n], vs[n], vs[n + 1], dumps[n]);
    if n > 0 {
      IncreasingPrefix(Inputs(ts), ins);
      SegmentIsRun(ts[..n], vs[..n + 1], dumps[..n]);
    } else {
      assert ins == [] && ss == [INITIAL];
    }
    assert ss[|ins|] == AfterReload(vs[n], ts[n].reload).state;
  }

  lemma {:induction false} IncreasingPrefix(a: seq<DetectorRuns.Input>, b: seq<DetectorRuns.Input>)
    requires DetectorRuns.Increasing(a) && |b| <= |a| && a[..|b|] == b
    ensures DetectorRuns.Increasing(b)
  {
    assert forall i :: 0 <= i < |b| ==> b[i] == a[i];
  }

  /** Over any run from the start, reloads included, the history holds what was sampled, with
      times that increase as long as the sampler's do. */
  lemma {:induction false} HistoryIsSampled(ts: seq<Tick>, vs: seq<View>, dumps: seq<Option<DumpCall>>)
    requires |vs| == |ts| + 1 && |dumps| == |ts| && vs[0].history == []
    requires forall i :: 0 <= i < |ts| ==> Iteration(ts[i], vs[i], vs[i + 1], dumps[i])
    requires DetectorRuns.Increasing(Inputs(ts))
    ensures var h := vs[|ts|].history;
            && |h| == |Inputs(ts)| && IncreasingTimes(h)
            && forall i :: 0 <= i < |h| ==> h[i].timestampNs == Inputs(ts)[i].now && h[i].mem == Inputs(ts)[i].mem
    decreases |ts|
  {
    hide DetectorConfig, Step, FindingsOf, Reports, DumpOf;
    if ts != [] {
      var n := |ts| - 1;
      var ins := Inputs(ts[..n]);
      assert Iteration(ts[n], vs[n], vs[n + 1], dumps[n]);
      IncreasingPrefix(Inputs(ts), ins);
      HistoryIsSampled(ts[..n], vs[..n + 1], dumps[..n]);
      assert Inputs(ts) == ins + if ts[n].collected.Some? then [InputOf(ts[n].collected.value)] else [];
      assert ts[n].collected.Some? ==> Inputs(ts)[|ins|].now > 0;
      hide Inputs;
    }
  }

  lemma {:induction false} RunPrefix(ts: seq<Tick>, vs: seq<View>, i: nat)
    requires |vs| == |ts| + 1 && i <= |ts|
    ensures Inputs(ts[..i]) <= Inputs(ts) && States(ts[..i], vs[..i + 1]) <= States(ts, vs)
    ensures |Inputs(ts)| - |Inputs(ts[..i])| <= |ts| - i
    decreases |ts|
  {
    var n := |ts| - 1;
    if i <= n {
      RunPrefix(ts[..n], vs[..n + 1], i);
      assert ts[..n][..i] == ts[..i] && vs[..n + 1][..i + 1] == vs[..i + 1];
    } else {
      assert ts[..i] == ts && vs[..i + 1] == vs;
    }
  }

  /** Where in the detector's run the evaluation of tick `i` is. */
  lemma {:induction false} EvaluationAt(ts: seq<Tick>, vs: seq<View>, dumps: seq<Option<DumpCall>>, i: nat) returns (p: nat)
    requires Segment(ts, vs, dumps) && DetectorRuns.Increasing(Inputs(ts)) && i < |ts| && ts[i].collected.Some?
    ensures p == |Inputs(ts[..i])| < |Inputs(ts)|
    ensures Inputs(ts)[p] == InputOf(ts[i].collected.value)
    ensures States(ts, vs)[p] == AfterReload(vs[i], ts[i].reload).state
    ensures vs[i + 1].settings == vs[1].settings
    ensures p + 1 == |Inputs(ts[..i + 1])|
  {
    hide Iteration, DetectorConfig, Segment, States, DetectorRuns.Increasing, DetectorRuns.Run;
    SegmentShape(ts, vs, dumps);
    p := |Inputs(ts[..i])|;
    RunPrefix(ts, vs, i);
    RunPrefix(ts, vs, i + 1);
    PrefixIsRun(ts, vs, dumps, i + 1);
    assert ts[..i + 1][..i] == ts[..i];
    StateBefore(ts, vs, dumps, i);
  }

  lemma {:induction false} PrefixIsRun(ts: seq<Tick>, vs: seq<View>, dumps: seq<Option<DumpCall>>, k: nat)
    requires Segment(ts, vs, dumps) && DetectorRuns.Increasing(Inputs(ts)) && 0 < k <= |ts|
    requires |vs| == |ts| + 1 && |dumps| == |ts|
    ensures vs[k].settings == vs[1].settings
    ensures States(ts[..k], vs[..k + 1])[|Inputs(ts[..k])|] == vs[k].state
  {
    hide Iteration, Inputs, States, DetectorConfig, DetectorRuns.Increasing, DetectorRuns.Run;
    RunPrefix(ts, vs, k);
    IncreasingPrefix(Inputs(ts), Inputs(ts[..k]));
    SegmentIsRun(ts[..k], vs[..k + 1], dumps[..k]);
  }

  lemma {:induction false} StateBefore(ts: seq<Tick>, vs: seq<View>, dumps: seq<Option<DumpCall>>, i: nat)
    requires Segment(ts, vs, dumps) && DetectorRuns.Increasing(Inputs(ts)) && i < |ts|
    requires |vs| == |ts| + 1 && |dumps| == |ts|
    ensures States(ts[..i], vs[..i + 1])[|Inputs(ts[..i])|] == AfterReload(vs[i], ts[i].reload).state
  {
    hide Iteration, DetectorConfig, DetectorRuns.Increasing, DetectorRuns.Run;
    if i > 0 {
      PrefixIsRun(ts, vs, dumps, i);
    }
  }

  /** Both dumps are about the memory, or about the swap, or about the same key. */
  predicate SameAlarm(d: DumpCall, e: DumpCall) {
    || (d.report.MemReport? && e.report.MemReport?)
    || (d.report.SwapReport? && e.report.SwapReport?)
    || (d.report.CpuReport? && e.report.CpuReport? && d.report.cpu.key == e.report.cpu.key)
  }

  /** Between two reloads, dumps about the same thing are at least a cooldown apart. For a CPU key
      this takes fewer than 64 iterations between them, as many as the table has slots. */
  lemma {:induction false} DumpsSpaced(ts: seq<Tick>, vs: seq<View>, dumps: seq<Option<DumpCall>>, i: nat, j: nat)
    requires Segment(ts, vs, dumps) && DetectorRuns.Increasing(Inputs(ts)) && i < j < |ts|
    requires dumps[i].Some? && dumps[j].Some? && SameAlarm(dumps[i].value, dumps[j].value)
    requires dumps[i].value.report.CpuReport? ==> j - i - 1 < 64
    ensures dumps[j].value.timestampNs - dumps[i].value.timestampNs >= DetectorConfig(vs[1].settings).cooldownNs
  {
    hide Segment, DetectorConfig, Inputs, States, CpuFinding, MemFires, SwapFires, DetectorRuns.Run;
    SegmentShape(ts, vs, dumps);
    var c, ins, ss := DetectorConfig(vs[1].settings), Inputs(ts), States(ts, vs);
    SegmentIsRun(ts, vs, dumps);
    var p := Dumped(ts, vs, dumps, i);
    var q := Dumped(ts, vs, dumps, j);
    Between(ts, vs, i, j);
    match dumps[i].value.report
    case MemReport(_, _) => DetectorRuns.MemSpacing(c, ins, ss, p, q);
    case SwapReport(_, _) => DetectorRuns.SwapSpacing(c, ins, ss, p, q);
    case CpuReport(t) => DetectorRuns.CooldownExact(c, ins, ss, t.key, p, q);
    case Nothing =>
  }

  lemma {:induction false} SegmentShape(ts: seq<Tick>, vs: seq<View>, dumps: seq<Option<DumpCall>>)
    requires Segment(ts, vs, dumps)
    ensures |vs| == |ts| + 1 && |dumps| == |ts|
  {
  }

  /** No more evaluations lie between two ticks than ticks. */
  lemma {:induction false} Between(ts: seq<Tick>, vs: seq<View>, i: nat, j: nat)
    requires i < j < |ts| && |vs| == |ts| + 1
    ensures |Inputs(ts[..i + 1])| <= |Inputs(ts[..j])| <= |Inputs(ts[..i + 1])| + (j - i - 1)
  {
    hide Inputs, States;
    RunPrefix(ts[..j], vs[..j + 1], i + 1);
    assert ts[..j][..i + 1] == ts[..i + 1];
  }

  /** A dump tells of what the detector found in the evaluation of its tick. */
  lemma {:induction false} Dumped(ts: seq<Tick>, vs: seq<View>, dumps: seq<Option<DumpCall>>, i: nat) returns (p: nat)
    requires Segment(ts, vs, dumps) && DetectorRuns.Increasing(Inputs(ts)) && i < |ts| && dumps[i].Some?
    ensures p == |Inputs(ts[..i])| < |Inputs(ts)| && p + 1 == |Inputs(ts[..i + 1])|
    ensures Inputs(ts)[p].now == dumps[i].value.timestampNs
    ensures var n, s := Inputs(ts)[p], States(ts, vs)[p];
            HasFinding(FindingsOf(DetectorConfig(vs[1].settings), n.samples, n.mem, n.now, s), dumps[i].value.report)
  {
    hide Inputs, States, FindingsOf, DetectorConfig, Step;
    DumpIsFound(ts[i], vs[i], vs[i + 1], dumps[i]);
    p := EvaluationAt(ts, vs, dumps, i);
    SameSettings(ts, vs, dumps, i);
  }

  lemma {:induction false} SameSettings(ts: seq<Tick>, vs: seq<View>, dumps: seq<Option<DumpCall>>, i: nat)
    requires Segment(ts, vs, dumps) && i < |ts|
    ensures vs[i + 1].settings == AfterReload(vs[i], ts[i].reload).settings
  {
    hide Step, DetectorConfig, FindingsOf, DumpOf;
    assert Iteration(ts[i], vs[i], vs[i + 1], dumps[i]);
  }

  lemma DumpIsFound(t: Tick, v: View, w: View, dump: Option<DumpCall>)
    requires Iteration(t, v, w, dump) && dump.Some?
    ensures t.collected.Some? && dump.value.timestampNs == t.collected.value.snapshot.timestampNs
    ensures var u := AfterReload(v, t.reload);
            var Collected(snap, samples) := t.collected.value;
            HasFinding(FindingsOf(DetectorConfig(u.settings), samples, snap.mem, snap.timestampNs, u.state), dump.value.report)
  {
    hide FindingsOf, DetectorConfig, Step, IsTopRss;
  }

  // ----- the loop -----

  class Loop {
    var settings: ValidSettings
    const detector: Detector
    const ring: Ring
    const dumpSnaps: array<Snapshot>

    ghost predicate Valid()
      reads this, detector, detector.cooldowns, ring, ring.snapshots
    {
      && detector.Valid() && ring.Valid()
      && dumpSnaps.Length == MAX_CONTEXT && dumpSnaps != ring.snapshots
    }

    ghost function Abstract(): View
      reads this, detector, detector.cooldowns, ring, ring.snapshots
      requires Valid()
    {
      View(settings, State(detector.Contents(), detector.mem, detector.swap), ring.history)
    }

    constructor (s: ValidSettings, blank: Snapshot)
      ensures Valid() && Abstract() == View(s, INITIAL, [])
      ensures fresh(detector) && fresh(detector.cooldowns) && fresh(ring) && fresh(ring.snapshots) && fresh(dumpSnaps)
    {
      settings := s;
      detector := new Detector();
      ring := new Ring(blank);
      dumpSnaps := new Snapshot[MAX_CONTEXT](_ => blank);
    }

    method Iterate(t: Tick) returns (dump: Option<DumpCall>)
      requires Valid()
      modifies `settings, detector, detector.cooldowns, ring, ring.snapshots, dumpSnaps
      ensures Valid() && Iteration(t, old(Abstract()), Abstract(), dump)
    {
      match t.reload {
        case NoReload =>
        case Reloaded(s) =>
          settings := Validated(s);
          detector.Reset();
        case ReloadFailed =>
          detector.Reset();
      }
      dump := None;
      if t.collected.Some? {
        dump := Sampled(t.collected.value, t.clock);
      }
    }

    /** The part of an iteration after a sample has been taken. */
    method Sampled(sampled: Collected, clock: u64) returns (dump: Option<DumpCall>)
      requires Valid()
      modifies detector, detector.cooldowns, ring, ring.snapshots, dumpSnaps
      ensures Valid() && Iteration(Tick(NoReload, Some(sampled), clock), old(Abstract()), Abstract(), dump)
    {
      hide Step, Reports, FindingsOf, DetectorConfig, Origin, Recent, Newest, Stamped;
      var Collected(snap, samples) := sampled;
      var c := DetectorConfig(settings);
      var on := settings.collection;
      ring.Push(snap, clock);
      var report := Nothing;
      if on.cpuDetection || on.memDetection || on.swapDetection {
        report := detector.Evaluate(c, samples, snap.mem, snap.timestampNs);
      }
      dump := None;
      if Enabled(on, report) {
        var wanted := Min(on.contextSnapshots, MAX_CONTEXT);
        var count := ring.GetRecent(dumpSnaps, wanted);
        var origin := ring.FindSpikeOrigin(SpikePid(report), OriginThreshold(settings.thresholds, report));
        if count > 0 {
          dump := Some(DumpCall(dumpSnaps[..count], report, if 0 <= origin < count then origin else 0, snap.timestampNs));
        }
      }
    }
  }
}
