/** Where origin indices point over the daemon's runs, on what its sampler gives it. */
module OriginLimit {
  import opened Snapshots
  import opened AnomalyDetector
  import opened ConfigValidation
  import opened RingBuffer
  import opened ProcTracker
  import opened Sampling
  import opened Daemon
  import Cooldown
  import DetectorRuns
  import SpikeDump

  // ----- the daemon together with its sampler -----

  /** What an iteration is given of the processes comes from one scan, in the detector's samples and
      in the lists of the snapshot. */
  ghost predicate SampledTick(t: Tick, scan: Scan, z: Sampler, y: Sampler, s: ValidSettings) {
    match t.collected
    case None => y == z
    case Some(got) =>
      && Samples(z, scan, y, s.tuning.procAlpha) && got.samples == y.context
      && ListsAgree(scan, y, got.snapshot, s.collection.topStored)
  }

  /** A run of the daemon from its start with settings `s0`, through any reloads. */
  ghost predicate DaemonRun(
    s0: ValidSettings, ts: seq<Tick>, vs: seq<View>, dumps: seq<Option<DumpCall>>, scans: seq<Scan>, zs: seq<Sampler>)
  {
    && |vs| == |ts| + 1 && |dumps| == |ts| && |scans| == |ts| && |zs| == |ts| + 1
    && vs[0] == View(s0, INITIAL, []) && zs[0] == FRESH
    && DetectorRuns.Increasing(Inputs(ts))
    && forall i :: 0 <= i < |ts| ==>
         && Iteration(ts[i], vs[i], vs[i + 1], dumps[i])
         && SampledTick(ts[i], scans[i], zs[i], zs[i + 1], vs[i + 1].settings)
  }

  /** Under settings `s`, the origin index of every dump of every run points into its array. */
  ghost predicate OriginsInside(s: ValidSettings) {
    forall s0, ts, vs: seq<View>, dumps: seq<Option<DumpCall>>, scans, zs, i: nat ::
      DaemonRun(s0, ts, vs, dumps, scans, zs) && i < |ts| && vs[i + 1].settings == s && dumps[i].Some? ==>
      dumps[i].value.originIdx < |WrittenOf(dumps[i].value)|
  }

  /** They all do exactly when the context is no larger than what a dump holds. */
  lemma OriginAlwaysInside(s: ValidSettings)
    ensures OriginsInside(s) <==> s.collection.contextSnapshots <= SpikeDump.MAX_SNAPSHOTS
  {
    hide OriginsInside;
    if s.collection.contextSnapshots <= SpikeDump.MAX_SNAPSHOTS {
      SmallContextsInside(s);
    } else {
      var sh := RampIsSchedule(s);
      ScheduleOutside(s, sh);
    }
  }

  lemma SmallContextsInside(s: ValidSettings)
    requires s.collection.contextSnapshots <= SpikeDump.MAX_SNAPSHOTS
    ensures OriginsInside(s)
  {
    hide Iteration, SampledTick, WrittenOf, DetectorRuns.Increasing;
    forall s0, ts, vs: seq<View>, dumps: seq<Option<DumpCall>>, scans, zs, i: nat |
      DaemonRun(s0, ts, vs, dumps, scans, zs) && i < |ts| && vs[i + 1].settings == s && dumps[i].Some?
      ensures dumps[i].value.originIdx < |WrittenOf(dumps[i].value)|
    {
      SmallContextInside(ts[i], vs[i], vs[i + 1], dumps[i]);
    }
  }

  lemma SmallContextInside(t: Tick, v: View, w: View, dump: Option<DumpCall>)
    requires Iteration(t, v, w, dump) && dump.Some?
    requires w.settings.collection.contextSnapshots <= SpikeDump.MAX_SNAPSHOTS
    ensures dump.value.originIdx < |WrittenOf(dump.value)|
  {
    hide Step, FindingsOf, Origin, Recent, Reports, DetectorConfig;
    OriginInside(w.settings, w.history, dump.value.report, dump.value.timestampNs);
  }

  // ----- a process whose share of the CPU follows a schedule -----

  /** Shares in twentieths of a percent: ticks of the process for 2000 of the system. */
  type Shares = sh: seq<nat> | 12 <= |sh| <= 100000 && forall i :: 0 <= i < |sh| ==> sh[i] <= 24000
    witness seq(12, _ => 0)

  function Share(sh: Shares, i: nat): real
    requires i < |sh|
  {
    if i == 0 then 0.0 else sh[i] as real / 20.0
  }

  function Blend(alpha: real, x: real, b: real): real {
    alpha * x + (1.0 - alpha) * b
  }

  function Damped(alpha: real, x: real, b: real): real {
    (1.0 - alpha) * (x - b)
  }

  function Base(alpha: real, sh: Shares, i: nat): real
    requires i < |sh|
  {
    if i == 0 then 0.0 else Blend(alpha, Share(sh, i), Base(alpha, sh, i - 1))
  }

  function Rise(alpha: real, sh: Shares, i: nat): real
    requires 0 < i < |sh|
  {
    Damped(alpha, Share(sh, i), Base(alpha, sh, i - 1))
  }

  /** Nothing to report before the last second; in it a spike, if that is to be detected; and a
      share of at least one percent in exactly the last eleven. */
  ghost predicate Schedule(s: ValidSettings, sh: Shares) {
    var alpha, n := s.tuning.procAlpha, |sh|;
    && Share(sh, 1) < s.thresholds.newProcessPct
    && (forall i :: 2 <= i < n - 1 ==> Rise(alpha, sh, i) < s.thresholds.cpuDeltaPct)
    && (Rise(alpha, sh, n - 1) >= s.thresholds.cpuDeltaPct <==> s.collection.cpuDetection)
    && (forall i :: n - 11 <= i < n ==> Share(sh, i) >= 1.0)
    && Share(sh, n - 12) < 1.0
  }

  function TicksAt(sh: Shares, i: nat): (n: nat)
    requires i < |sh|
    ensures n <= 24000 * i
  {
    if i == 0 then 0 else TicksAt(sh, i - 1) + sh[i]
  }

  function ReadingAt(sh: Shares, i: nat): Reading
    requires i < |sh|
  {
    Reading(7, 1, 7, 'R', "busy", TicksAt(sh, i), 1000)
  }

  function SampleAt(alpha: real, sh: Shares, i: nat): Sample
    requires i < |sh|
  {
    SampleOf(ReadingAt(sh, i), if i == 0 then None else Some(SampleAt(alpha, sh, i - 1)), 2000, i == 0, alpha)
  }

  lemma {:induction false} SampleShape(alpha: real, sh: Shares, i: nat)
    requires i < |sh|
    ensures var x := SampleAt(alpha, sh, i);
            && x.pid == 7 && x.ppid == 1 && x.state == 'R' && x.comm == "busy" && x.rssKib == 1000
            && x.valid && x.ticks == TicksAt(sh, i)
            && x.sampleCount == (if i < 255 then i + 1 else 255)
            && x.cpuPct == Share(sh, i) && x.baselinePct == Base(alpha, sh, i)
            && (i > 0 ==> x.cpuPct - x.baselinePct == Rise(alpha, sh, i))
  {
    hide SampleAt, SampleOf, Share, Base, Rise;
    if i == 0 {
      FirstShape(alpha, sh);
    } else {
      SampleShape(alpha, sh, i - 1);
      SampleUnfolds(alpha, sh, i);
      BaseUnfolds(alpha, sh, i);
      NextSample(alpha, SampleAt(alpha, sh, i - 1), sh[i], Share(sh, i), Base(alpha, sh, i));
    }
  }

  lemma FirstShape(alpha: real, sh: Shares)
    ensures SampleAt(alpha, sh, 0) == Sample(7, 1, 7, 'R', "busy", 0, 1000, 0.0, 0.0, 1, true, true)
    ensures Share(sh, 0) == 0.0 == Base(alpha, sh, 0)
  {
  }

  lemma SampleUnfolds(alpha: real, sh: Shares, i: nat)
    requires 0 < i < |sh|
    ensures SampleAt(alpha, sh, i) == SampleOf(ReadingAt(sh, i), Some(SampleAt(alpha, sh, i - 1)), 2000, false, alpha)
  {
    hide SampleOf, TicksAt;
  }

  lemma BaseUnfolds(alpha: real, sh: Shares, i: nat)
    requires 0 < i < |sh|
    ensures Share(sh, i) == sh[i] as real / 20.0
    ensures Base(alpha, sh, i) == Blend(alpha, Share(sh, i), Base(alpha, sh, i - 1))
    ensures Share(sh, i) - Base(alpha, sh, i) == Rise(alpha, sh, i)
  {
    hide Share;
    Blended(alpha, Share(sh, i), Base(alpha, sh, i - 1));
    ShareIs(sh, i);
  }

  lemma ShareIs(sh: Shares, i: nat)
    requires 0 < i < |sh|
    ensures Share(sh, i) == sh[i] as real / 20.0
  {
  }

  lemma NextSample(alpha: real, p: Sample, n: nat, cpu: real, base: real)
    requires p.ticks + n < TWO_64 && cpu == n as real / 20.0
    requires base == Blend(alpha, cpu, p.baselinePct)
    ensures var x := SampleOf(Reading(7, 1, 7, 'R', "busy", p.ticks + n, 1000), Some(p), 2000, false, alpha);
            && x.pid == 7 && x.ppid == 1 && x.state == 'R' && x.comm == "busy" && x.rssKib == 1000
            && x.valid && x.ticks == p.ticks + n
            && x.sampleCount == (if p.sampleCount < 255 then p.sampleCount + 1 else 255)
            && x.cpuPct == cpu && x.baselinePct == base
  {
    assert 100.0 * n as real / 2000.0 == n as real / 20.0;
  }

  // ----- what the sampler, the snapshots and the daemon make of it -----

  function ScanAt(sh: Shares, i: nat): Scan
    requires i < |sh|
  {
    Scanned([ReadingAt(sh, i)], 2000 * (i + 1))
  }

  function SamplerAt(alpha: real, sh: Shares, i: nat): Sampler
    requires i <= |sh|
  {
    if i == 0 then FRESH else Sampler([SampleAt(alpha, sh, i - 1)], 2000 * i)
  }

  lemma SamplerStep(alpha: real, sh: Shares, i: nat)
    requires i < |sh|
    ensures Samples(SamplerAt(alpha, sh, i), ScanAt(sh, i), SamplerAt(alpha, sh, i + 1), alpha)
  {
    hide SampleOf, ProcTracker.Collected, TicksAt, SampleAt;
    var z, scan := SamplerAt(alpha, sh, i), ScanAt(sh, i);
    var r := RoundOf(z, scan);
    if i > 0 {
      SampleShape(alpha, sh, i - 1);
      SampleUnfolds(alpha, sh, i);
    } else {
      FirstSample(alpha, sh);
    }
    assert FindPrev(z.context, 7) == if i == 0 then None else Some(SampleAt(alpha, sh, i - 1));
    assert SamplesOf(r.readings, z.context, r.tickDelta, r.firstCall, alpha) == [SampleAt(alpha, sh, i)];
    RoomForAll(z, scan, SamplerAt(alpha, sh, i + 1), alpha);
  }

  lemma FirstSample(alpha: real, sh: Shares)
    ensures SampleAt(alpha, sh, 0) == SampleOf(ReadingAt(sh, 0), None, 2000, true, alpha)
  {
  }

  /** What every memory detection that is enabled reacts to, and no other. */
  function Alarming(s: ValidSettings): MemSnapshot {
    CALM.(available := if s.collection.memDetection then 0 else CALM.total,
          swapFree := if s.collection.swapDetection then CALM.swapTotal / 2 else CALM.swapTotal)
  }

  function EntryAt(sh: Shares, i: nat): ProcEntry
    requires i < |sh|
  {
    ProcEntry(7, 1, 0, 'R', "busy", "", Share(sh, i), 1000)
  }

  function SnapAt(s: ValidSettings, sh: Shares, i: nat): Snapshot
    requires i < |sh|
  {
    Snapshot((i + 1) * SECOND, CpuSnapshot(0.0, 0.0, []), if i < |sh| - 1 then CALM else Alarming(s),
             [EntryAt(sh, i)], [EntryAt(sh, i)])
  }

  function GotAt(s: ValidSettings, sh: Shares, i: nat): Daemon.Collected
    requires i < |sh|
  {
    Daemon.Collected(SnapAt(s, sh, i), [SampleAt(s.tuning.procAlpha, sh, i)])
  }

  function TickAt(s: ValidSettings, sh: Shares, i: nat): Tick
    requires i < |sh|
  {
    Tick(NoReload, Some(GotAt(s, sh, i)), 0)
  }

  /** The lists show the only sample there is. */
  lemma TickIsSampled(s: ValidSettings, sh: Shares, i: nat)
    requires i < |sh|
    ensures var alpha := s.tuning.procAlpha;
            SampledTick(TickAt(s, sh, i), ScanAt(sh, i), SamplerAt(alpha, sh, i), SamplerAt(alpha, sh, i + 1), s)
  {
    hide Samples, SampleAt;
    var alpha := s.tuning.procAlpha;
    SamplerStep(alpha, sh, i);
    SampleShape(alpha, sh, i);
    var x := SampleAt(alpha, sh, i);
    SoleIsTop(x, ListLength(s.collection.topStored), ByCpu);
    SoleIsTop(x, ListLength(s.collection.topStored), ByRss);
    assert Shows(EntryAt(sh, i), x);
    assert ShowsAll([EntryAt(sh, i)], [x]);
  }

  lemma SoleIsTop(x: Sample, k: nat, le: (Sample, Sample) -> bool)
    requires k > 0
    ensures IsTopK([x], multiset([x]), k, le)
  {
    assert multiset([x]) - multiset([x]) == multiset{};
  }

  const CALMED: State := State([], Baseline(CALM.total, true, 0), Baseline(0, true, 0))

  function Spike(s: ValidSettings, sh: Shares): Sample {
    SampleAt(s.tuning.procAlpha, sh, |sh| - 1)
  }

  function AlarmFindings(s: ValidSettings, sh: Shares): Findings {
    FindingsOf(DetectorConfig(s), [Spike(s, sh)], Alarming(s), |sh| * SECOND, CALMED)
  }

  function AlarmReport(s: ValidSettings, sh: Shares): Report {
    var f := AlarmFindings(s, sh);
    if f.cpu.Some? then CpuReport(f.cpu.value)
    else if f.mem.Some? then MemReport(f.mem.value, Some(Spike(s, sh)))
    else if f.swap.Some? then SwapReport(f.swap.value, Some(Spike(s, sh)))
    else Nothing
  }

  function AlarmState(s: ValidSettings, sh: Shares): State {
    var c, f, now := DetectorConfig(s), AlarmFindings(s, sh), |sh| * SECOND;
    State(if f.cpu.None? then [] else Cooldown.Record([], f.cpu.value.key, now),
          MemAfter(c, Alarming(s), CALMED.mem, now), SwapAfter(c, Alarming(s), CALMED.swap, now))
  }

  function History(s: ValidSettings, sh: Shares, n: nat): seq<Snapshot>
    requires n <= |sh|
  {
    seq(n, i requires 0 <= i < n => SnapAt(s, sh, i))
  }

  function ViewAt(s: ValidSettings, sh: Shares, i: nat): View
    requires i <= |sh|
  {
    View(s, if i == 0 then INITIAL else if i < |sh| then CALMED else AlarmState(s, sh), History(s, sh, i))
  }

  function AlarmDump(s: ValidSettings, sh: Shares): DumpCall {
    DumpOf(s, History(s, sh, |sh|), AlarmReport(s, sh), |sh| * SECOND)
  }

  function DumpAt(s: ValidSettings, sh: Shares, i: nat): Option<DumpCall>
    requires i < |sh|
  {
    if i < |sh| - 1 then None else Some(AlarmDump(s, sh))
  }

  /** An iteration put together from what the detector does. */
  lemma MakesIteration(t: Tick, v: View, w: View, got: Daemon.Collected, r: Report, dump: Option<DumpCall>)
    requires t == Tick(NoReload, Some(got), t.clock) && w.settings == v.settings
    requires w.history == v.history + [Stamped(got.snapshot, t.clock)]
    requires var c, m, now := DetectorConfig(v.settings), got.snapshot.mem, got.snapshot.timestampNs;
             && Step(c, got.samples, m, now, v.state, w.state)
             && Reports(FindingsOf(c, got.samples, m, now, v.state), got.samples, r)
    requires dump == if Enabled(v.settings.collection, r)
                     then Some(DumpOf(v.settings, w.history, r, got.snapshot.timestampNs)) else None
    ensures Iteration(t, v, w, dump)
  {
    hide Step, Reports, FindingsOf, DetectorConfig, DumpOf, Enabled, Stamped;
  }

  lemma HistoryGrows(s: ValidSettings, sh: Shares, i: nat)
    requires i < |sh|
    ensures History(s, sh, i + 1) == History(s, sh, i) + [Stamped(SnapAt(s, sh, i), 0)]
  {
    hide Share;
  }

  // ----- the calm seconds -----

  /** Nothing is found in a calm second, and the baselines stay where they are. */
  lemma CalmStep(s: ValidSettings, sh: Shares, i: nat)
    requires Schedule(s, sh) && i < |sh| - 1
    ensures Iteration(TickAt(s, sh, i), ViewAt(s, sh, i), ViewAt(s, sh, i + 1), None)
  {
    hide Step, Reports, FindingsOf, DetectorConfig, DumpOf, Iteration, SampleAt, Share, Schedule, Stamped;
    CalmDetector(s, sh, i);
    HistoryGrows(s, sh, i);
    MakesIteration(TickAt(s, sh, i), ViewAt(s, sh, i), ViewAt(s, sh, i + 1), GotAt(s, sh, i), Nothing, None);
  }

  lemma CalmDetector(s: ValidSettings, sh: Shares, i: nat)
    requires Schedule(s, sh) && i < |sh| - 1
    ensures var c, now, b := DetectorConfig(s), (i + 1) * SECOND, if i == 0 then INITIAL else CALMED;
            var samples := [SampleAt(s.tuning.procAlpha, sh, i)];
            && Step(c, samples, CALM, now, b, CALMED)
            && Reports(FindingsOf(c, samples, CALM, now, b), samples, Nothing)
  {
    hide MemAfter, SwapAfter, MemFinding, SwapFinding, SampleAt, Schedule, DetectorConfig, Eligible, Pick;
    var c, now, b := DetectorConfig(s), (i + 1) * SECOND, if i == 0 then INITIAL else CALMED;
    var x := SampleAt(s.tuning.procAlpha, sh, i);
    QuietSample(s, sh, i);
    MarginsPositive(s);
    CalmFindings(c, now, b);
    SolePick(c, x, Cooldown.Cooling(b.table, now, c.cooldownNs));
    NothingCooling(now, c.cooldownNs);
    assert Cooldown.Purged([], [], now, c.cooldownNs);
  }

  lemma NothingCooling(now: nat, cd: nat)
    ensures Cooldown.Cooling([], now, cd) == {}
  {
  }

  lemma SolePick(c: Config, x: Sample, cooling: set<int>)
    ensures Pick(c, [x], cooling) == if Eligible(c, x, cooling) then Some(0) else None
  {
    assert [x][..0] == [];
  }

  lemma QuietSample(s: ValidSettings, sh: Shares, i: nat)
    requires Schedule(s, sh) && i < |sh| - 1
    ensures !Eligible(DetectorConfig(s), SampleAt(s.tuning.procAlpha, sh, i), {})
  {
    hide SampleAt, Base, Rise, Share;
    SampleShape(s.tuning.procAlpha, sh, i);
    if i == 0 {
      NoShare(sh);
    }
  }

  lemma NoShare(sh: Shares)
    ensures Share(sh, 0) == 0.0
  {
  }

  lemma MarginsPositive(s: ValidSettings)
    ensures DetectorConfig(s).memDropKib > 0 && DetectorConfig(s).memPressurePct > 0.0
  {
  }

  lemma CalmFindings(c: Config, now: nat, b: State)
    requires b == INITIAL || b == CALMED
    requires c.memDropKib > 0 && c.memPressurePct > 0.0
    ensures MemFinding(c, CALM, b.mem, now) == None && SwapFinding(c, CALM, b.swap, now) == None
    ensures MemAfter(c, CALM, b.mem, now) == CALMED.mem && SwapAfter(c, CALM, b.swap, now) == CALMED.swap
  {
    assert UsedPct(CALM) == 0.0;
  }

  // ----- the last second -----

  /** In the last second every enabled detection finds something, and no disabled one. */
  lemma AlarmIsFound(s: ValidSettings, sh: Shares)
    requires Schedule(s, sh)
    ensures var f := AlarmFindings(s, sh);
            && (f.cpu.Some? <==> s.collection.cpuDetection)
            && (f.mem.Some? <==> s.collection.memDetection)
            && (f.swap.Some? <==> s.collection.swapDetection)
            && (f.cpu.Some? ==> f.cpu.value.sample == Spike(s, sh) && !f.cpu.value.isNew)
  {
    hide CpuFinding, MemFinding, SwapFinding, DetectorConfig, Alarming, Spike, Schedule;
    CpuAlarm(s, sh);
    MemAlarm(s, |sh| * SECOND);
    SwapAlarm(s, |sh| * SECOND);
  }

  lemma CpuAlarm(s: ValidSettings, sh: Shares)
    requires Schedule(s, sh)
    ensures var f := CpuFinding(DetectorConfig(s), [Spike(s, sh)], [], |sh| * SECOND);
            && (f.Some? <==> s.collection.cpuDetection)
            && (f.Some? ==> f.value.sample == Spike(s, sh) && !f.value.isNew)
  {
    hide Pick, SampleAt, Base, Rise, Share;
    var c, x := DetectorConfig(s), Spike(s, sh);
    NothingCooling(|sh| * SECOND, c.cooldownNs);
    SolePick(c, x, {});
    SampleShape(s.tuning.procAlpha, sh, |sh| - 1);
  }

  lemma MemAlarm(s: ValidSettings, now: nat)
    ensures MemFinding(DetectorConfig(s), Alarming(s), CALMED.mem, now).Some? <==> s.collection.memDetection
  {
    var m := Alarming(s);
    assert UsedPct(m) == if s.collection.memDetection then 100.0 else 0.0;
    hide UsedPct;
  }

  lemma SwapAlarm(s: ValidSettings, now: nat)
    ensures SwapFinding(DetectorConfig(s), Alarming(s), CALMED.swap, now).Some? <==> s.collection.swapDetection
  {
  }

  lemma AlarmStep(s: ValidSettings, sh: Shares)
    requires Schedule(s, sh)
    ensures var n := |sh|;
            Iteration(TickAt(s, sh, n - 1), ViewAt(s, sh, n - 1), ViewAt(s, sh, n), Some(AlarmDump(s, sh)))
  {
    hide Step, Reports, FindingsOf, DetectorConfig, DumpOf, Iteration, AlarmReport, AlarmState, SampleAt, Share, Schedule,
         Alarming, Stamped;
    var n := |sh|;
    AlarmDetector(s, sh);
    AlarmReports(s, sh);
    AlarmIsEnabled(s, sh);
    HistoryGrows(s, sh, n - 1);
    MakesIteration(TickAt(s, sh, n - 1), ViewAt(s, sh, n - 1), ViewAt(s, sh, n), GotAt(s, sh, n - 1), AlarmReport(s, sh),
                   Some(AlarmDump(s, sh)));
  }

  lemma AlarmDetector(s: ValidSettings, sh: Shares)
    ensures Step(DetectorConfig(s), [Spike(s, sh)], Alarming(s), |sh| * SECOND, CALMED, AlarmState(s, sh))
  {
    hide CpuFinding, MemFinding, SwapFinding, MemAfter, SwapAfter, DetectorConfig, Spike, Alarming;
    assert Cooldown.Purged([], [], |sh| * SECOND, DetectorConfig(s).cooldownNs);
  }

  lemma AlarmIsEnabled(s: ValidSettings, sh: Shares)
    requires Schedule(s, sh)
    ensures Enabled(s.collection, AlarmReport(s, sh))
  {
    hide AlarmFindings, Spike, Alarming, Schedule;
    AlarmIsFound(s, sh);
  }

  lemma AlarmReports(s: ValidSettings, sh: Shares)
    ensures Reports(AlarmFindings(s, sh), [Spike(s, sh)], AlarmReport(s, sh))
  {
    hide FindingsOf, SampleAt;
    SampleShape(s.tuning.procAlpha, sh, |sh| - 1);
    var samples := [Spike(s, sh)];
    assert samples[0] == Spike(s, sh);
    assert IsTopRss(samples, Some(Spike(s, sh)));
  }

  // ----- the whole run, and its dump -----

  function Ticks(s: ValidSettings, sh: Shares): seq<Tick> {
    seq(|sh|, i requires 0 <= i < |sh| => TickAt(s, sh, i))
  }

  function Views(s: ValidSettings, sh: Shares): seq<View> {
    seq(|sh| + 1, i requires 0 <= i <= |sh| => ViewAt(s, sh, i))
  }

  function Dumps(s: ValidSettings, sh: Shares): seq<Option<DumpCall>> {
    seq(|sh|, i requires 0 <= i < |sh| => DumpAt(s, sh, i))
  }

  function Scans(sh: Shares): seq<Scan> {
    seq(|sh|, i requires 0 <= i < |sh| => ScanAt(sh, i))
  }

  function Samplers(alpha: real, sh: Shares): seq<Sampler> {
    seq(|sh| + 1, i requires 0 <= i <= |sh| => SamplerAt(alpha, sh, i))
  }

  /** A schedule makes a run of the daemon from its start. */
  lemma ScheduleIsRun(s: ValidSettings, sh: Shares)
    requires Schedule(s, sh)
    ensures DaemonRun(s, Ticks(s, sh), Views(s, sh), Dumps(s, sh), Scans(sh), Samplers(s.tuning.procAlpha, sh))
  {
    hide Iteration, SampledTick, TickAt, ViewAt, AlarmDump, ScanAt, SamplerAt, Schedule, DetectorRuns.Increasing;
    var alpha := s.tuning.procAlpha;
    forall i | 0 <= i < |sh|
      ensures Iteration(Ticks(s, sh)[i], Views(s, sh)[i], Views(s, sh)[i + 1], Dumps(s, sh)[i])
      ensures SampledTick(Ticks(s, sh)[i], Scans(sh)[i], Samplers(alpha, sh)[i], Samplers(alpha, sh)[i + 1],
                          Views(s, sh)[i + 1].settings)
    {
      if i < |sh| - 1 {
        CalmStep(s, sh, i);
      } else {
        AlarmStep(s, sh);
      }
      TickIsSampled(s, sh, i);
      SettingsStay(s, sh, i + 1);
    }
    RunStarts(s, sh);
    InputTimes(s, sh, |sh|);
    assert Ticks(s, sh)[..|sh|] == Ticks(s, sh);
    TimesIncrease(Inputs(Ticks(s, sh)));
  }

  lemma SettingsStay(s: ValidSettings, sh: Shares, i: nat)
    requires i <= |sh|
    ensures ViewAt(s, sh, i).settings == s
  {
    hide AlarmState, History;
  }

  lemma RunStarts(s: ValidSettings, sh: Shares)
    ensures ViewAt(s, sh, 0) == View(s, INITIAL, []) && SamplerAt(s.tuning.procAlpha, sh, 0) == FRESH
  {
  }

  lemma {:induction false} InputTimes(s: ValidSettings, sh: Shares, n: nat)
    requires n <= |sh|
    ensures var ins := Inputs(Ticks(s, sh)[..n]);
            |ins| == n && forall i :: 0 <= i < n ==> ins[i].now == (i + 1) * SECOND
  {
    hide SampleAt, Share;
    if n > 0 {
      InputTimes(s, sh, n - 1);
      assert Ticks(s, sh)[..n][..n - 1] == Ticks(s, sh)[..n - 1];
      assert Ticks(s, sh)[..n][n - 1] == TickAt(s, sh, n - 1);
    }
  }

  lemma TimesIncrease(ins: seq<DetectorRuns.Input>)
    requires forall i :: 0 <= i < |ins| ==> ins[i].now == (i + 1) * SECOND
    ensures DetectorRuns.Increasing(ins)
  {
  }

  /** The dump of its last second has the origin index ten, in an array of ten snapshots, when the
      context is larger. */
  lemma DumpOutside(s: ValidSettings, sh: Shares)
    requires Schedule(s, sh) && s.collection.contextSnapshots > SpikeDump.MAX_SNAPSHOTS
    ensures var d := AlarmDump(s, sh); d.originIdx == 10 == |WrittenOf(d)|
  {
    hide Origin, AlarmReport, Recent, History, Schedule, Lists;
    var h, r := History(s, sh, |sh|), AlarmReport(s, sh);
    AlarmBlames(s, sh);
    ElevenListed(s, sh);
    OriginMeets(Recent(h), 7, 1.0);
    OriginIsUnique(Recent(h), 7, 1.0, Origin(Recent(h), 7, 1.0), 10);
  }

  lemma AlarmBlames(s: ValidSettings, sh: Shares)
    requires Schedule(s, sh)
    ensures SpikePid(AlarmReport(s, sh)) == 7 && OriginThreshold(s.thresholds, AlarmReport(s, sh)) == 1.0
    ensures |History(s, sh, |sh|)| == |sh|
  {
    hide AlarmFindings, SampleAt, Schedule;
    AlarmIsFound(s, sh);
    SampleShape(s.tuning.procAlpha, sh, |sh| - 1);
  }

  lemma ElevenListed(s: ValidSettings, sh: Shares)
    requires Schedule(s, sh)
    ensures IsOrigin(Recent(History(s, sh, |sh|)), 7, 1.0, 10)
  {
    hide Share, Lists;
    var n, recent := |sh|, Recent(History(s, sh, |sh|));
    forall i: nat | i < 12
      ensures i < |recent| && (Lists(recent[i], 7, 1.0) <==> i <= 10)
    {
      assert recent[i] == SnapAt(s, sh, n - 1 - i);
      ListedByShare(s, sh, n - 1 - i);
    }
  }

  lemma ListedByShare(s: ValidSettings, sh: Shares, i: nat)
    requires i < |sh|
    ensures Lists(SnapAt(s, sh, i), 7, 1.0) <==> Share(sh, i) >= 1.0
  {
    hide Share;
    assert SnapAt(s, sh, i).procs[0] == EntryAt(sh, i);
  }

  lemma ScheduleOutside(s: ValidSettings, sh: Shares)
    requires Schedule(s, sh) && s.collection.contextSnapshots > SpikeDump.MAX_SNAPSHOTS
    ensures !OriginsInside(s)
  {
    hide DaemonRun, AlarmDump, TickAt, Schedule, ScanAt, SamplerAt, ViewAt;
    ScheduleIsRun(s, sh);
    DumpOutside(s, sh);
    SettingsStay(s, sh, |sh|);
    var vs, dumps, i := Views(s, sh), Dumps(s, sh), |sh| - 1;
    assert |Ticks(s, sh)| == |sh|;
    assert vs[i + 1].settings == s && dumps[i] == Some(AlarmDump(s, sh));
    assert DaemonRun(s, Ticks(s, sh), vs, dumps, Scans(sh), Samplers(s.tuning.procAlpha, sh));
  }

  // ----- a schedule for every setting -----

  type Weight = a: real | 0.01 <= a <= 0.9 witness 0.5

  /** The smallest share, in twentieths, that is more than a twentieth above a baseline. */
  function Pull(b: real): (n: nat)
    requires b >= 0.0
    ensures 20.0 * b + 1.0 < n as real <= 20.0 * b + 2.0
  {
    (20.0 * b + 2.0).Floor
  }

  /** The baseline of a process that always has that share, from its third second on. */
  function Level(alpha: Weight, i: nat): (b: real)
    ensures b >= 0.0
  {
    if i <= 1 then 0.0
    else
      var b := Level(alpha, i - 1);
      Climbs(alpha, Pull(b) as real / 20.0, b);
      Blend(alpha, Pull(b) as real / 20.0, b)
  }

  lemma Climbs(alpha: Weight, x: real, b: real)
    requires 0.05 <= x - b <= 0.1
    ensures b + 0.0005 <= Blend(alpha, x, b) <= b + 0.09 && Damped(alpha, x, b) < 0.1
  {
    var d := x - b;
    assert Blend(alpha, x, b) == b + alpha * d;
    assert Damped(alpha, x, b) == d - alpha * d;
    ProductInRange(alpha, d);
  }

  lemma ProductInRange(alpha: Weight, d: real)
    requires 0.05 <= d <= 0.1
    ensures 0.0005 <= alpha * d <= 0.09
  {
    ProductSign(alpha - 0.01, d);
    ProductSign(0.9 - alpha, d);
  }

  lemma {:induction false} LevelBounds(alpha: Weight, i: nat)
    requires i > 0
    ensures 0.0005 * (i - 1) as real <= Level(alpha, i) <= 0.09 * i as real
    ensures i == 1 ==> Level(alpha, i) == 0.0
    ensures i > 1 ==> Level(alpha, i) >= Level(alpha, i - 1)
  {
    hide Blend, Pull;
    if i > 1 {
      LevelBounds(alpha, i - 1);
      var b := Level(alpha, i - 1);
      Climbs(alpha, Pull(b) as real / 20.0, b);
    }
  }

  /** A share that climbs so until it has been at one percent for eleven seconds, in the last of
      which it jumps to 1200 percent if CPU spikes are to be detected. */
  function Ramp(alpha: Weight, n: nat, jumps: bool): Shares
    requires 12 <= n <= 2000
  {
    seq(n, i requires 0 <= i < n => if i == n - 1 && jumps then 24000 else Climb(alpha, i))
  }

  function Climb(alpha: Weight, i: nat): (n: nat)
    ensures i < 2000 ==> n <= 24000
  {
    if i <= 1 then 0
    else
      LevelBounds(alpha, i - 1);
      Pull(Level(alpha, i - 1))
  }

  lemma {:induction false} RampLevel(alpha: Weight, n: nat, jumps: bool, i: nat)
    requires 12 <= n <= 2000 && i < n - 1
    ensures Base(alpha, Ramp(alpha, n, jumps), i) == Level(alpha, i)
  {
    hide Pull, Blend;
    var sh := Ramp(alpha, n, jumps);
    if i == 1 {
      assert sh[1] == 0 && Base(alpha, sh, 0) == 0.0;
      StaysZero(alpha);
    } else if i > 1 {
      RampLevel(alpha, n, jumps, i - 1);
    }
  }

  lemma StaysZero(alpha: Weight)
    ensures Blend(alpha, 0.0, 0.0) == 0.0
  {
  }

  lemma RampRise(alpha: Weight, n: nat, jumps: bool, i: nat)
    requires 12 <= n <= 2000 && 2 <= i < n
    ensures var rise := Rise(alpha, Ramp(alpha, n, jumps), i);
            if i == n - 1 && jumps then rise >= 100.0 else rise < 0.1
  {
    hide Pull, Base, Level, Damped;
    RampLevel(alpha, n, jumps, i - 1);
    var b := Level(alpha, i - 1);
    LevelBounds(alpha, i - 1);
    if i == n - 1 && jumps {
      Jumps(alpha, b);
    } else {
      Climbs(alpha, Pull(b) as real / 20.0, b);
    }
  }

  lemma Jumps(alpha: Weight, b: real)
    requires b <= 200.0
    ensures Damped(alpha, 1200.0, b) >= 100.0
  {
    ProductSign(0.9 - alpha, 1200.0 - b);
  }

  /** The first second with a baseline of 0.9, after which the share is one percent. */
  lemma ReachesOnePercent(alpha: Weight) returns (k: nat)
    ensures 2 <= k <= 1900 && Level(alpha, k) >= 0.9 > Level(alpha, k - 1)
  {
    hide Level;
    k := 1;
    LevelBounds(alpha, 1);
    while Level(alpha, k) < 0.9
      invariant 1 <= k <= 1900 && Level(alpha, k) >= 0.0005 * (k - 1) as real
      invariant k == 1 ==> Level(alpha, k) < 0.9
      invariant k > 1 ==> Level(alpha, k - 1) < 0.9
      decreases 1900 - k
    {
      k := k + 1;
      LevelBounds(alpha, k);
    }
  }

  lemma {:induction false} LevelStays(alpha: Weight, k: nat, i: nat)
    requires 1 <= k <= i
    ensures Level(alpha, k) <= Level(alpha, i)
  {
    hide Level;
    if k < i {
      LevelStays(alpha, k, i - 1);
      LevelBounds(alpha, i);
    }
  }

  lemma RampIsSchedule(s: ValidSettings) returns (sh: Shares)
    ensures Schedule(s, sh)
  {
    hide Level, Pull, Base, Rise;
    var alpha: Weight, jumps := s.tuning.procAlpha, s.collection.cpuDetection;
    var k := ReachesOnePercent(alpha);
    var n := k + 12;
    sh := Ramp(alpha, n, jumps);
    forall i | 2 <= i < n
      ensures if i == n - 1 && jumps then Rise(alpha, sh, i) >= 100.0 else Rise(alpha, sh, i) < 0.1
    {
      RampRise(alpha, n, jumps, i);
    }
    forall i | n - 12 <= i < n
      ensures Share(sh, i) >= 1.0 <==> i > k
    {
      RampShare(alpha, k, jumps, i);
    }
    assert Share(sh, 1) == 0.0;
  }

  lemma RampShare(alpha: Weight, k: nat, jumps: bool, i: nat)
    requires 2 <= k <= 1900 && Level(alpha, k) >= 0.9 > Level(alpha, k - 1) && k <= i < k + 12
    ensures Share(Ramp(alpha, k + 12, jumps), i) >= 1.0 <==> i > k
  {
    hide Level, Pull;
    if i > k {
      LevelStays(alpha, k, i - 1);
    }
    PullReaches(Level(alpha, i - 1));
  }

  lemma PullReaches(b: real)
    requires b >= 0.0
    ensures Pull(b) >= 20 <==> b >= 0.9
  {
  }

  // ----- and one by default: at 2 % for ten seconds, then at 60 % -----

  const BURST: Shares := [0] + seq(10, _ => 40) + [1200]

  /** By default, but with a larger context, that is a run with such a dump in its last second. */
  lemma BurstOutside(s: ValidSettings)
    requires s == DEFAULTS.(collection := DEFAULTS.collection.(contextSnapshots := s.collection.contextSnapshots))
    requires s.collection.contextSnapshots > SpikeDump.MAX_SNAPSHOTS
    ensures DaemonRun(s, Ticks(s, BURST), Views(s, BURST), Dumps(s, BURST), Scans(BURST), Samplers(0.3, BURST))
    ensures Share(BURST, 11) == 60.0 && forall i :: 1 <= i <= 10 ==> Share(BURST, i) == 2.0
    ensures Dumps(s, BURST)[11].Some? && Dumps(s, BURST)[11].value.originIdx == 10 == |WrittenOf(Dumps(s, BURST)[11].value)|
  {
    hide DaemonRun, Base, AlarmDump;
    BurstIsSchedule(s);
    ScheduleIsRun(s, BURST);
    DumpOutside(s, BURST);
  }

  lemma BurstIsSchedule(s: ValidSettings)
    requires s == DEFAULTS.(collection := DEFAULTS.collection.(contextSnapshots := s.collection.contextSnapshots))
    ensures Schedule(s, BURST)
  {
    hide Base;
    forall i: nat | i < 11
      ensures 0.0 <= Base(0.3, BURST, i) <= 2.0
    {
      BurstBase(i);
    }
    assert Share(BURST, 0) == 0.0 && Share(BURST, 11) == 60.0;
    assert forall i :: 1 <= i <= 10 ==> Share(BURST, i) == 2.0;
  }

  lemma {:induction false} BurstBase(i: nat)
    requires i < 11
    ensures 0.0 <= Base(0.3, BURST, i) <= 2.0
  {
    if i > 0 {
      BurstBase(i - 1);
    }
  }
}
