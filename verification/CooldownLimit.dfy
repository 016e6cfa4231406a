/** How far the cooldown of CPU triggers reaches: up to 64 other keys, and for a process only as
    long as it triggers under one key. */
module CooldownLimit {
  import opened Snapshots
  import opened Cooldown
  import opened AnomalyDetector
  import opened DetectorRuns
  import opened ConfigValidation
  import opened ProcTracker
  import opened Sampling

  // ----- runs of evaluations in which at most one sample spikes -----

  /** The state after an evaluation that drops nothing and records `k`, if anything. */
  function Recorded(c: Config, n: Input, s: State, k: Option<int>): State {
    State(if k.None? then s.table else Record(s.table, k.value, n.now),
          MemAfter(c, n.mem, s.mem, n.now), SwapAfter(c, n.mem, s.swap, n.now))
  }

  /** The one sample that is eligible is found. */
  lemma FindsOnly(c: Config, n: Input, s: State, p: nat)
    requires p < |n.samples| && Unique(s.table)
    requires var cooling := Cooling(s.table, n.now, c.cooldownNs);
             forall i :: 0 <= i < |n.samples| ==> (Eligible(c, n.samples[i], cooling) <==> i == p)
    ensures var x := n.samples[p];
            && CpuFinding(c, n.samples, s.table, n.now) == Some(CpuTrigger(x, IsNew(x), CheckedKey(c, x)))
            && Step(c, n.samples, n.mem, n.now, s, Recorded(c, n, s, Some(CheckedKey(c, x))))
  {
    hide Record, Eligible, Pick, MemAfter, SwapAfter;
    var cooling := Cooling(s.table, n.now, c.cooldownNs);
    PickIsArgmax(c, n.samples, cooling);
    ArgmaxIsUnique(c, n.samples, cooling, Pick(c, n.samples, cooling), Some(p));
    assert Purged(s.table, s.table, n.now, c.cooldownNs);
  }

  /** A sole sample that spikes is found when the table does not hold its key. */
  lemma FindsSole(c: Config, n: Input, s: State, x: Sample)
    requires n.samples == [x] && Unique(s.table) && Eligible(c, x, {})
    requires forall e :: e in s.table ==> e.key != CheckedKey(c, x)
    ensures CpuFinding(c, n.samples, s.table, n.now) == Some(CpuTrigger(x, IsNew(x), CheckedKey(c, x)))
    ensures Step(c, n.samples, n.mem, n.now, s, Recorded(c, n, s, Some(CheckedKey(c, x))))
  {
    hide Step, CpuFinding, Recorded, CheckedKey, Live;
    FindsOnly(c, n, s, 0);
  }

  /** Without an eligible sample nothing is found. */
  lemma FindsNothing(c: Config, n: Input, s: State)
    requires Unique(s.table) && forall x :: x in n.samples ==> !Eligible(c, x, {})
    ensures CpuFinding(c, n.samples, s.table, n.now) == None
    ensures Step(c, n.samples, n.mem, n.now, s, Recorded(c, n, s, None))
  {
    hide Pick, MemAfter, SwapAfter;
    var cooling := Cooling(s.table, n.now, c.cooldownNs);
    PickIsArgmax(c, n.samples, cooling);
    assert forall i :: 0 <= i < |n.samples| ==> n.samples[i] in n.samples;
    ArgmaxIsUnique(c, n.samples, cooling, Pick(c, n.samples, cooling), None);
    assert Purged(s.table, s.table, n.now, c.cooldownNs);
  }

  // ----- a process triggers under one key or under two -----

  function FindingAt(c: Config, ins: seq<Input>, ss: seq<State>, i: nat): Option<CpuTrigger>
    requires i < |ins| && |ss| == |ins| + 1
  {
    CpuFinding(c, ins[i].samples, ss[i].table, ins[i].now)
  }

  /** Evaluations `i` and `j` report the same process. */
  ghost predicate ReportsTwice(c: Config, ins: seq<Input>, ss: seq<State>, i: nat, j: nat) {
    && Run(c, ins, ss) && i < j < |ins|
    && var f, g := FindingAt(c, ins, ss, i), FindingAt(c, ins, ss, j);
       f.Some? && g.Some? && f.value.sample.pid == g.value.sample.pid
  }

  /** The two reports are a cooldown apart, or 64 keys other than the first report's triggered
      between them. */
  ghost predicate Apart(c: Config, ins: seq<Input>, ss: seq<State>, i: nat, j: nat)
    requires ReportsTwice(c, ins, ss, i, j)
  {
    || ins[j].now - ins[i].now >= c.cooldownNs
    || |KeysBetween(c, ins, ss, i + 1, j) - {FindingAt(c, ins, ss, i).value.key}| >= TABLE_SIZE
  }

  /** Reports under one key are apart. */
  lemma OneKeyApart(c: Config, ins: seq<Input>, ss: seq<State>, i: nat, j: nat)
    requires ReportsTwice(c, ins, ss, i, j)
    requires FindingAt(c, ins, ss, i).value.key == FindingAt(c, ins, ss, j).value.key
    ensures Apart(c, ins, ss, i, j)
  {
    hide CpuFinding, Run;
    RunShape(c, ins, ss);
    if ins[j].now - ins[i].now < c.cooldownNs {
      CooldownSafety(c, ins, ss, FindingAt(c, ins, ss, i).value.key, i, j);
    }
  }

  /** The key of a report is that of its sample. */
  lemma ReportedKey(c: Config, ins: seq<Input>, ss: seq<State>, i: nat)
    requires i < |ins| && |ss| == |ins| + 1 && FindingAt(c, ins, ss, i).Some?
    ensures var f := FindingAt(c, ins, ss, i).value; f.key == CheckedKey(c, f.sample)
  {
    hide Pick, Cooling;
  }

  predicate SameIds(x: Sample, y: Sample) {
    x.pid == y.pid && x.ppid == y.ppid && x.pgid == y.pgid
  }

  /** While its parent and its group stay the same, a process keeps its key unless aggregation is
      on, the group is not what the scope goes by, and it is new at one time and not at the other. */
  lemma OneKeyExactly(c: Config, x: Sample, y: Sample)
    requires SameIds(x, y)
    ensures CheckedKey(c, x) == CheckedKey(c, y)
       <==> !c.aggregate || x.pgid == ScopeKey(x, c.scope) || IsNew(x) == IsNew(y)
  {
  }

  /** All reports of a process are apart, in every run of sampler and detector under `s`. */
  ghost predicate KeepsProcesses(s: ValidSettings) {
    forall scans, zs, ins, ss, i, j ::
      SampledRun(s, scans, zs, ins, ss) && ReportsTwice(DetectorConfig(s), ins, ss, i, j)
      ==> Apart(DetectorConfig(s), ins, ss, i, j)
  }

  /** They are while its parent and its group stay the same. */
  ghost predicate KeepsWhileSame(s: ValidSettings) {
    forall scans, zs, ins, ss, i, j ::
      SampledRun(s, scans, zs, ins, ss) && ReportsTwice(DetectorConfig(s), ins, ss, i, j)
      && SameIds(FindingAt(DetectorConfig(s), ins, ss, i).value.sample, FindingAt(DetectorConfig(s), ins, ss, j).value.sample)
      ==> Apart(DetectorConfig(s), ins, ss, i, j)
  }

  /** All reports of a process are apart exactly when processes are not aggregated and the scope is
      the process or the system: a process may change both its parent and its group. */
  lemma KeepsProcessesExactly(s: ValidSettings)
    ensures KeepsProcesses(s) <==> !s.aggregate && (s.scope.PerProcess? || s.scope.System?)
  {
    hide KeepsProcesses;
    if !s.aggregate && (s.scope.PerProcess? || s.scope.System?) {
      PidsKeepKeys(s);
    } else {
      ChangingIds(s);
    }
  }

  /** While its parent and its group stay the same, exactly when processes are not aggregated or the
      scope is the process group. */
  lemma KeepsWhileSameExactly(s: ValidSettings)
    ensures KeepsWhileSame(s) <==> !s.aggregate || s.scope.ProcessGroup?
  {
    hide KeepsWhileSame;
    if !s.aggregate || s.scope.ProcessGroup? {
      IdsKeepKeys(s);
    } else {
      AggregatedKeys(s);
    }
  }

  lemma PidsKeepKeys(s: ValidSettings)
    requires !s.aggregate && (s.scope.PerProcess? || s.scope.System?)
    ensures KeepsProcesses(s)
  {
    hide SampledRun, Apart, Run;
    forall scans, zs, ins, ss, i, j | SampledRun(s, scans, zs, ins, ss) && ReportsTwice(DetectorConfig(s), ins, ss, i, j)
      ensures Apart(DetectorConfig(s), ins, ss, i, j)
    {
      KeysAgree(DetectorConfig(s), ins, ss, i, j);
    }
  }

  lemma KeysAgree(c: Config, ins: seq<Input>, ss: seq<State>, i: nat, j: nat)
    requires ReportsTwice(c, ins, ss, i, j)
    requires var x, y := FindingAt(c, ins, ss, i).value.sample, FindingAt(c, ins, ss, j).value.sample;
             CheckedKey(c, x) == CheckedKey(c, y)
             || (!c.aggregate && (c.scope.PerProcess? || c.scope.System?))
    ensures Apart(c, ins, ss, i, j)
  {
    hide CpuFinding, Run, Apart, FindingAt;
    RunShape(c, ins, ss);
    ReportedKey(c, ins, ss, i);
    ReportedKey(c, ins, ss, j);
    OneKeyApart(c, ins, ss, i, j);
  }

  lemma IdsKeepKeys(s: ValidSettings)
    requires !s.aggregate || s.scope.ProcessGroup?
    ensures KeepsWhileSame(s)
  {
    hide SampledRun, Apart, Step;
    var c := DetectorConfig(s);
    forall scans, zs, ins, ss, i, j | SampledRun(s, scans, zs, ins, ss) && ReportsTwice(c, ins, ss, i, j)
        && SameIds(FindingAt(c, ins, ss, i).value.sample, FindingAt(c, ins, ss, j).value.sample)
      ensures Apart(c, ins, ss, i, j)
    {
      OneKeyExactly(c, FindingAt(c, ins, ss, i).value.sample, FindingAt(c, ins, ss, j).value.sample);
      KeysAgree(c, ins, ss, i, j);
    }
  }

  // ----- a process that is reported twice, as the sampler sees it -----

  /** A process in three collections a hundred ticks apart: idle at first, then with a share of
      `grown`, and then with a share of `spike` and perhaps another parent and group. */
  datatype Story = Story(ppid: i32, pgid: i32, grown: nat, laterPpid: i32, laterPgid: i32, spike: nat)

  function ReadingAt(t: Story, i: nat): Reading
    requires i < 3 && t.grown <= 100 && t.spike <= 1200
  {
    if i == 0 then Reading(100, t.ppid, t.pgid, 'R', "p", 0, 1000)
    else if i == 1 then Reading(100, t.ppid, t.pgid, 'R', "p", t.grown, 1000)
    else Reading(100, t.laterPpid, t.laterPgid, 'R', "p", t.grown + t.spike, 1000)
  }

  function SampleAt(t: Story, alpha: real, i: nat): Sample
    requires i < 3 && t.grown <= 100 && t.spike <= 1200
  {
    if i == 0 then SampleOf(ReadingAt(t, 0), None, 100, true, alpha)
    else SampleOf(ReadingAt(t, i), Some(SampleAt(t, alpha, i - 1)), 100, false, alpha)
  }

  lemma StorySamples(t: Story, alpha: real)
    requires t.grown <= 100 && t.spike <= 1200
    ensures var w, x, y := SampleAt(t, alpha, 0), SampleAt(t, alpha, 1), SampleAt(t, alpha, 2);
            && w.cpuPct == 0.0 && w.sampleCount == 1
            && x.pid == 100 && x.ppid == t.ppid && x.pgid == t.pgid && x.valid
            && x.cpuPct == t.grown as real && x.baselinePct == alpha * t.grown as real && x.sampleCount == 2
            && y.pid == 100 && y.ppid == t.laterPpid && y.pgid == t.laterPgid && y.valid && y.sampleCount == 3
            && y.cpuPct == t.spike as real
            && y.cpuPct - y.baselinePct == (1.0 - alpha) * (t.spike as real - alpha * t.grown as real)
  {
    var w, x, y := SampleAt(t, alpha, 0), SampleAt(t, alpha, 1), SampleAt(t, alpha, 2);
    assert 100.0 * t.grown as real / 100.0 == t.grown as real;
    assert 100.0 * t.spike as real / 100.0 == t.spike as real;
    DeltaIsDamped(ReadingAt(t, 2), x, 100, false, alpha);
  }

  function Scans(t: Story): seq<Scan>
    requires t.grown <= 100 && t.spike <= 1200
  {
    [Scanned([ReadingAt(t, 0)], 100), Scanned([ReadingAt(t, 1)], 200), Scanned([ReadingAt(t, 2)], 300)]
  }

  function Samplers(t: Story, alpha: real): seq<Sampler>
    requires t.grown <= 100 && t.spike <= 1200
  {
    [FRESH, Sampler([SampleAt(t, alpha, 0)], 100), Sampler([SampleAt(t, alpha, 1)], 200), Sampler([SampleAt(t, alpha, 2)], 300)]
  }

  lemma StoryIsSampled(t: Story, alpha: real)
    requires t.grown <= 100 && t.spike <= 1200
    ensures SamplerRun(Scans(t), Samplers(t, alpha), alpha)
  {
    hide Samples;
    StoryStep(t, alpha, 0);
    StoryStep(t, alpha, 1);
    StoryStep(t, alpha, 2);
  }

  lemma StoryStep(t: Story, alpha: real, i: nat)
    requires i < 3 && t.grown <= 100 && t.spike <= 1200
    ensures Samples(Samplers(t, alpha)[i], Scans(t)[i], Samplers(t, alpha)[i + 1], alpha)
  {
    hide SampleOf, Collected;
    var z, scan, y := Samplers(t, alpha)[i], Scans(t)[i], Samplers(t, alpha)[i + 1];
    var r := RoundOf(z, scan);
    StoryPids(t, alpha);
    assert FindPrev(z.context, 100) == if i == 0 then None else Some(SampleAt(t, alpha, i - 1));
    assert SamplesOf(r.readings, z.context, r.tickDelta, r.firstCall, alpha) == y.context;
    RoomForAll(z, scan, y, alpha);
  }

  lemma StoryPids(t: Story, alpha: real)
    requires t.grown <= 100 && t.spike <= 1200
    ensures forall i: nat :: i < 3 ==> SampleAt(t, alpha, i).pid == 100 && SampleAt(t, alpha, i).valid
  {
  }

  function StoryInputs(t: Story, alpha: real, gap: nat): seq<Input>
    requires t.grown <= 100 && t.spike <= 1200
  {
    [Input([SampleAt(t, alpha, 0)], CALM, SECOND), Input([SampleAt(t, alpha, 1)], CALM, 2 * SECOND),
     Input([SampleAt(t, alpha, 2)], CALM, 2 * SECOND + gap)]
  }

  function StoryStates(c: Config, t: Story, alpha: real, gap: nat): seq<State>
    requires t.grown <= 100 && t.spike <= 1200
  {
    var ins := StoryInputs(t, alpha, gap);
    var s1 := Recorded(c, ins[0], INITIAL, None);
    var s2 := Recorded(c, ins[1], s1, Some(CheckedKey(c, ins[1].samples[0])));
    [INITIAL, s1, s2, Recorded(c, ins[2], s2, Some(CheckedKey(c, ins[2].samples[0])))]
  }

  /** A process with enough of a share to spike both as new and by its rise, under two keys, is
      reported twice, however short the time between. */
  lemma TwoReports(s: ValidSettings, t: Story, gap: nat)
    requires t.grown <= 100 && t.spike <= 1200
    requires var c, alpha := DetectorConfig(s), s.tuning.procAlpha;
             var x, y := SampleAt(t, alpha, 1), SampleAt(t, alpha, 2);
             Eligible(c, x, {}) && Eligible(c, y, {}) && CheckedKey(c, x) != CheckedKey(c, y)
    requires 0 < gap < DetectorConfig(s).cooldownNs
    ensures var c, alpha := DetectorConfig(s), s.tuning.procAlpha;
            var ins, ss := StoryInputs(t, alpha, gap), StoryStates(c, t, alpha, gap);
            && SampledRun(s, Scans(t), Samplers(t, alpha), ins, ss)
            && ReportsTwice(c, ins, ss, 1, 2) && !Apart(c, ins, ss, 1, 2)
            && FindingAt(c, ins, ss, 1).value.sample == SampleAt(t, alpha, 1)
            && FindingAt(c, ins, ss, 2).value.sample == SampleAt(t, alpha, 2)
  {
    hide SamplerRun, SampleAt, Step, Eligible, CheckedKey, CpuFinding, DetectorConfig, Recorded, StoryStates;
    var c, alpha := DetectorConfig(s), s.tuning.procAlpha;
    var ins, ss := StoryInputs(t, alpha, gap), StoryStates(c, t, alpha, gap);
    StoryIsSampled(t, alpha);
    StoryFindings(c, t, alpha, gap);
    StoryPids(t, alpha);
    StartsInitial(c, t, alpha, gap);
    assert Run(c, ins, ss);
    NoKeysBetween(c, ins, ss, 2);
  }

  lemma StartsInitial(c: Config, t: Story, alpha: real, gap: nat)
    requires t.grown <= 100 && t.spike <= 1200
    ensures var ss := StoryStates(c, t, alpha, gap); |ss| == 4 && ss[0] == INITIAL
  {
  }

  lemma NoKeysBetween(c: Config, ins: seq<Input>, ss: seq<State>, a: nat)
    requires a <= |ins| && |ss| == |ins| + 1
    ensures |KeysBetween(c, ins, ss, a, a)| == 0
  {
    assert KeysBetween(c, ins, ss, a, a) == {};
  }

  lemma StoryFindings(c: Config, t: Story, alpha: real, gap: nat)
    requires t.grown <= 100 && t.spike <= 1200
    requires var x, y := SampleAt(t, alpha, 1), SampleAt(t, alpha, 2);
             Eligible(c, x, {}) && Eligible(c, y, {}) && CheckedKey(c, x) != CheckedKey(c, y)
    ensures var ins, ss := StoryInputs(t, alpha, gap), StoryStates(c, t, alpha, gap);
            && (forall i :: 0 <= i < 3 ==> Step(c, ins[i].samples, ins[i].mem, ins[i].now, ss[i], ss[i + 1]))
            && FindingAt(c, ins, ss, 1) == Some(CpuTrigger(SampleAt(t, alpha, 1), true, CheckedKey(c, SampleAt(t, alpha, 1))))
            && FindingAt(c, ins, ss, 2) == Some(CpuTrigger(SampleAt(t, alpha, 2), false, CheckedKey(c, SampleAt(t, alpha, 2))))
  {
    hide SampleAt, Step, CpuFinding, CheckedKey, MemAfter, SwapAfter, Eligible, Cooling;
    var ins, ss := StoryInputs(t, alpha, gap), StoryStates(c, t, alpha, gap);
    StorySamples(t, alpha);
    IdleIsNothing(c, ins[0].samples[0]);
    FindsNothing(c, ins[0], ss[0]);
    FindsSole(c, ins[1], ss[1], ins[1].samples[0]);
    FindsSole(c, ins[2], ss[2], ins[2].samples[0]);
  }

  lemma IdleIsNothing(c: Config, x: Sample)
    requires x.cpuPct == 0.0 && IsNew(x)
    ensures !Eligible(c, x, {})
  {
  }

  // ----- who is reported twice -----

  /** With a share of 100 in its second collection and of 1200 in its third a process spikes under
      any settings. */
  lemma AlwaysSpikes(s: ValidSettings, t: Story)
    requires t.grown == 100 && t.spike == 1200
    ensures var c, alpha := DetectorConfig(s), s.tuning.procAlpha;
            Eligible(c, SampleAt(t, alpha, 1), {}) && Eligible(c, SampleAt(t, alpha, 2), {})
  {
    hide SampleAt;
    var alpha := s.tuning.procAlpha;
    StorySamples(t, alpha);
    ProductSign(0.9 - alpha, 1300.0 - 100.0 * alpha);
    assert (0.9 - alpha) * (1300.0 - 100.0 * alpha) == 1170.0 - 1390.0 * alpha + 100.0 * (alpha * alpha);
    assert (1.0 - alpha) * (1200.0 - alpha * 100.0) == 1200.0 - 1300.0 * alpha + 100.0 * (alpha * alpha);
  }

  /** A process that changes both its parent and its group changes its key whenever aggregation is
      on or the scope goes by either. */
  lemma ChangingIds(s: ValidSettings)
    requires s.aggregate || s.scope.Parent? || s.scope.ProcessGroup?
    ensures !KeepsProcesses(s)
  {
    hide SampleAt, Eligible, SampledRun, ReportsTwice, Apart, Scans, Samplers, StoryInputs, StoryStates;
    var t := Story(10, 50, 100, 20, 60, 1200);
    var c, alpha := DetectorConfig(s), s.tuning.procAlpha;
    AlwaysSpikes(s, t);
    StorySamples(t, alpha);
    TwoReports(s, t, 50_000_000);
    assert SampledRun(s, Scans(t), Samplers(t, alpha), StoryInputs(t, alpha, 50_000_000), StoryStates(c, t, alpha, 50_000_000));
  }

  /** One that changes neither does when aggregation is on and the scope is not the group. */
  lemma AggregatedKeys(s: ValidSettings)
    requires s.aggregate && !s.scope.ProcessGroup?
    ensures !KeepsWhileSame(s)
  {
    hide SampleAt, Eligible, SampledRun, ReportsTwice, Apart, Scans, Samplers, StoryInputs, StoryStates, FindingAt;
    var t := Story(10, 50, 100, 10, 50, 1200);
    var c, alpha := DetectorConfig(s), s.tuning.procAlpha;
    AlwaysSpikes(s, t);
    StorySamples(t, alpha);
    TwoReports(s, t, 50_000_000);
    assert SampledRun(s, Scans(t), Samplers(t, alpha), StoryInputs(t, alpha, 50_000_000), StoryStates(c, t, alpha, 50_000_000));
  }

  /** What is reported twice, a second apart, of a process with a share of 6 and then of 90. */
  ghost predicate ReportedTwice(s: ValidSettings, t: Story)
    requires t.grown <= 100 && t.spike <= 1200
  {
    var c, alpha := DetectorConfig(s), s.tuning.procAlpha;
    var ins, ss := StoryInputs(t, alpha, SECOND), StoryStates(c, t, alpha, SECOND);
    && SampledRun(s, Scans(t), Samplers(t, alpha), ins, ss)
    && ReportsTwice(c, ins, ss, 1, 2) && !Apart(c, ins, ss, 1, 2)
  }

  /** With the default thresholds and the default cooldown of five seconds this is, under different
      keys, enough for two reports. */
  lemma DefaultsReport(s: ValidSettings, t: Story)
    requires s == DEFAULTS.(scope := s.scope, aggregate := s.aggregate)
    requires t.grown == 6 && t.spike == 90
    requires CheckedKey(DetectorConfig(s), SampleAt(t, 0.3, 1)) != CheckedKey(DetectorConfig(s), SampleAt(t, 0.3, 2))
    ensures ReportedTwice(s, t)
  {
    hide SampleAt, SampledRun, ReportsTwice, Apart;
    StorySamples(t, 0.3);
    TwoReports(s, t, SECOND);
  }

  /** With aggregation: a process is reported as new for its group and a second later, no longer
      new, for itself. */
  lemma NewThenOld()
    ensures ReportedTwice(DEFAULTS.(aggregate := true), Story(10, 50, 6, 10, 50, 90))
  {
    hide SampleAt, ReportedTwice;
    var t := Story(10, 50, 6, 10, 50, 90);
    StorySamples(t, 0.3);
    DefaultsReport(DEFAULTS.(aggregate := true), t);
  }

  /** By parent: it is reported for its parent, and a second later, orphaned, for process 1. */
  lemma Orphaned()
    ensures ReportedTwice(DEFAULTS.(scope := Parent), Story(10, 50, 6, 1, 50, 90))
  {
    hide SampleAt, ReportedTwice;
    var t := Story(10, 50, 6, 1, 50, 90);
    StorySamples(t, 0.3);
    DefaultsReport(DEFAULTS.(scope := Parent), t);
  }

  /** By group, with aggregation or without: it is reported for its group, and a second later for
      the group of its own that it has moved to. */
  lemma MovedOut(aggregate: bool)
    ensures ReportedTwice(DEFAULTS.(scope := ProcessGroup, aggregate := aggregate), Story(10, 50, 6, 10, 100, 90))
  {
    hide SampleAt, ReportedTwice;
    var t := Story(10, 50, 6, 10, 100, 90);
    StorySamples(t, 0.3);
    DefaultsReport(DEFAULTS.(scope := ProcessGroup, aggregate := aggregate), t);
  }
}
