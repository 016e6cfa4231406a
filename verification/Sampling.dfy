/** What the detector and the snapshots are given of the processes: the sampler over whole runs. */
module Sampling {
  import opened Snapshots
  import opened ProcTracker
  import opened AnomalyDetector
  import opened ConfigValidation
  import Cooldown
  import DetectorRuns

  /** One scan of the processes, which may fail altogether. */
  datatype Scan = Failed | Scanned(readings: seq<Reading>, totalTicks: u64)

  /** What the sampler keeps from one scan to the next: the samples, and the CPU ticks of the system. */
  datatype Sampler = Sampler(context: seq<Sample>, lastTicks: u64)

  const FRESH: Sampler := Sampler([], 0)

  function RoundOf(z: Sampler, scan: Scan): Round
    requires scan.Scanned?
  {
    Round(scan.readings, TickDelta(z.lastTicks, scan.totalTicks), z.lastTicks == 0)
  }

  /** One collection takes the sampler from `z` to `y`, whose context the detector is given. */
  ghost predicate Samples(z: Sampler, scan: Scan, y: Sampler, alpha: real) {
    match scan
    case Failed => y == z
    case Scanned(_, ticks) => y.lastTicks == ticks && Collected(RoundOf(z, scan), z.context, y.context, alpha)
  }

  /** An entry of a list shows a sample. */
  predicate Shows(e: ProcEntry, x: Sample) {
    && e.pid == x.pid && e.ppid == x.ppid && e.state == x.state && e.comm == x.comm
    && e.cpuPct == x.cpuPct && e.rssKib == x.rssKib
  }

  ghost predicate ShowsAll(es: seq<ProcEntry>, xs: seq<Sample>) {
    |es| == |xs| && forall i :: 0 <= i < |es| ==> Shows(es[i], xs[i])
  }

  /** The two lists of a snapshot come from the samples of its own collection, and are empty when
      that read nothing. */
  ghost predicate ListsAgree(scan: Scan, y: Sampler, snap: Snapshot, limit: nat) {
    if scan.Failed? || scan.readings == [] then snap.procs == [] == snap.topRss
    else exists top, topRss ::
      && IsTopK(top, multiset(y.context), ListLength(limit), ByCpu) && ShowsAll(snap.procs, top)
      && IsTopK(topRss, multiset(y.context), ListLength(limit), ByRss) && ShowsAll(snap.topRss, topRss)
  }

  /** With room for all, the samples of a scan are all kept, in any order. */
  lemma RoomForAll(z: Sampler, scan: Scan, y: Sampler, alpha: real)
    requires scan.Scanned? && 0 < |scan.readings| <= MAX_TRACKED && y.lastTicks == scan.totalTicks
    requires var r := RoundOf(z, scan);
             multiset(y.context) == multiset(SamplesOf(r.readings, z.context, r.tickDelta, r.firstCall, alpha))
    ensures Samples(z, scan, y, alpha)
  {
    var r := RoundOf(z, scan);
    var xs := SamplesOf(r.readings, z.context, r.tickDelta, r.firstCall, alpha);
    hide SamplesOf;
    AppendsFeed(xs);
    var bs := Prefixes(xs);
    assert bs[|xs|] == xs;
    assert xs != [];
  }

  function Prefixes(xs: seq<Sample>): seq<seq<Sample>> {
    seq(|xs| + 1, i requires 0 <= i <= |xs| => xs[..i])
  }

  lemma AppendsFeed(xs: seq<Sample>)
    requires |xs| <= MAX_TRACKED
    ensures Fed(Prefixes(xs), xs)
  {
    var bs := Prefixes(xs);
    forall i | 0 <= i < |xs|
      ensures Offered(bs[i], xs[i], bs[i + 1])
    {
      assert xs[..i + 1] == xs[..i] + [xs[i]];
    }
  }

  // ----- what the detector sees in these samples -----

  /** The baseline takes in the current share before it is compared with it. */
  lemma DeltaIsDamped(r: Reading, prev: Sample, tickDelta: u64, firstCall: bool, alpha: real)
    ensures var x := SampleOf(r, Some(prev), tickDelta, firstCall, alpha);
            x.cpuPct - x.baselinePct == (1.0 - alpha) * (x.cpuPct - prev.baselinePct)
  {
    hide CpuPct;
    var cpu := CpuPct(r, Some(prev), tickDelta, firstCall);
    Blended(alpha, cpu, prev.baselinePct);
  }

  lemma Blended(a: real, x: real, b: real)
    ensures x - (a * x + (1.0 - a) * b) == (1.0 - a) * (x - b)
  {
  }

  /** So a process that is no longer new spikes exactly when its share has risen above the previous
      baseline by the threshold divided by one minus alpha. */
  lemma DeltaSpikesExactly(c: Config, r: Reading, prev: Sample, tickDelta: u64, firstCall: bool, alpha: real)
    requires alpha < 1.0 && prev.sampleCount >= 2
    ensures var x := SampleOf(r, Some(prev), tickDelta, firstCall, alpha);
            !IsNew(x) && (Score(x) >= Threshold(c, x) <==> x.cpuPct - prev.baselinePct >= c.cpuDeltaPct / (1.0 - alpha))
  {
    hide CpuPct;
    DeltaIsDamped(r, prev, tickDelta, firstCall, alpha);
    var x := SampleOf(r, Some(prev), tickDelta, firstCall, alpha);
    assert !IsNew(x);
    hide SampleOf;
    Rises(1.0 - alpha, x.cpuPct - prev.baselinePct, c.cpuDeltaPct);
  }

  lemma Rises(k: real, d: real, t: real)
    requires k > 0.0
    ensures k * d >= t <==> d >= t / k
  {
    var q := t / k;
    assert k * q == t;
    if d >= q {
      ProductSign(k, d - q);
      assert k * (d - q) == k * d - k * q;
    } else {
      StrictProduct(k, q - d);
      assert k * (q - d) == k * q - k * d;
    }
  }

  lemma StrictProduct(x: real, y: real)
    requires x > 0.0 && y > 0.0
    ensures x * y > 0.0
  {
  }

  /** By default that takes more than 14 points, where the setting says 10. */
  lemma DefaultRise(r: Reading, prev: Sample, tickDelta: u64, firstCall: bool)
    requires prev.sampleCount >= 2
    ensures var c := DetectorConfig(DEFAULTS);
            var x := SampleOf(r, Some(prev), tickDelta, firstCall, DEFAULTS.tuning.procAlpha);
            (Score(x) >= Threshold(c, x) <==> x.cpuPct - prev.baselinePct >= 10.0 / 0.7) && 14.28 < 10.0 / 0.7 < 14.29
  {
    DeltaSpikesExactly(DetectorConfig(DEFAULTS), r, prev, tickDelta, firstCall, 0.3);
    hide SampleOf, DetectorConfig;
    assert 10.0 / 0.7 * 0.7 == 10.0;
  }

  /** The sampler over a run of scans. */
  ghost predicate SamplerRun(scans: seq<Scan>, zs: seq<Sampler>, alpha: real) {
    && |zs| == |scans| + 1 && zs[0] == FRESH
    && forall i :: 0 <= i < |scans| ==> Samples(zs[i], scans[i], zs[i + 1], alpha)
  }

  /** Any sample the sampler makes: a process has no share of the CPU in its first collection. */
  predicate Made(x: Sample) {
    x.valid && x.sampleCount > 0 && (x.sampleCount == 1 ==> x.cpuPct == 0.0)
  }

  lemma {:induction false} AllMade(scans: seq<Scan>, zs: seq<Sampler>, alpha: real, n: nat)
    requires SamplerRun(scans, zs, alpha) && n <= |scans|
    ensures forall x :: x in zs[n].context ==> Made(x)
  {
    if n > 0 {
      AllMade(scans, zs, alpha, n - 1);
      assert Samples(zs[n - 1], scans[n - 1], zs[n], alpha);
      if scans[n - 1].Scanned? {
        CollectedMade(RoundOf(zs[n - 1], scans[n - 1]), zs[n - 1].context, zs[n].context, alpha);
      }
    }
  }

  lemma CollectedMade(r: Round, c: seq<Sample>, d: seq<Sample>, alpha: real)
    requires Collected(r, c, d, alpha) && forall x :: x in c ==> Made(x)
    ensures forall x :: x in d ==> Made(x)
  {
    var xs := SamplesOf(r.readings, c, r.tickDelta, r.firstCall, alpha);
    if xs != [] {
      var bs :| Fed(bs, xs) && multiset(d) == multiset(bs[|xs|]);
      hide Fed, SamplesOf, Collected, Made;
      FedFits(bs, xs, |xs|);
      assert xs[..|xs|] == xs;
      forall x | x in d
        ensures Made(x)
      {
        assert x in multiset(d) && x in multiset(xs) && x in xs;
        SampleIsMade(r, c, alpha, x);
      }
    }
  }

  lemma SampleIsMade(r: Round, c: seq<Sample>, alpha: real, x: Sample)
    requires forall y :: y in c ==> Made(y)
    requires x in SamplesOf(r.readings, c, r.tickDelta, r.firstCall, alpha)
    ensures Made(x)
  {
    var i :| 0 <= i < |r.readings| && x == SampleOf(r.readings[i], FindPrev(c, r.readings[i].pid), r.tickDelta, r.firstCall, alpha);
    FoundIsThere(c, r.readings[i].pid);
  }

  // ----- the detector on these samples -----

  const SECOND: nat := 1_000_000_000

  /** A machine with memory and swap to spare. */
  const CALM: MemSnapshot := MemSnapshot(16777216, 16777216, 0, 0, 0, 0, 0, 2147483648, 2147483648, 0)

  /** A run of the detector on what a run of the sampler gives it, under the settings of both. */
  ghost predicate SampledRun(
    s: ValidSettings, scans: seq<Scan>, zs: seq<Sampler>, ins: seq<DetectorRuns.Input>, ss: seq<State>)
  {
    && SamplerRun(scans, zs, s.tuning.procAlpha) && |ins| == |scans|
    && (forall i :: 0 <= i < |ins| ==> ins[i].samples == zs[i + 1].context)
    && DetectorRuns.Run(DetectorConfig(s), ins, ss)
  }

  /** So a new process is only ever reported in its second collection: in the first it has no share
      yet, and after the second it is no longer new. */
  lemma NewInSecondOnly(
    s: ValidSettings, scans: seq<Scan>, zs: seq<Sampler>, ins: seq<DetectorRuns.Input>, ss: seq<State>, i: nat)
    requires SampledRun(s, scans, zs, ins, ss) && i < |ins|
    ensures var f := CpuFinding(DetectorConfig(s), ins[i].samples, ss[i].table, ins[i].now);
            f.Some? && f.value.isNew ==> f.value.sample.sampleCount == 2
  {
    hide DetectorRuns.Run, DetectorConfig, SamplerRun, Eligible, Cooldown.Cooling;
    var c, samples := DetectorConfig(s), ins[i].samples;
    DetectorRuns.RunShape(c, ins, ss);
    AllMade(scans, zs, s.tuning.procAlpha, i + 1);
    var cooling := Cooldown.Cooling(ss[i].table, ins[i].now, c.cooldownNs);
    PickIsArgmax(c, samples, cooling);
    var p := Pick(c, samples, cooling);
    if p.Some? {
      OnlySharesCount(c, samples[p.value], cooling);
    }
  }

  lemma OnlySharesCount(c: Config, x: Sample, cooling: set<int>)
    requires Made(x) && Eligible(c, x, cooling)
    ensures IsNew(x) ==> x.sampleCount == 2
  {
  }
}
