/** A run of sampler and detector in which 64 other keys break a cooldown: one process stays
    throughout and spikes twice, and each second in between another new one spikes. */
module KeyLimit {
  import opened Snapshots
  import opened Cooldown
  import opened AnomalyDetector
  import opened DetectorRuns
  import opened ConfigValidation
  import opened ProcTracker
  import opened Sampling
  import opened CooldownLimit

  /** The longest cooldown that validation accepts, everything else as by default. */
  const PATIENT: ValidSettings := DEFAULTS.(thresholds := DEFAULTS.thresholds.(cooldownSeconds := 300.0))

  const CONFIG: Config := DetectorConfig(PATIENT)

  // ----- what is read: process 1 always, and each other one twice -----

  function ReadingOf(pid: i32, ticks: u64, rssKib: u64): Reading {
    Reading(pid, 1, pid, 'R', "p", ticks, rssKib)
  }

  function OneTicks(i: nat): u64 {
    if i == 0 then 0 else if i <= 65 then 50 else 100
  }

  function Readings(i: nat): seq<Reading>
    requires i < 67
  {
    [ReadingOf(1, OneTicks(i), 3000)]
    + (if 2 <= i <= 65 then [ReadingOf(i, 50, 2000)] else [])
    + (if 1 <= i <= 64 then [ReadingOf(i + 1, 0, 1000)] else [])
  }

  /** The sample of process 1. */
  function One(i: nat): Sample {
    SampleOf(ReadingOf(1, OneTicks(i), 3000), if i == 0 then None else Some(One(i - 1)), 100, i == 0, 0.3)
  }

  /** The samples of another process in its first collection and in its second. */
  function Young(pid: i32): Sample {
    SampleOf(ReadingOf(pid, 0, 1000), None, 100, false, 0.3)
  }

  function Grown(pid: i32): Sample {
    SampleOf(ReadingOf(pid, 50, 2000), Some(Young(pid)), 100, false, 0.3)
  }

  function ContextAt(i: nat): seq<Sample>
    requires i < 67
  {
    [One(i)] + (if 2 <= i <= 65 then [Grown(i)] else []) + (if 1 <= i <= 64 then [Young(i + 1)] else [])
  }

  lemma {:induction false} OneShape(i: nat)
    requires i < 67
    ensures var x := One(i);
            && x.pid == 1 && x.ticks == OneTicks(i) && x.valid && x.sampleCount == i + 1
            && x.cpuPct == (if i == 1 || i == 66 then 50.0 else 0.0)
            && (i <= 65 ==> 0.0 <= x.baselinePct <= 15.0)
            && (i == 66 ==> x.cpuPct - x.baselinePct >= 24.0)
  {
    if i > 0 {
      OneShape(i - 1);
      OneStep(i, One(i - 1));
    }
  }

  lemma OneStep(i: nat, p: Sample)
    requires 0 < i < 67 && p.ticks == OneTicks(i - 1) && p.sampleCount == i
    requires 0.0 <= p.baselinePct <= 15.0 && (i == 1 ==> p.baselinePct == 0.0)
    ensures var x := SampleOf(ReadingOf(1, OneTicks(i), 3000), Some(p), 100, false, 0.3);
            && x.pid == 1 && x.ticks == OneTicks(i) && x.valid && x.sampleCount == i + 1
            && x.cpuPct == (if i == 1 || i == 66 then 50.0 else 0.0)
            && (i <= 65 ==> 0.0 <= x.baselinePct <= 15.0)
            && (i == 66 ==> x.cpuPct - x.baselinePct >= 24.0)
  {
  }

  lemma OthersShape(pid: i32)
    ensures var x, y := Young(pid), Grown(pid);
            && x.pid == pid && x.valid && x.sampleCount == 1 && x.cpuPct == 0.0
            && y.pid == pid && y.pgid == pid && y.valid && y.sampleCount == 2 && y.cpuPct == 50.0
  {
  }

  // ----- the sampler makes these samples of them -----

  function SamplerAt(i: nat): Sampler
    requires i < 68
  {
    if i == 0 then FRESH else Sampler(ContextAt(i - 1), 100 * i)
  }

  function ScanAt(i: nat): Scan
    requires i < 67
  {
    Scanned(Readings(i), 100 * (i + 1))
  }

  function Scans(): seq<Scan> {
    seq(67, i requires 0 <= i < 67 => ScanAt(i))
  }

  function Samplers(): seq<Sampler> {
    seq(68, i requires 0 <= i < 68 => SamplerAt(i))
  }

  /** What the sampler knows of the processes it reads next. */
  lemma Known(i: nat)
    requires i < 67
    ensures var c := SamplerAt(i).context;
            && FindPrev(c, 1) == (if i == 0 then None else Some(One(i - 1)))
            && (2 <= i <= 65 ==> FindPrev(c, i) == Some(Young(i)))
            && (1 <= i <= 64 ==> FindPrev(c, i + 1) == None)
  {
    hide One, Young, Grown, FindPrev;
    NoneKnown(1);
    if i > 0 {
      OneShape(i - 1);
      OthersShape(i - 1);
      OthersShape(i);
      var grown := if 3 <= i <= 66 then [Grown(i - 1)] else [];
      var young := if 2 <= i <= 65 then [Young(i)] else [];
      assert SamplerAt(i).context == [One(i - 1)] + (grown + young);
      FindFirst(One(i - 1), grown + young, 1);
      Others(i, grown, young, i);
      Others(i, grown, young, i + 1);
      FindFirst(One(i - 1), grown + young, i);
      FindFirst(One(i - 1), grown + young, i + 1);
    }
  }

  lemma Others(i: nat, grown: seq<Sample>, young: seq<Sample>, pid: i32)
    requires 1 <= i <= 66 && (pid == i || pid == i + 1)
    requires grown == (if 3 <= i <= 66 then [Grown(i - 1)] else []) && young == (if 2 <= i <= 65 then [Young(i)] else [])
    ensures FindPrev(grown + young, pid) == if pid == i && young != [] then Some(Young(i)) else None
  {
    hide Young, Grown, FindPrev;
    OthersShape(i - 1);
    OthersShape(i);
    NoneKnown(pid);
    if young != [] {
      FindFirst(Young(i), [], pid);
      assert young == [Young(i)] + [];
    }
    if grown != [] {
      FindFirst(Grown(i - 1), young, pid);
    } else {
      assert grown + young == young;
    }
  }

  lemma FindFirst(x: Sample, s: seq<Sample>, pid: i32)
    ensures FindPrev([x] + s, pid) == if x.valid && x.pid == pid then Some(x) else FindPrev(s, pid)
  {
    assert ([x] + s)[1..] == s;
  }

  lemma NoneKnown(pid: i32)
    ensures FindPrev([], pid) == None
  {
  }

  lemma SamplerStep(i: nat)
    requires i < 67
    ensures Samples(SamplerAt(i), ScanAt(i), SamplerAt(i + 1), 0.3)
  {
    hide SampleOf, Collected;
    Known(i);
    var r := RoundOf(SamplerAt(i), ScanAt(i));
    assert r.tickDelta == 100 && (r.firstCall <==> i == 0);
    ContextIsMade(i);
    RoomForAll(SamplerAt(i), ScanAt(i), SamplerAt(i + 1), 0.3);
  }

  lemma ContextIsMade(i: nat)
    requires i < 67
    ensures SamplesOf(Readings(i), SamplerAt(i).context, 100, i == 0, 0.3) == ContextAt(i)
  {
    hide SampleOf, SamplerAt, FindPrev;
    Known(i);
    Unfolded(i);
    var xs, c := SamplesOf(Readings(i), SamplerAt(i).context, 100, i == 0, 0.3), ContextAt(i);
    assert |xs| == |c|;
    assert forall j :: 0 <= j < |xs| ==> xs[j] == c[j];
  }

  lemma Unfolded(i: nat)
    ensures One(i) == SampleOf(ReadingOf(1, OneTicks(i), 3000), if i == 0 then None else Some(One(i - 1)), 100, i == 0, 0.3)
  {
    hide SampleOf;
  }

  lemma SamplerRunsOn()
    ensures SamplerRun(Scans(), Samplers(), 0.3)
  {
    hide Samples, SamplerAt, ScanAt;
    forall i | 0 <= i < 67
      ensures Samples(Samplers()[i], Scans()[i], Samplers()[i + 1], 0.3)
    {
      SamplerStep(i);
    }
    SamplerStarts();
  }

  lemma SamplerStarts()
    ensures SamplerAt(0) == FRESH
  {
  }

  // ----- the detector on them, once a second -----

  function InputAt(i: nat): Input
    requires i < 67
  {
    Input(ContextAt(i), CALM, (i + 1) * SECOND)
  }

  function Inputs(): seq<Input> {
    seq(67, i requires 0 <= i < 67 => InputAt(i))
  }

  /** The key of evaluation `i`. */
  function KeyOf(i: nat): Option<int>
    requires i < 67
  {
    if i == 0 then None else if i <= 65 then Some(i) else Some(1)
  }

  function StateAt(i: nat): State
    requires i < 68
  {
    if i == 0 then INITIAL else Recorded(CONFIG, InputAt(i - 1), StateAt(i - 1), KeyOf(i - 1))
  }

  function States(): seq<State> {
    seq(68, i requires 0 <= i < 68 => StateAt(i))
  }

  /** After evaluation 1, one key after the other. */
  function Triggered(n: nat): Table {
    seq(n, j requires 0 <= j < n => Entry(j + 1, (j + 2) * SECOND))
  }

  lemma NextTable(i: nat)
    requires i < 67
    ensures StateAt(0).table == []
    ensures StateAt(i + 1).table == if i == 0 then StateAt(0).table
                                    else Record(StateAt(i).table, KeyOf(i).value, (i + 1) * SECOND)
  {
    hide Record, MemAfter, SwapAfter, ContextAt;
  }

  /** The table takes them until it is full. */
  lemma {:induction false} Filling(i: nat)
    requires i <= TABLE_SIZE
    ensures StateAt(i + 1).table == Triggered(i)
  {
    hide StateAt;
    NextTable(i);
    if i == 0 {
      assert Triggered(0) == [];
    } else {
      Filling(i - 1);
      assert Find(Triggered(i - 1), i) == i - 1;
      assert Triggered(i) == Triggered(i - 1) + [Entry(i, (i + 1) * SECOND)];
    }
  }

  /** Then it gives up its oldest entry, that of process 1. */
  lemma Evicting()
    ensures StateAt(TABLE_SIZE + 2).table == Triggered(TABLE_SIZE)[0 := Entry(65, 66 * SECOND)]
  {
    hide StateAt;
    Filling(TABLE_SIZE);
    NextTable(TABLE_SIZE + 1);
    var t := Triggered(TABLE_SIZE);
    assert Find(t, 65) == TABLE_SIZE;
    assert t[0].ts == 2 * SECOND;
    assert Oldest(t) == 0;
  }

  /** The table does not hold the key that spikes next. */
  lemma TableAt(i: nat)
    requires i < 67
    ensures Unique(StateAt(i).table)
    ensures i > 0 ==> forall e :: e in StateAt(i).table ==> e.key != KeyOf(i).value
  {
    hide StateAt;
    if i == 0 {
      NextTable(0);
    } else if i <= TABLE_SIZE + 1 {
      Filling(i - 1);
    } else {
      Evicting();
    }
  }

  /** Process 1 spikes in evaluation 1, as new, and in the last, by its rise; in each one between
      the process that is in its second collection does. */
  function SpikeAt(i: nat): nat
    requires 0 < i < 67
  {
    if 2 <= i <= 65 then 1 else 0
  }

  lemma SpikesAt(i: nat, cooling: set<int>)
    requires i < 67 && (i > 0 ==> KeyOf(i).value !in cooling)
    ensures i > 0 ==> SpikeAt(i) < |ContextAt(i)| && CheckedKey(CONFIG, ContextAt(i)[SpikeAt(i)]) == KeyOf(i).value
    ensures forall j :: 0 <= j < |ContextAt(i)| ==>
              (Eligible(CONFIG, ContextAt(i)[j], cooling) <==> i > 0 && j == SpikeAt(i))
  {
    hide One, Young, Grown;
    OneShape(i);
    if i > 0 {
      OthersShape(i);
      OthersShape(i + 1);
    }
  }

  lemma EvaluationAt(i: nat)
    requires i < 67
    ensures var n := InputAt(i);
            && Step(CONFIG, n.samples, n.mem, n.now, StateAt(i), StateAt(i + 1))
            && (var f := CpuFinding(CONFIG, n.samples, StateAt(i).table, n.now);
                if i == 0 then f.None? else f.Some? && f.value.key == KeyOf(i).value)
  {
    hide Step, ContextAt, Eligible, Recorded, CpuFinding, MemAfter, SwapAfter;
    TableAt(i);
    var n := InputAt(i);
    var cooling := Cooling(StateAt(i).table, n.now, CONFIG.cooldownNs);
    SpikesAt(i, if i == 0 then {} else cooling);
    NextState(i);
    hide StateAt;
    if i == 0 {
      FindsNothing(CONFIG, n, StateAt(i));
    } else {
      FindsOnly(CONFIG, n, StateAt(i), SpikeAt(i));
    }
  }

  lemma NextState(i: nat)
    requires i < 67
    ensures StateAt(i + 1) == Recorded(CONFIG, InputAt(i), StateAt(i), KeyOf(i))
  {
    hide Recorded, InputAt;
  }

  lemma KeysAre(i: nat)
    requires i < 67
    ensures KeyAt(CONFIG, Inputs(), States(), i) == KeyOf(i)
  {
    hide CpuFinding, StateAt, Step, ContextAt;
    EvaluationAt(i);
  }

  lemma DetectorRunsOn()
    ensures Run(CONFIG, Inputs(), States())
  {
    hide Step, StateAt, ContextAt;
    forall i | 0 <= i < 67
      ensures Step(CONFIG, Inputs()[i].samples, Inputs()[i].mem, Inputs()[i].now, States()[i], States()[i + 1])
    {
      EvaluationAt(i);
    }
    NothingYet();
  }

  lemma NothingYet()
    ensures StateAt(0) == INITIAL
  {
  }

  lemma {:induction false} KeysCounted(ins: seq<Input>, ss: seq<State>, m: nat)
    requires m + 1 < |ins| && |ss| == |ins| + 1
    requires forall i: nat :: 2 <= i <= m + 1 ==> KeyAt(CONFIG, ins, ss, i) == Some(i)
    ensures var keys := KeysBetween(CONFIG, ins, ss, 2, 2 + m);
            |keys| == m && forall k :: k in keys <==> 2 <= k <= m + 1
  {
    hide KeyAt;
    if m > 0 {
      KeysCounted(ins, ss, m - 1);
      assert KeyAt(CONFIG, ins, ss, m + 1) == Some(m + 1);
      assert KeysBetween(CONFIG, ins, ss, 2, 2 + m) == KeysBetween(CONFIG, ins, ss, 2, 1 + m) + {m + 1};
    }
  }

  /** Process 1 is reported again after 65 seconds of a cooldown of 300, because exactly 64 other
      keys have triggered in between. */
  lemma SixtyFourKeysBreakIt()
    ensures SampledRun(PATIENT, Scans(), Samplers(), Inputs(), States())
    ensures KeyAt(CONFIG, Inputs(), States(), 1) == Some(1) == KeyAt(CONFIG, Inputs(), States(), 66)
    ensures Inputs()[66].now - Inputs()[1].now == 65 * SECOND < CONFIG.cooldownNs
    ensures |KeysBetween(CONFIG, Inputs(), States(), 2, 66) - {1}| == 64
  {
    hide Run, KeyAt, StateAt, ContextAt, KeysBetween, SamplerRun;
    SamplerRunsOn();
    DetectorRunsOn();
    forall i: nat | i < 67
      ensures KeyAt(CONFIG, Inputs(), States(), i) == KeyOf(i)
    {
      KeysAre(i);
    }
    KeysCounted(Inputs(), States(), 64);
    var keys := KeysBetween(CONFIG, Inputs(), States(), 2, 66);
    assert keys - {1} == keys;
  }
}
