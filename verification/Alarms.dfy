/** When the detector raises an alarm, in terms of the settings and of the readings. */
module Alarms {
  import opened Snapshots
  import opened Cooldown
  import opened AnomalyDetector
  import opened ConfigValidation
  import opened DetectorRuns

  // ----- the settings the detector works with -----

  /** The cooldown is the one that is set, in whole nanoseconds. */
  lemma CooldownIsSet(s: ValidSettings)
    ensures var ns := DetectorConfig(s).cooldownNs;
            ns as real <= s.thresholds.cooldownSeconds * 1000.0 * 1000.0 * 1000.0 < ns as real + 1.0
  {
  }

  /** A baseline takes the first reading as it is; from then on the smoothing factor that is set
      weighs the new reading, and what is less than one KiB is cut off. */
  lemma BaselineFollows(s: ValidSettings, m: MemSnapshot, b: Baseline, now: nat)
    ensures var c, a := DetectorConfig(s), s.tuning.memAlpha;
            Follows(a, b, MemAfter(c, m, b, now), m.total > 0, m.available as real)
    ensures var c, a := DetectorConfig(s), s.tuning.memAlpha;
            m.swapFree <= m.swapTotal ==>
              Follows(a, b, SwapAfter(c, m, b, now), m.swapTotal > 0, (m.swapTotal - m.swapFree) as real)
  {
    hide Follow, MemFires, SwapFires;
    var c := DetectorConfig(s);
    Followed(c.alpha, b, m.available);
    Followed(c.alpha, b, SwapUsed(m));
    hide DetectorConfig;
  }

  lemma Followed(alpha: fraction, b: Baseline, x: u64)
    ensures Follows(alpha, b, Follow(alpha, b, x), true, x as real)
  {
    hide Ema;
    EmaIs(alpha, x, b.kib);
  }

  lemma EmaIs(alpha: fraction, x: u64, b: u64)
    ensures var r := Ema(alpha, x, b);
            r as real <= alpha * x as real + (1.0 - alpha) * b as real < r as real + 1.0
  {
  }

  predicate Follows(a: real, b: Baseline, r: Baseline, usable: bool, x: real) {
    && (r.initialized <==> b.initialized || usable)
    && (!usable ==> r == b)
    && (usable && !b.initialized ==> r.kib as real == x)
    && (usable && b.initialized ==> r.kib as real <= a * x + (1.0 - a) * b.kib as real < r.kib as real + 1.0)
  }

  // ----- memory and swap -----

  /** What the detector is meant for: readings that fit signed numbers, and no more available or
      free than there is. */
  predicate Sane(m: MemSnapshot) {
    m.available <= m.total < TWO_63 && m.swapFree <= m.swapTotal < TWO_63
  }

  /** Other readings are taken modulo 2^64, as signed numbers. */
  lemma ReadAsSigned(a: u64)
    ensures -TWO_63 <= AsI64(a) < TWO_63 && (AsI64(a) - a) % TWO_64 == 0
  {
  }

  predicate Dropped(s: Settings, m: MemSnapshot, level: nat) {
    level - m.available >= s.thresholds.memDropKib
  }

  predicate Pressed(s: Settings, m: MemSnapshot) {
    (m.total - m.available) as real * 100.0 >= s.thresholds.memPressurePct * m.total as real
  }

  predicate Swapped(s: Settings, m: MemSnapshot, level: nat) {
    m.swapTotal - m.swapFree - level >= s.thresholds.swapSpikeKib
  }

  /** An earlier alarm is less than a cooldown ago. */
  predicate Waits(c: Config, b: Baseline, now: nat) {
    0 < b.lastTriggerNs < now < b.lastTriggerNs + c.cooldownNs
  }

  /** A memory alarm is raised exactly when there was a reading before, the last alarm is not less
      than a cooldown ago, and what is available has dropped by the threshold below the baseline or
      the share in use has reached the other one; and what it says are these numbers. */
  lemma MemAlarmExactly(s: ValidSettings, m: MemSnapshot, b: Baseline, now: nat)
    requires Sane(m) && b.kib < TWO_63
    ensures var c, f := DetectorConfig(s), MemFinding(DetectorConfig(s), m, b, now);
            && (f.Some? <==> m.total > 0 && b.initialized && !Waits(c, b, now) && (Dropped(s, m, b.kib) || Pressed(s, m)))
            && (f.Some? ==>
                 && (f.value.isDrop <==> Dropped(s, m, b.kib))
                 && f.value.available == m.available && f.value.baseline == b.kib
                 && f.value.delta == m.available - b.kib
                 && f.value.usedPct * m.total as real == (m.total - m.available) as real * 100.0)
            && (MemAfter(c, m, b, now).lastTriggerNs == if f.Some? then now else b.lastTriggerNs)
  {
    hide Ema;
    if m.total > 0 {
      UsedPctIs(m);
      Compare(UsedPct(m), m.total as real, s.thresholds.memPressurePct);
    }
    hide UsedPct;
  }

  lemma UsedPctIs(m: MemSnapshot)
    requires 0 < m.total && m.available <= m.total
    ensures UsedPct(m) * m.total as real == (m.total - m.available) as real * 100.0
  {
  }

  lemma Compare(x: real, t: real, y: real)
    requires t > 0.0
    ensures x >= y <==> x * t >= y * t
  {
    if x >= y {
      ProductSign(x - y, t);
      assert (x - y) * t == x * t - y * t;
    } else {
      var d := y - x;
      assert d * t == y * t - x * t;
      PositiveProduct(d, t);
    }
  }

  lemma PositiveProduct(x: real, y: real)
    requires x > 0.0 && y > 0.0
    ensures x * y > 0.0
  {
  }

  /** And a swap alarm when what is used has risen by the threshold above its baseline. */
  lemma SwapAlarmExactly(s: ValidSettings, m: MemSnapshot, b: Baseline, now: nat)
    requires Sane(m) && b.kib < TWO_63
    ensures var c, f := DetectorConfig(s), SwapFinding(DetectorConfig(s), m, b, now);
            && (f.Some? <==> m.swapTotal > 0 && b.initialized && !Waits(c, b, now) && Swapped(s, m, b.kib))
            && (f.Some? ==>
                 && f.value.used == m.swapTotal - m.swapFree && f.value.baseline == b.kib
                 && f.value.delta == f.value.used - b.kib)
            && (SwapAfter(c, m, b, now).lastTriggerNs == if f.Some? then now else b.lastTriggerNs)
  {
    hide Ema;
  }

  // ----- over whole runs -----

  /** Evaluation `n` of a run raises a memory alarm exactly when an earlier one had a reading, what
      is available has dropped or is short, and no alarm was raised within the cooldown before. */
  lemma {:induction false} MemAlarmsInRun(s: ValidSettings, ins: seq<Input>, ss: seq<State>, n: nat)
    requires Run(DetectorConfig(s), ins, ss) && n < |ins| && forall i :: 0 <= i < |ins| ==> Sane(ins[i].mem)
    ensures var c, m := DetectorConfig(s), ins[n].mem;
            MemFiresAt(c, ins, ss, n) <==>
              && m.total > 0 && (exists i :: 0 <= i < n && ins[i].mem.total > 0)
              && (Dropped(s, m, ss[n].mem.kib) || Pressed(s, m))
              && forall i :: 0 <= i < n && MemFiresAt(c, ins, ss, i) ==> ins[n].now - ins[i].now >= c.cooldownNs
  {
    hide Run, MemFiresAt, DetectorConfig, Dropped, Pressed;
    var c := DetectorConfig(s);
    RunShape(c, ins, ss);
    MemKnown(s, ins, ss, n);
    MemAlarmExactly(s, ins[n].mem, ss[n].mem, ins[n].now);
    MemFiresIs(c, ins, ss, n);
    var i := MemLast(c, ins, ss, n);
    TimesGrow(c, ins, ss);
  }

  lemma {:induction false} MemFiresIs(c: Config, ins: seq<Input>, ss: seq<State>, n: nat)
    requires n < |ins| && |ss| == |ins| + 1
    ensures MemFiresAt(c, ins, ss, n) <==> MemFinding(c, ins[n].mem, ss[n].mem, ins[n].now).Some?
    ensures SwapFiresAt(c, ins, ss, n) <==> SwapFinding(c, ins[n].mem, ss[n].swap, ins[n].now).Some?
  {
    hide MemFires, SwapFires;
  }

  lemma {:induction false} TimesGrow(c: Config, ins: seq<Input>, ss: seq<State>)
    requires Run(c, ins, ss)
    ensures Increasing(ins) && |ss| == |ins| + 1 && ss[0] == INITIAL
  {
    hide Step;
  }

  /** The baseline is known as soon as there was a reading, and fits a signed number. */
  lemma {:induction false} MemKnown(s: ValidSettings, ins: seq<Input>, ss: seq<State>, n: nat)
    requires Run(DetectorConfig(s), ins, ss) && n < |ins| && |ss| == |ins| + 1 && forall i :: 0 <= i < |ins| ==> Sane(ins[i].mem)
    ensures ss[n].mem.kib < TWO_63 && (ss[n].mem.initialized <==> exists i :: 0 <= i < n && ins[i].mem.total > 0)
    ensures ss[n].swap.kib < TWO_63 && (ss[n].swap.initialized <==> exists i :: 0 <= i < n && ins[i].mem.swapTotal > 0)
  {
    hide Run, DetectorConfig, Step, MemAfter, SwapAfter;
    if n > 0 {
      MemKnown(s, ins, ss, n - 1);
      AfterEvaluation(DetectorConfig(s), ins, ss, n - 1);
      StaysSane(DetectorConfig(s), ins[n - 1].mem, ss[n - 1], ins[n - 1].now);
    } else {
      TimesGrow(DetectorConfig(s), ins, ss);
    }
  }

  lemma {:induction false} AfterEvaluation(c: Config, ins: seq<Input>, ss: seq<State>, n: nat)
    requires Run(c, ins, ss) && n < |ins|
    ensures |ss| == |ins| + 1
    ensures ss[n + 1].mem == MemAfter(c, ins[n].mem, ss[n].mem, ins[n].now)
    ensures ss[n + 1].swap == SwapAfter(c, ins[n].mem, ss[n].swap, ins[n].now)
  {
    hide TableStep, MemAfter, SwapAfter;
    assert Step(c, ins[n].samples, ins[n].mem, ins[n].now, ss[n], ss[n + 1]);
  }

  lemma StaysSane(c: Config, m: MemSnapshot, v: State, now: nat)
    requires Sane(m) && v.mem.kib < TWO_63 && v.swap.kib < TWO_63
    ensures var b := MemAfter(c, m, v.mem, now); b.kib < TWO_63 && (b.initialized <==> v.mem.initialized || m.total > 0)
    ensures var b := SwapAfter(c, m, v.swap, now); b.kib < TWO_63 && (b.initialized <==> v.swap.initialized || m.swapTotal > 0)
  {
    hide MemFires, SwapFires, Blend;
  }

  lemma {:induction false} SwapAlarmsInRun(s: ValidSettings, ins: seq<Input>, ss: seq<State>, n: nat)
    requires Run(DetectorConfig(s), ins, ss) && n < |ins| && forall i :: 0 <= i < |ins| ==> Sane(ins[i].mem)
    ensures var c, m := DetectorConfig(s), ins[n].mem;
            SwapFiresAt(c, ins, ss, n) <==>
              && m.swapTotal > 0 && (exists i :: 0 <= i < n && ins[i].mem.swapTotal > 0)
              && Swapped(s, m, ss[n].swap.kib)
              && forall i :: 0 <= i < n && SwapFiresAt(c, ins, ss, i) ==> ins[n].now - ins[i].now >= c.cooldownNs
  {
    hide Run, SwapFiresAt, DetectorConfig, Swapped;
    var c := DetectorConfig(s);
    RunShape(c, ins, ss);
    MemKnown(s, ins, ss, n);
    SwapAlarmExactly(s, ins[n].mem, ss[n].swap, ins[n].now);
    MemFiresIs(c, ins, ss, n);
    var i := SwapLast(c, ins, ss, n);
    TimesGrow(c, ins, ss);
  }

  // ----- the CPU -----

  /** A process in its first two collections spikes by its share, and any other one by how far that
      is above its baseline. */
  predicate Spikes(s: Settings, x: Sample) {
    && x.valid
    && (x.sampleCount < 3 ==> x.cpuPct >= s.thresholds.newProcessPct)
    && (x.sampleCount >= 3 ==> x.cpuPct >= x.baselinePct + s.thresholds.cpuDeltaPct)
  }

  function Height(x: Sample): real {
    x.cpuPct - if x.sampleCount < 3 then 0.0 else x.baselinePct
  }

  /** A CPU alarm is raised exactly when a sample spikes whose key is not cooling down; it is about
      one of those that spike the most. */
  lemma CpuAlarmExactly(s: ValidSettings, samples: seq<Sample>, t: Table, now: nat)
    ensures var c, f := DetectorConfig(s), CpuFinding(DetectorConfig(s), samples, t, now);
            && (f.Some? <==> exists x :: x in samples && Free(s, x, t, now))
            && (f.Some? ==>
                 && f.value.sample in samples && Free(s, f.value.sample, t, now)
                 && (f.value.isNew <==> f.value.sample.sampleCount < 3)
                 && forall x :: x in samples && Free(s, x, t, now) ==> Height(x) <= Height(f.value.sample))
  {
    hide Pick, Cooling, CheckedKey, IsArgmax, Eligible, DetectorConfig;
    var c := DetectorConfig(s);
    var cooling := Cooling(t, now, c.cooldownNs);
    PickIsArgmax(c, samples, cooling);
    BestIsPicked(s, samples, cooling, Pick(c, samples, cooling));
    forall x | x in samples
      ensures Eligible(c, x, cooling) <==> Free(s, x, t, now)
    {
      FreeIsEligible(s, x, cooling);
    }
  }

  /** A sample that may be reported. */
  predicate Free(s: ValidSettings, x: Sample, t: Table, now: nat) {
    Spikes(s, x) && CheckedKey(DetectorConfig(s), x) !in Cooling(t, now, DetectorConfig(s).cooldownNs)
  }

  lemma FreeIsEligible(s: ValidSettings, x: Sample, cooling: set<int>)
    ensures Eligible(DetectorConfig(s), x, cooling) <==> Spikes(s, x) && CheckedKey(DetectorConfig(s), x) !in cooling
  {
    hide CheckedKey;
  }

  lemma BestIsPicked(s: ValidSettings, samples: seq<Sample>, cooling: set<int>, p: Option<nat>)
    requires IsArgmax(DetectorConfig(s), samples, cooling, p)
    ensures var c := DetectorConfig(s);
            && (p.Some? <==> exists x :: x in samples && Eligible(c, x, cooling))
            && (p.Some? ==>
                 && p.value < |samples| && samples[p.value] in samples && Eligible(c, samples[p.value], cooling)
                 && (IsNew(samples[p.value]) <==> samples[p.value].sampleCount < 3)
                 && forall x :: x in samples && Eligible(c, x, cooling) ==> Height(x) <= Height(samples[p.value]))
  {
    hide DetectorConfig, Eligible, Score;
    forall x | x in samples
      ensures Score(x) == Height(x)
    {
      ScoreIsHeight(x);
    }
  }

  lemma ScoreIsHeight(x: Sample)
    ensures Score(x) == Height(x)
  {
  }

  /** The key that is reported starts to cool down. */
  lemma ReportedKeyCools(c: Config, samples: seq<Sample>, m: MemSnapshot, now: nat, later: nat, v: State, w: State)
    requires Unique(v.table) && Step(c, samples, m, now, v, w) && CpuFinding(c, samples, v.table, now).Some?
    requires later - now < c.cooldownNs
    ensures CpuFinding(c, samples, v.table, now).value.key in Cooling(w.table, later, c.cooldownNs)
  {
    hide CpuFinding, MemAfter, SwapAfter, Record;
    var f := CpuFinding(c, samples, v.table, now);
    var u :| Purged(v.table, u, now, c.cooldownNs) && w.table == Record(u, f.value.key, now);
    RecordedEntries(u, f.value.key, now);
    assert Entry(f.value.key, now) in w.table;
  }
}
