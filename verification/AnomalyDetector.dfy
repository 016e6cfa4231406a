/** The anomaly detector: a scan for the worst CPU spike, two smoothed memory baselines. */
module AnomalyDetector {
  import opened Snapshots
  import opened Cooldown

  type fraction = x: real | 0.0 <= x <= 1.0

  datatype Config = Config(
    cpuDeltaPct: real, newProcessPct: real,
    memDropKib: nat, memPressurePct: real, swapSpikeKib: nat,
    cooldownNs: nat, alpha: fraction, scope: Scope, aggregate: bool)

  function ScopeKey(s: Sample, scope: Scope): i32 {
    match scope
    case ProcessGroup => s.pgid
    case Parent => s.ppid
    case System => 0
    case PerProcess => s.pid
  }

  // ----- which sample spikes -----

  predicate IsNew(s: Sample) {
    s.sampleCount <= 2
  }

  /** The key whose cooldown a sample is checked against. */
  function CheckedKey(c: Config, s: Sample): i32 {
    if IsNew(s) && c.aggregate then s.pgid else ScopeKey(s, c.scope)
  }

  function Score(s: Sample): real {
    if IsNew(s) then s.cpuPct else s.cpuPct - s.baselinePct
  }

  function Threshold(c: Config, s: Sample): real {
    if IsNew(s) then c.newProcessPct else c.cpuDeltaPct
  }

  /** A sample that may trigger while the keys in `cooling` are cooling down. */
  predicate Eligible(c: Config, s: Sample, cooling: set<int>) {
    s.valid && Score(s) >= Threshold(c, s) && Score(s) > 0.0 && CheckedKey(c, s) !in cooling
  }

  /** `pick` is the earliest of the eligible samples with the highest score. */
  ghost predicate IsArgmax(c: Config, samples: seq<Sample>, cooling: set<int>, pick: Option<nat>) {
    match pick
    case None => forall i :: 0 <= i < |samples| ==> !Eligible(c, samples[i], cooling)
    case Some(p) =>
      && p < |samples| && Eligible(c, samples[p], cooling)
      && (forall i :: 0 <= i < |samples| && Eligible(c, samples[i], cooling) ==> Score(samples[i]) <= Score(samples[p]))
      && (forall i :: 0 <= i < p && Eligible(c, samples[i], cooling) ==> Score(samples[i]) < Score(samples[p]))
  }

  /** The sample to report, chosen without looking at the table again during the scan. */
  function Pick(c: Config, samples: seq<Sample>, cooling: set<int>): (p: Option<nat>)
    ensures p.Some? ==> p.value < |samples|
  {
    if samples == [] then None
    else
      var last := |samples| - 1;
      var p := Pick(c, samples[..last], cooling);
      if Eligible(c, samples[last], cooling) && (p.None? || Score(samples[last]) > Score(samples[p.value]))
      then Some(last) else p
  }

  lemma {:induction false} PickIsArgmax(c: Config, samples: seq<Sample>, cooling: set<int>)
    ensures IsArgmax(c, samples, cooling, Pick(c, samples, cooling))
  {
    if samples != [] {
      var last := |samples| - 1;
      PickIsArgmax(c, samples[..last], cooling);
      assert forall i :: 0 <= i < last ==> samples[..last][i] == samples[i];
    }
  }

  lemma ArgmaxIsUnique(c: Config, samples: seq<Sample>, cooling: set<int>, p: Option<nat>, q: Option<nat>)
    requires IsArgmax(c, samples, cooling, p) && IsArgmax(c, samples, cooling, q)
    ensures p == q
  {
    if p.Some? && q.Some? {
      assert !(p.value < q.value) && !(q.value < p.value);
    }
  }

  // ----- baselines -----

  function Blend(alpha: fraction, x: real, b: real): real {
    alpha * x + (1.0 - alpha) * b
  }

  /** One smoothing step; the fraction is cut off. */
  function Ema(alpha: fraction, x: u64, b: u64): (r: u64)
    ensures x <= r <= b || b <= r <= x
  {
    BlendBetween(alpha, x, b);
    Blend(alpha, x as real, b as real).Floor
  }

  lemma BlendBetween(alpha: fraction, x: int, b: int)
    ensures var r := Blend(alpha, x as real, b as real).Floor;
            x <= r <= b || b <= r <= x
  {
    EmaBetween(alpha, x as real, b as real);
    hide Blend;
    FloorBetween(x, Blend(alpha, x as real, b as real), b);
    FloorBetween(b, Blend(alpha, x as real, b as real), x);
  }

  lemma EmaBetween(alpha: fraction, x: real, b: real)
    ensures var r := Blend(alpha, x, b);
            x <= r <= b || b <= r <= x
  {
    var d := x - b;
    var r := Blend(alpha, x, b);
    assert r == b + alpha * d;
    assert r == x - (1.0 - alpha) * d;
    hide Blend;
    if d >= 0.0 {
      ProductSign(alpha, d);
      ProductSign(1.0 - alpha, d);
    } else {
      ProductSign(alpha, -d);
      ProductSign(1.0 - alpha, -d);
      assert alpha * d == -(alpha * -d) && (1.0 - alpha) * d == -((1.0 - alpha) * -d);
    }
  }

  lemma FloorBetween(lo: int, r: real, hi: int)
    ensures lo as real <= r <= hi as real ==> lo <= r.Floor <= hi
  {
  }

  lemma ProductSign(x: real, y: real)
    requires x >= 0.0 && y >= 0.0
    ensures x * y >= 0.0
  {
  }

  /** A baseline follows its readings, the first of which it takes as it is. */
  datatype Baseline = Baseline(kib: u64, initialized: bool, lastTriggerNs: nat)

  function Follow(alpha: fraction, b: Baseline, x: u64): Baseline {
    b.(kib := if b.initialized then Ema(alpha, x, b.kib) else x, initialized := true)
  }

  /** The cooldown of a baseline's own alarm; time zero stands for never. */
  predicate CoolingDown(b: Baseline, now: nat, cd: nat) {
    b.lastTriggerNs > 0 && now > b.lastTriggerNs && now - b.lastTriggerNs < cd
  }

  function MemDelta(m: MemSnapshot, b: Baseline): int {
    AsI64(m.available) - AsI64(b.kib)
  }

  function UsedPct(m: MemSnapshot): real
    requires m.total > 0
  {
    100.0 * SubU64(m.total, m.available) as real / m.total as real
  }

  predicate IsDrop(c: Config, m: MemSnapshot, b: Baseline) {
    MemDelta(m, b) < 0 && -MemDelta(m, b) >= c.memDropKib
  }

  predicate IsPressure(c: Config, m: MemSnapshot) {
    m.total > 0 && UsedPct(m) >= c.memPressurePct
  }

  predicate MemFires(c: Config, m: MemSnapshot, b: Baseline, now: nat) {
    m.total > 0 && b.initialized && !CoolingDown(b, now, c.cooldownNs) && (IsDrop(c, m, b) || IsPressure(c, m))
  }

  function SwapUsed(m: MemSnapshot): u64 {
    SubU64(m.swapTotal, m.swapFree)
  }

  function SwapDelta(m: MemSnapshot, b: Baseline): int {
    AsI64(SwapUsed(m)) - AsI64(b.kib)
  }

  predicate SwapFires(c: Config, m: MemSnapshot, b: Baseline, now: nat) {
    && m.swapTotal > 0 && b.initialized && !CoolingDown(b, now, c.cooldownNs)
    && SwapDelta(m, b) > 0 && SwapDelta(m, b) >= c.swapSpikeKib
  }

  // ----- one evaluation -----

  datatype State = State(table: Table, mem: Baseline, swap: Baseline)

  const INITIAL := State([], Baseline(0, false, 0), Baseline(0, false, 0))

  datatype CpuTrigger = CpuTrigger(sample: Sample, isNew: bool, key: i32)

  datatype MemTrigger = MemTrigger(isDrop: bool, available: u64, baseline: u64, delta: int, usedPct: real)

  datatype SwapTrigger = SwapTrigger(used: u64, baseline: u64, delta: int)

  /** What one evaluation finds. Only the first of them is reported. */
  datatype Findings = Findings(cpu: Option<CpuTrigger>, mem: Option<MemTrigger>, swap: Option<SwapTrigger>)

  function CpuFinding(c: Config, samples: seq<Sample>, t: Table, now: nat): Option<CpuTrigger> {
    match Pick(c, samples, Cooling(t, now, c.cooldownNs))
    case None => None
    case Some(p) => Some(CpuTrigger(samples[p], IsNew(samples[p]), CheckedKey(c, samples[p])))
  }

  function MemFinding(c: Config, m: MemSnapshot, b: Baseline, now: nat): Option<MemTrigger> {
    if MemFires(c, m, b, now)
    then Some(MemTrigger(IsDrop(c, m, b), m.available, b.kib, MemDelta(m, b), UsedPct(m)))
    else None
  }

  function SwapFinding(c: Config, m: MemSnapshot, b: Baseline, now: nat): Option<SwapTrigger> {
    if SwapFires(c, m, b, now) then Some(SwapTrigger(SwapUsed(m), b.kib, SwapDelta(m, b))) else None
  }

  function MemAfter(c: Config, m: MemSnapshot, b: Baseline, now: nat): Baseline {
    if m.total == 0 then b
    else Follow(c.alpha, b, m.available).(lastTriggerNs := if MemFires(c, m, b, now) then now else b.lastTriggerNs)
  }

  function SwapAfter(c: Config, m: MemSnapshot, b: Baseline, now: nat): Baseline {
    if m.swapTotal == 0 then b
    else Follow(c.alpha, b, SwapUsed(m)).(lastTriggerNs := if SwapFires(c, m, b, now) then now else b.lastTriggerNs)
  }

  function FindingsOf(c: Config, samples: seq<Sample>, m: MemSnapshot, now: nat, s: State): Findings {
    Findings(CpuFinding(c, samples, s.table, now), MemFinding(c, m, s.mem, now), SwapFinding(c, m, s.swap, now))
  }

  /** The table after an evaluation: some expired entries dropped, then the new trigger recorded. */
  ghost predicate TableStep(c: Config, samples: seq<Sample>, now: nat, t: Table, r: Table) {
    var f := CpuFinding(c, samples, t, now);
    exists u ::
      && Purged(t, u, now, c.cooldownNs)
      && r == if f.None? then u else Record(u, f.value.key, now)
  }

  ghost predicate Step(c: Config, samples: seq<Sample>, m: MemSnapshot, now: nat, s: State, r: State) {
    && TableStep(c, samples, now, s.table, r.table)
    && r.mem == MemAfter(c, m, s.mem, now)
    && r.swap == SwapAfter(c, m, s.swap, now)
  }

  // ----- attribution and priority -----

  /** `top` is the earliest valid sample with the most memory, if any uses memory at all. */
  ghost predicate IsTopRss(samples: seq<Sample>, top: Option<Sample>) {
    match top
    case None => forall s :: s in samples && s.valid ==> s.rssKib == 0
    case Some(t) =>
      exists p :: 0 <= p < |samples| && samples[p] == t && t.valid && t.rssKib > 0
        && (forall i :: 0 <= i < |samples| && samples[i].valid ==> samples[i].rssKib <= t.rssKib)
        && (forall i :: 0 <= i < p && samples[i].valid ==> samples[i].rssKib < t.rssKib)
  }

  method TopRss(samples: seq<Sample>) returns (top: Option<Sample>)
    ensures IsTopRss(samples, top)
  {
    top := None;
    var maxRss := 0;
    ghost var p := 0;
    for i := 0 to |samples|
      invariant top.None? ==> maxRss == 0
      invariant top.Some? ==> p < i && samples[p] == top.value && top.value.valid && top.value.rssKib == maxRss > 0
      invariant forall j :: 0 <= j < i && samples[j].valid ==> samples[j].rssKib <= maxRss
      invariant top.Some? ==> forall j :: 0 <= j < p && samples[j].valid ==> samples[j].rssKib < maxRss
    {
      var s := samples[i];
      if s.valid && s.rssKib > maxRss {
        maxRss, top := s.rssKib, Some(s);
        p := i;
      }
    }
  }

  /** The one finding that is reported: CPU before memory before swap, the latter two with the
      process that is blamed for them. */
  datatype Report =
    | Nothing
    | CpuReport(cpu: CpuTrigger)
    | MemReport(mem: MemTrigger, blamed: Option<Sample>)
    | SwapReport(swap: SwapTrigger, blamed: Option<Sample>)

  ghost predicate Reports(f: Findings, samples: seq<Sample>, r: Report) {
    match r
    case Nothing => f.cpu.None? && f.mem.None? && f.swap.None?
    case CpuReport(t) => f.cpu == Some(t)
    case MemReport(t, blamed) => f.cpu.None? && f.mem == Some(t) && IsTopRss(samples, blamed)
    case SwapReport(t, blamed) => f.cpu.None? && f.mem.None? && f.swap == Some(t) && IsTopRss(samples, blamed)
  }

  // ----- the record of a report -----

  const NO_ANOMALY := Anomaly(NoAnomaly, 0, "", 0.0, 0.0, 0.0, false, 0, 0, 0, 0.0, 0, 0, 0, PerProcess, 0, 0)

  function KindOf(r: Report): AnomalyType {
    match r
    case Nothing => NoAnomaly
    case CpuReport(t) => if t.isNew then CpuNewProc else CpuDelta
    case MemReport(t, _) => if t.isDrop then MemDrop else MemPressure
    case SwapReport(_, _) => SwapSpike
  }

  /** The numbers of a report fit the fields of the record. */
  predicate Recordable(r: Report) {
    match r
    case Nothing => true
    case CpuReport(t) =>
      IsMeasure(t.sample.cpuPct) && IsMeasure(t.sample.baselinePct) && IsMeasure(t.sample.cpuPct - t.sample.baselinePct)
    case MemReport(t, _) => -TWO_63 <= t.delta < TWO_63 && IsMeasure(t.usedPct)
    case SwapReport(t, _) => -TWO_63 <= t.delta < TWO_63
  }

  predicate IsMeasure(x: real) {
    -9007199254740992.0 <= x <= 9007199254740992.0
  }

  /** Shares up to 2^52, readings below 2^63 KiB, and no more available than there is make
      recordable reports. */
  lemma FindingsAreRecordable(c: Config, samples: seq<Sample>, m: MemSnapshot, now: nat, s: State, r: Report)
    requires Reports(FindingsOf(c, samples, m, now, s), samples, r)
    requires m.available <= m.total < TWO_63 && m.swapFree <= m.swapTotal < TWO_63
    requires s.mem.kib < TWO_63 && s.swap.kib < TWO_63
    requires forall x :: x in samples ==> 0.0 <= x.cpuPct <= 4503599627370496.0 && 0.0 <= x.baselinePct <= 4503599627370496.0
    ensures Recordable(r)
  {
    hide IsTopRss, Pick, Cooling;
    if m.total > 0 {
      UsedPctInRange(m);
    }
    hide UsedPct;
  }

  lemma UsedPctInRange(m: MemSnapshot)
    requires 0 < m.total && m.available <= m.total
    ensures 0.0 <= UsedPct(m) <= 100.0
  {
    var used: int := m.total - m.available;
    assert used as real <= m.total as real;
    Ratio(used as real, m.total as real);
  }

  lemma Ratio(a: real, t: real)
    requires 0.0 <= a <= t && t > 0.0
    ensures 0.0 <= 100.0 * a / t <= 100.0
  {
    var r := 100.0 * a / t;
    assert r * t == 100.0 * a;
    NonNegative(r, t);
    assert (100.0 - r) * t == 100.0 * t - r * t;
    NonNegative(100.0 - r, t);
  }

  lemma NonNegative(x: real, y: real)
    requires x * y >= 0.0 && y > 0.0
    ensures x >= 0.0
  {
  }

  /** The process a memory or swap report blames, with the scope's key, if there is one. */
  function Blaming(a: Anomaly, scope: Scope, blamed: Option<Sample>): Anomaly {
    match blamed
    case None => a
    case Some(s) => a.(spikePid := s.pid, spikeComm := s.comm, scope := scope, scopeKey := ScopeKey(s, scope))
  }

  /** The record the detector fills in for a report; what does not belong to it stays zero. */
  function AnomalyOf(scope: Scope, r: Report): Anomaly
    requires Recordable(r)
  {
    var a := NO_ANOMALY.(kind := KindOf(r));
    match r
    case Nothing => a
    case CpuReport(t) =>
      var s := t.sample;
      a.(spikePid := s.pid, spikeComm := s.comm, spikeCpuPct := s.cpuPct, spikeBaselinePct := s.baselinePct,
         spikeDelta := s.cpuPct - s.baselinePct, isNewProcess := t.isNew, scope := scope, scopeKey := t.key)
    case MemReport(t, blamed) =>
      Blaming(a.(memAvailableKib := t.available, memBaselineKib := t.baseline, memDeltaKib := t.delta,
                 memUsedPct := t.usedPct), scope, blamed)
    case SwapReport(t, blamed) =>
      Blaming(a.(swapUsedKib := t.used, swapBaselineKib := t.baseline, swapDeltaKib := t.delta), scope, blamed)
  }

  // ----- the detector as it runs -----

  class Detector {
    const cooldowns: array<Entry>
    var cooldownCount: nat
    var mem: Baseline
    var swap: Baseline

    ghost predicate Valid()
      reads this, cooldowns
    {
      && cooldowns.Length == TABLE_SIZE && cooldownCount <= TABLE_SIZE
      && Unique(cooldowns[..cooldownCount])
    }

    ghost function Contents(): Table
      reads this, cooldowns
      requires Valid()
    {
      cooldowns[..cooldownCount]
    }

    constructor ()
      ensures Valid() && fresh(cooldowns)
      ensures State(Contents(), mem, swap) == INITIAL
    {
      cooldowns := new Entry[TABLE_SIZE](_ => Entry(0, 0));
      cooldownCount := 0;
      mem, swap := Baseline(0, false, 0), Baseline(0, false, 0);
    }

    /** Back to the initial state, as on a reload of the configuration. */
    method Reset()
      requires Valid()
      modifies this, cooldowns
      ensures Valid() && State(Contents(), mem, swap) == INITIAL
    {
      forall i | 0 <= i < TABLE_SIZE {
        cooldowns[i] := Entry(0, 0);
      }
      cooldownCount := 0;
      mem, swap := Baseline(0, false, 0), Baseline(0, false, 0);
    }

    method CooldownFind(key: int) returns (i: nat)
      requires Valid()
      ensures i == Find(Contents(), key)
    {
      i := 0;
      while i < cooldownCount
        invariant i <= cooldownCount
        invariant Find(Contents(), key) == i + Find(Contents()[i..], key)
      {
        assert Contents()[i..][0] == cooldowns[i];
        if cooldowns[i].key == key {
          return;
        }
        assert Contents()[i..][1..] == Contents()[i + 1..];
        i := i + 1;
      }
    }

    method CooldownIsActive(key: int, now: nat, cd: nat) returns (active: bool)
      requires Valid()
      modifies `cooldownCount, cooldowns
      ensures Valid() && (active, Contents()) == Query(old(Contents()), key, now, cd)
      ensures active <==> key in Cooling(old(Contents()), now, cd)
      ensures Purged(old(Contents()), Contents(), now, cd)
    {
      ghost var t := Contents();
      QueryAnswers(t, key, now, cd);
      var i := CooldownFind(key);
      if i == cooldownCount {
        return false;
      }
      if now <= cooldowns[i].ts || now - cooldowns[i].ts < cd {
        return true;
      }
      if cooldownCount > 1 {
        cooldowns[i] := cooldowns[cooldownCount - 1];
      }
      cooldownCount := cooldownCount - 1;
      assert Contents() == RemoveAt(t, i);
      return false;
    }

    method OldestSlot() returns (oldest: nat)
      requires Valid() && cooldownCount > 0
      ensures oldest == Oldest(Contents()) && oldest < cooldownCount
    {
      ghost var t := Contents();
      oldest := 0;
      var j := 1;
      assert t[..1][..0] == [];
      while j < cooldownCount
        invariant 1 <= j <= cooldownCount
        invariant oldest == Oldest(t[..j]) && oldest < j
      {
        assert t[..j + 1][..j] == t[..j];
        if cooldowns[j].ts < cooldowns[oldest].ts {
          oldest := j;
        }
        j := j + 1;
      }
      assert t[..j] == t;
    }

    method CooldownRecord(key: int, now: nat)
      requires Valid()
      modifies `cooldownCount, cooldowns
      ensures Valid() && Contents() == Record(old(Contents()), key, now)
    {
      ghost var t := Contents();
      RecordedEntries(t, key, now);
      var i := CooldownFind(key);
      if i < cooldownCount {
        cooldowns[i] := Entry(key, now);
        assert Contents() == t[i := Entry(key, now)];
        return;
      }
      if cooldownCount >= TABLE_SIZE {
        var oldest := OldestSlot();
        cooldowns[oldest] := Entry(key, now);
        assert Contents() == t[oldest := Entry(key, now)];
        return;
      }
      cooldowns[cooldownCount] := Entry(key, now);
      cooldownCount := cooldownCount + 1;
      assert Contents() == t + [Entry(key, now)];
    }

    /** Scans the samples for the worst spike and records the cooldown of what it reports. The
        scan drops expired entries as it goes, and still reports the earliest sample of maximal
        score among those whose key was not cooling down when it began. */
    method EvaluateCpu(c: Config, samples: seq<Sample>, now: nat) returns (r: Option<CpuTrigger>)
      requires Valid()
      modifies `cooldownCount, cooldowns
      ensures Valid()
      ensures r == CpuFinding(c, samples, old(Contents()), now)
      ensures TableStep(c, samples, now, old(Contents()), Contents())
    {
      ghost var t0 := Contents();
      ghost var cooling := Cooling(t0, now, c.cooldownNs);
      var maxSpike, worst, isNew := 0.0, None, false;
      var i := 0;
      assert samples[..0] == [];
      while i < |samples|
        invariant i <= |samples|
        invariant Valid() && Purged(t0, Contents(), now, c.cooldownNs)
        invariant worst == Pick(c, samples[..i], cooling)
        invariant worst.None? ==> maxSpike == 0.0
        invariant worst.Some? ==> worst.value < i && maxSpike == Score(samples[worst.value]) > 0.0
        invariant worst.Some? ==> isNew == IsNew(samples[worst.value])
      {
        var s := samples[i];
        assert samples[..i + 1][..i] == samples[..i];
        i := i + 1;
        if !s.valid {
          continue;
        }
        if s.sampleCount <= 2 && s.cpuPct >= c.newProcessPct {
          ghost var t := Contents();
          PurgedKeepsCooling(t0, t, now, c.cooldownNs);
          var key := if c.aggregate then s.pgid else ScopeKey(s, c.scope);
          var active := CooldownIsActive(key, now, c.cooldownNs);
          PurgedTwice(t0, t, Contents(), now, c.cooldownNs);
          if active {
            continue;
          }
          if s.cpuPct > maxSpike {
            maxSpike, worst, isNew := s.cpuPct, Some(i - 1), true;
          }
        }
        if s.sampleCount > 2 {
          ghost var t := Contents();
          PurgedKeepsCooling(t0, t, now, c.cooldownNs);
          var active := CooldownIsActive(ScopeKey(s, c.scope), now, c.cooldownNs);
          PurgedTwice(t0, t, Contents(), now, c.cooldownNs);
          if active {
            continue;
          }
          var delta := s.cpuPct - s.baselinePct;
          if delta >= c.cpuDeltaPct && delta > maxSpike {
            maxSpike, worst, isNew := delta, Some(i - 1), false;
          }
        }
      }
      assert samples[..i] == samples;
      if worst.None? {
        return None;
      }
      var s := samples[worst.value];
      var key := if isNew && c.aggregate then s.pgid else ScopeKey(s, c.scope);
      CooldownRecord(key, now);
      return Some(CpuTrigger(s, isNew, key));
    }

    method EvaluateMem(c: Config, m: MemSnapshot, now: nat) returns (r: Option<MemTrigger>)
      modifies `mem
      ensures r == MemFinding(c, m, old(mem), now)
      ensures mem == MemAfter(c, m, old(mem), now)
    {
      if m.total == 0 {
        return None;
      }
      var usedPct := 100.0 * SubU64(m.total, m.available) as real / m.total as real;
      if !mem.initialized {
        mem := mem.(kib := m.available, initialized := true);
        return None;
      }
      var baseline := mem.kib;
      if mem.lastTriggerNs > 0 && now > mem.lastTriggerNs {
        if now - mem.lastTriggerNs < c.cooldownNs {
          mem := mem.(kib := Ema(c.alpha, m.available, baseline));
          return None;
        }
      }
      var delta := AsI64(m.available) - AsI64(baseline);
      var isDrop := delta < 0 && -delta >= c.memDropKib;
      var isPressure := usedPct >= c.memPressurePct;
      r := None;
      if isDrop || isPressure {
        r := Some(MemTrigger(isDrop, m.available, baseline, delta, usedPct));
        mem := mem.(lastTriggerNs := now);
      }
      mem := mem.(kib := Ema(c.alpha, m.available, baseline));
    }

    method EvaluateSwap(c: Config, m: MemSnapshot, now: nat) returns (r: Option<SwapTrigger>)
      modifies `swap
      ensures r == SwapFinding(c, m, old(swap), now)
      ensures swap == SwapAfter(c, m, old(swap), now)
    {
      if m.swapTotal == 0 {
        return None;
      }
      var used := SubU64(m.swapTotal, m.swapFree);
      if !swap.initialized {
        swap := swap.(kib := used, initialized := true);
        return None;
      }
      var baseline := swap.kib;
      if swap.lastTriggerNs > 0 && now > swap.lastTriggerNs {
        if now - swap.lastTriggerNs < c.cooldownNs {
          swap := swap.(kib := Ema(c.alpha, used, baseline));
          return None;
        }
      }
      var delta := AsI64(used) - AsI64(baseline);
      r := None;
      if delta > 0 && delta >= c.swapSpikeKib {
        r := Some(SwapTrigger(used, baseline, delta));
        swap := swap.(lastTriggerNs := now);
      }
      swap := swap.(kib := Ema(c.alpha, used, baseline));
    }

    /** One evaluation: all three detectors run, so that both baselines always follow. */
    method Evaluate(c: Config, samples: seq<Sample>, m: MemSnapshot, now: nat) returns (r: Report)
      requires Valid()
      modifies this, cooldowns
      ensures Valid()
      ensures Step(c, samples, m, now, old(State(Contents(), mem, swap)), State(Contents(), mem, swap))
      ensures Reports(FindingsOf(c, samples, m, now, old(State(Contents(), mem, swap))), samples, r)
    {
      var cpu := EvaluateCpu(c, samples, now);
      var memory := EvaluateMem(c, m, now);
      var swapping := EvaluateSwap(c, m, now);
      var top := TopRss(samples);
      if cpu.Some? {
        return CpuReport(cpu.value);
      }
      if memory.Some? {
        return MemReport(memory.value, top);
      }
      if swapping.Some? {
        return SwapReport(swapping.value, top);
      }
      return Nothing;
    }
  }
}
