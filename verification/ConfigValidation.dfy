/** Validation of the configuration, and what the detector may rely on after it. */
module ConfigValidation {
  import opened Snapshots
  import opened AnomalyDetector

  /** Detection thresholds and the cooldown. */
  datatype Thresholds = Thresholds(
    cpuDeltaPct: real, newProcessPct: real, memDropKib: u64, memPressurePct: real, swapSpikeKib: u64,
    cooldownSeconds: real)

  /** Sampling, process collection and the toggles. */
  datatype Collection = Collection(
    samplingSeconds: real, ringCapacity: u32, contextSnapshots: u32, maxTracked: u32, topStored: u32,
    cpuDetection: bool, memDetection: bool, swapDetection: bool)

  /** Smoothing factors and log management. */
  datatype Tuning = Tuning(
    memAlpha: real, procAlpha: real,
    maxAgeDays: u32, maxCount: u32, maxTotalMib: u32, cleanupMinutes: u32)

  datatype Settings = Settings(
    thresholds: Thresholds, collection: Collection, tuning: Tuning, scope: Scope, aggregate: bool)

  predicate Within(x: real, lo: real, hi: real) {
    lo <= x <= hi
  }

  predicate WithinInt(n: int, lo: int, hi: int) {
    lo <= n <= hi
  }

  /** A setting out of its bounds is replaced by its default, not by the nearest bound. */
  function OrDefault(x: real, lo: real, hi: real, fallback: real): real {
    if Within(x, lo, hi) then x else fallback
  }

  function OrDefaultInt(n: int, lo: int, hi: int, fallback: int): int {
    if WithinInt(n, lo, hi) then n else fallback
  }

  predicate ValidThresholds(t: Thresholds) {
    && Within(t.cpuDeltaPct, 0.1, 100.0) && Within(t.newProcessPct, 0.1, 100.0)
    && WithinInt(t.memDropKib, 1024, 1073741824) && Within(t.memPressurePct, 50.0, 100.0)
    && WithinInt(t.swapSpikeKib, 1024, 1073741824) && Within(t.cooldownSeconds, 0.1, 300.0)
  }

  predicate ValidCollection(c: Collection) {
    && Within(c.samplingSeconds, 0.1, 10.0)
    && WithinInt(c.ringCapacity, 10, 600) && WithinInt(c.contextSnapshots, 1, 60)
    && c.contextSnapshots <= c.ringCapacity
    && WithinInt(c.maxTracked, 10, 1024) && WithinInt(c.topStored, 1, 50)
    && c.topStored <= c.maxTracked
    && (c.cpuDetection || c.memDetection || c.swapDetection)
  }

  predicate ValidTuning(t: Tuning) {
    && Within(t.memAlpha, 0.01, 0.9) && Within(t.procAlpha, 0.01, 0.9)
    && WithinInt(t.maxAgeDays, 1, 365) && WithinInt(t.maxCount, 1, 10000)
    && WithinInt(t.maxTotalMib, 1, 102400) && WithinInt(t.cleanupMinutes, 1, 1440)
  }

  /** Everything validation promises: bounds, the two cross-checks, one detector enabled. */
  predicate Valid(s: Settings) {
    ValidThresholds(s.thresholds) && ValidCollection(s.collection) && ValidTuning(s.tuning)
  }

  function ValidatedThresholds(t: Thresholds): Thresholds {
    Thresholds(
      OrDefault(t.cpuDeltaPct, 0.1, 100.0, 10.0), OrDefault(t.newProcessPct, 0.1, 100.0, 5.0),
      OrDefaultInt(t.memDropKib, 1024, 1073741824, 524288), OrDefault(t.memPressurePct, 50.0, 100.0, 90.0),
      OrDefaultInt(t.swapSpikeKib, 1024, 1073741824, 262144),
      OrDefault(t.cooldownSeconds, 0.1, 300.0, 5.0))
  }

  function ValidatedCollection(c: Collection): Collection {
    var ring := OrDefaultInt(c.ringCapacity, 10, 600, 60);
    var context := OrDefaultInt(c.contextSnapshots, 1, 60, 10);
    var tracked := OrDefaultInt(c.maxTracked, 10, 1024, 512);
    var top := OrDefaultInt(c.topStored, 1, 50, 10);
    var none := !c.cpuDetection && !c.memDetection && !c.swapDetection;
    Collection(
      OrDefault(c.samplingSeconds, 0.1, 10.0, 1.0),
      ring, if context > ring then ring else context,
      tracked, if top > tracked then tracked else top,
      c.cpuDetection || none, c.memDetection || none, c.swapDetection || none)
  }

  function ValidatedTuning(t: Tuning): Tuning {
    Tuning(
      OrDefault(t.memAlpha, 0.01, 0.9, 0.2), OrDefault(t.procAlpha, 0.01, 0.9, 0.3),
      OrDefaultInt(t.maxAgeDays, 1, 365, 30), OrDefaultInt(t.maxCount, 1, 10000, 100),
      OrDefaultInt(t.maxTotalMib, 1, 102400, 512), OrDefaultInt(t.cleanupMinutes, 1, 1440, 60))
  }

  /** The settings a validation leaves, valid whatever they were. */
  function Validated(s: Settings): (r: Settings)
    ensures Valid(r)
  {
    s.(thresholds := ValidatedThresholds(s.thresholds),
       collection := ValidatedCollection(s.collection),
       tuning := ValidatedTuning(s.tuning))
  }

  const DEFAULTS: Settings := Settings(
    Thresholds(10.0, 5.0, 524288, 90.0, 262144, 5.0),
    Collection(1.0, 60, 10, 512, 10, true, true, true),
    Tuning(0.2, 0.3, 30, 100, 512, 60),
    PerProcess, false)

  type ValidSettings = s: Settings | Valid(s) witness DEFAULTS

  /** Validation changes nothing exactly when the settings were valid before; so a second one changes nothing. */
  lemma ValidatedFixesValid(s: Settings)
    ensures Validated(s) == s <==> Valid(s)
    ensures Validated(Validated(s)) == Validated(s)
  {
    ValidSettingsStay(Validated(s));
    if Valid(s) {
      ValidSettingsStay(s);
    }
  }

  lemma ValidSettingsStay(s: Settings)
    requires Valid(s)
    ensures Validated(s) == s
  {
  }

  /** A value within its bounds stays, and one outside of them becomes the default. */
  predicate Repaired(x: real, r: real, lo: real, hi: real, fallback: real) {
    && (lo <= x <= hi ==> r == x)
    && (x < lo || hi < x ==> r == fallback)
  }

  predicate RepairedInt(n: int, r: int, lo: int, hi: int, fallback: int) {
    Repaired(n as real, r as real, lo as real, hi as real, fallback as real)
  }

  /** So, field by field, whatever the others are. */
  lemma EachRepaired(s: Settings)
    ensures var t, r, d := s.thresholds, Validated(s).thresholds, DEFAULTS.thresholds;
            && Repaired(t.cpuDeltaPct, r.cpuDeltaPct, 0.1, 100.0, d.cpuDeltaPct)
            && Repaired(t.newProcessPct, r.newProcessPct, 0.1, 100.0, d.newProcessPct)
            && RepairedInt(t.memDropKib, r.memDropKib, 1024, 1048576 * 1024, d.memDropKib)
            && Repaired(t.memPressurePct, r.memPressurePct, 50.0, 100.0, d.memPressurePct)
            && RepairedInt(t.swapSpikeKib, r.swapSpikeKib, 1024, 1048576 * 1024, d.swapSpikeKib)
            && Repaired(t.cooldownSeconds, r.cooldownSeconds, 0.1, 300.0, d.cooldownSeconds)
    ensures var c, r, d := s.collection, Validated(s).collection, DEFAULTS.collection;
            && Repaired(c.samplingSeconds, r.samplingSeconds, 0.1, 10.0, d.samplingSeconds)
            && RepairedInt(c.ringCapacity, r.ringCapacity, 10, 600, d.ringCapacity)
            && RepairedInt(c.maxTracked, r.maxTracked, 10, 1024, d.maxTracked)
    ensures var t, r, d := s.tuning, Validated(s).tuning, DEFAULTS.tuning;
            && Repaired(t.memAlpha, r.memAlpha, 0.01, 0.9, d.memAlpha)
            && Repaired(t.procAlpha, r.procAlpha, 0.01, 0.9, d.procAlpha)
            && RepairedInt(t.maxAgeDays, r.maxAgeDays, 1, 365, d.maxAgeDays)
            && RepairedInt(t.maxCount, r.maxCount, 1, 10000, d.maxCount)
            && RepairedInt(t.maxTotalMib, r.maxTotalMib, 1, 102400, d.maxTotalMib)
            && RepairedInt(t.cleanupMinutes, r.cleanupMinutes, 1, 1440, d.cleanupMinutes)
    ensures Validated(s).scope == s.scope && Validated(s).aggregate == s.aggregate
  {
  }

  /** The exceptions: a context is cut down to the capacity that is left, a number of stored
      processes to the number tracked, and all detection is turned on if none was. */
  lemma CrossChecked(s: Settings)
    ensures var c, r, d := s.collection, Validated(s).collection, DEFAULTS.collection;
            && (1 <= c.contextSnapshots <= 60 && c.contextSnapshots > r.ringCapacity ==> r.contextSnapshots == r.ringCapacity)
            && (c.contextSnapshots <= r.ringCapacity || c.contextSnapshots > 60 ==>
                  RepairedInt(c.contextSnapshots, r.contextSnapshots, 1, 60, d.contextSnapshots))
            && (1 <= c.topStored <= 50 && c.topStored > r.maxTracked ==> r.topStored == r.maxTracked)
            && (c.topStored <= r.maxTracked || c.topStored > 50 ==>
                  RepairedInt(c.topStored, r.topStored, 1, 50, d.topStored))
            && (if c.cpuDetection || c.memDetection || c.swapDetection
                then r.cpuDetection == c.cpuDetection && r.memDetection == c.memDetection && r.swapDetection == c.swapDetection
                else r.cpuDetection && r.memDetection && r.swapDetection)
  {
  }

  class ConfigStore {
    var cpuDeltaPct: real
    var newProcessPct: real
    var memDropKib: u64
    var memPressurePct: real
    var swapSpikeKib: u64
    var cooldownSeconds: real
    var samplingSeconds: real
    var ringCapacity: u32
    var contextSnapshots: u32
    var maxTracked: u32
    var topStored: u32
    var cpuDetection: bool
    var memDetection: bool
    var swapDetection: bool
    var memAlpha: real
    var procAlpha: real
    var maxAgeDays: u32
    var maxCount: u32
    var maxTotalMib: u32
    var cleanupMinutes: u32
    var scope: Scope
    var aggregate: bool

    function ThresholdsView(): Thresholds
      reads this
    {
      Thresholds(cpuDeltaPct, newProcessPct, memDropKib, memPressurePct, swapSpikeKib, cooldownSeconds)
    }

    function CollectionView(): Collection
      reads this
    {
      Collection(samplingSeconds, ringCapacity, contextSnapshots, maxTracked, topStored,
        cpuDetection, memDetection, swapDetection)
    }

    function TuningView(): Tuning
      reads this
    {
      Tuning(memAlpha, procAlpha, maxAgeDays, maxCount, maxTotalMib, cleanupMinutes)
    }

    function View(): Settings
      reads this
    {
      Settings(ThresholdsView(), CollectionView(), TuningView(), scope, aggregate)
    }

    constructor (s: Settings)
      ensures View() == s
    {
      var t, c, u := s.thresholds, s.collection, s.tuning;
      cpuDeltaPct, newProcessPct, memDropKib := t.cpuDeltaPct, t.newProcessPct, t.memDropKib;
      memPressurePct, swapSpikeKib, cooldownSeconds := t.memPressurePct, t.swapSpikeKib, t.cooldownSeconds;
      samplingSeconds, ringCapacity, contextSnapshots := c.samplingSeconds, c.ringCapacity, c.contextSnapshots;
      maxTracked, topStored := c.maxTracked, c.topStored;
      cpuDetection, memDetection, swapDetection := c.cpuDetection, c.memDetection, c.swapDetection;
      memAlpha, procAlpha, maxAgeDays := u.memAlpha, u.procAlpha, u.maxAgeDays;
      maxCount, maxTotalMib, cleanupMinutes := u.maxCount, u.maxTotalMib, u.cleanupMinutes;
      scope, aggregate := s.scope, s.aggregate;
    }

    /** Overwrites one setting after the other; the cross-checks read what was fixed before. */
    method Validate()
      modifies this
      ensures View() == Validated(old(View())) && Valid(View())
    {
      hide Valid, OrDefault, OrDefaultInt;
      ghost var s := View();
      ValidateThresholds();
      assert CollectionView() == s.collection && TuningView() == s.tuning;
      ValidateCollection();
      assert ThresholdsView() == ValidatedThresholds(s.thresholds) && TuningView() == s.tuning;
      ValidateTuning();
      assert CollectionView() == ValidatedCollection(s.collection);
      assert ThresholdsView() == ValidatedThresholds(s.thresholds);
    }

    /** Sampling, processes and the toggles, one of which has to be on. */
    method ValidateCollection()
      modifies `samplingSeconds, `ringCapacity, `contextSnapshots, `maxTracked, `topStored,
        `cpuDetection, `memDetection, `swapDetection
      ensures CollectionView() == ValidatedCollection(old(CollectionView()))
    {
      hide OrDefault, OrDefaultInt;
      ValidateSampling();
      ValidateProcesses();
      if !cpuDetection && !memDetection && !swapDetection {
        cpuDetection := true;
        memDetection := true;
        swapDetection := true;
      }
    }

    /** Detection thresholds and the cooldown. */
    method ValidateThresholds()
      modifies `cpuDeltaPct, `newProcessPct, `memDropKib, `memPressurePct, `swapSpikeKib,
        `cooldownSeconds
      ensures ThresholdsView() == ValidatedThresholds(old(ThresholdsView()))
    {
      ValidatePercentages();
      if memDropKib < 1 * 1024 || memDropKib > 1024 * 1024 * 1024 {
        memDropKib := 512 * 1024;
      }
      if swapSpikeKib < 1 * 1024 || swapSpikeKib > 1024 * 1024 * 1024 {
        swapSpikeKib := 256 * 1024;
      }
      if cooldownSeconds < 0.1 || cooldownSeconds > 300.0 {
        cooldownSeconds := 5.0;
      }
    }

    method ValidatePercentages()
      modifies `cpuDeltaPct, `newProcessPct, `memPressurePct
      ensures cpuDeltaPct == OrDefault(old(cpuDeltaPct), 0.1, 100.0, 10.0)
      ensures newProcessPct == OrDefault(old(newProcessPct), 0.1, 100.0, 5.0)
      ensures memPressurePct == OrDefault(old(memPressurePct), 50.0, 100.0, 90.0)
    {
      if cpuDeltaPct < 0.1 || cpuDeltaPct > 100.0 {
        cpuDeltaPct := 10.0;
      }
      if newProcessPct < 0.1 || newProcessPct > 100.0 {
        newProcessPct := 5.0;
      }
      if memPressurePct < 50.0 || memPressurePct > 100.0 {
        memPressurePct := 90.0;
      }
    }

    /** Sampling; a context no larger than the ring. */
    method ValidateSampling()
      modifies `samplingSeconds, `ringCapacity, `contextSnapshots
      ensures samplingSeconds == OrDefault(old(samplingSeconds), 0.1, 10.0, 1.0)
      ensures ringCapacity == OrDefaultInt(old(ringCapacity), 10, 600, 60)
      ensures contextSnapshots == var n := OrDefaultInt(old(contextSnapshots), 1, 60, 10); if n > ringCapacity then ringCapacity else n
    {
      if samplingSeconds < 0.1 || samplingSeconds > 10.0 {
        samplingSeconds := 1.0;
      }
      if ringCapacity < 10 || ringCapacity > 600 {
        ringCapacity := 60;
      }
      if contextSnapshots < 1 || contextSnapshots > 60 {
        contextSnapshots := 10;
      }
      if contextSnapshots > ringCapacity {
        contextSnapshots := ringCapacity;
      }
    }

    /** Process collection; no more stored than tracked. */
    method ValidateProcesses()
      modifies `maxTracked, `topStored
      ensures maxTracked == OrDefaultInt(old(maxTracked), 10, 1024, 512)
      ensures topStored == var n := OrDefaultInt(old(topStored), 1, 50, 10); if n > maxTracked then maxTracked else n
    {
      if maxTracked < 10 || maxTracked > 1024 {
        maxTracked := 512;
      }
      if topStored < 1 || topStored > 50 {
        topStored := 10;
      }
      if topStored > maxTracked {
        topStored := maxTracked;
      }
    }

    /** Smoothing factors and log management. */
    method ValidateTuning()
      modifies `memAlpha, `procAlpha, `maxAgeDays, `maxCount, `maxTotalMib, `cleanupMinutes
      ensures TuningView() == ValidatedTuning(old(TuningView()))
    {
      if memAlpha < 0.01 || memAlpha > 0.9 {
        memAlpha := 0.2;
      }
      if procAlpha < 0.01 || procAlpha > 0.9 {
        procAlpha := 0.3;
      }
      ValidateLogs();
    }

    method ValidateLogs()
      modifies `maxAgeDays, `maxCount, `maxTotalMib, `cleanupMinutes
      ensures maxAgeDays == OrDefaultInt(old(maxAgeDays), 1, 365, 30)
      ensures maxCount == OrDefaultInt(old(maxCount), 1, 10000, 100)
      ensures maxTotalMib == OrDefaultInt(old(maxTotalMib), 1, 102400, 512)
      ensures cleanupMinutes == OrDefaultInt(old(cleanupMinutes), 1, 1440, 60)
    {
      if maxAgeDays < 1 || maxAgeDays > 365 {
        maxAgeDays := 30;
      }
      if maxCount < 1 || maxCount > 10000 {
        maxCount := 100;
      }
      if maxTotalMib < 1 || maxTotalMib > 100 * 1024 {
        maxTotalMib := 512;
      }
      if cleanupMinutes < 1 || cleanupMinutes > 24 * 60 {
        cleanupMinutes := 60;
      }
    }
  }

  /** The detector's part of valid settings, times in nanoseconds. */
  function DetectorConfig(s: Settings): (c: AnomalyDetector.Config)
    requires Valid(s)
    ensures c.alpha >= 0.01 && c.memDropKib >= 1024 && c.swapSpikeKib >= 1024
    ensures 100_000_000 <= c.cooldownNs <= 300_000_000_000
  {
    var t := s.thresholds;
    AnomalyDetector.Config(
      t.cpuDeltaPct, t.newProcessPct, t.memDropKib, t.memPressurePct, t.swapSpikeKib,
      (t.cooldownSeconds * 1000000000.0).Floor, s.tuning.memAlpha, s.scope, s.aggregate)
  }
}
