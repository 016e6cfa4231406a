/** The two memory baselines over whole runs: what they are, and when their alarms fall silent. */
module Baselines {
  import opened Snapshots
  import opened AnomalyDetector
  import opened DetectorRuns
  import opened ConfigValidation

  // ----- the baselines are the smoothed readings, whatever else happens -----

  /** The readings smoothed one after the other; none before the first. */
  function Smoothed(alpha: fraction, xs: seq<u64>): Option<u64> {
    if xs == [] then None
    else
      var last := xs[|xs| - 1];
      match Smoothed(alpha, xs[..|xs| - 1])
      case None => Some(last)
      case Some(b) => Some(Ema(alpha, last, b))
  }

  /** The usable readings of available memory, and of used swap. */
  function MemReadings(ins: seq<Input>): seq<u64> {
    if ins == [] then []
    else
      var m := ins[|ins| - 1].mem;
      MemReadings(ins[..|ins| - 1]) + if m.total == 0 then [] else [m.available]
  }

  function SwapReadings(ins: seq<Input>): seq<u64> {
    if ins == [] then []
    else
      var m := ins[|ins| - 1].mem;
      SwapReadings(ins[..|ins| - 1]) + if m.swapTotal == 0 then [] else [SwapUsed(m)]
  }

  function Level(b: Baseline): Option<u64> {
    if b.initialized then Some(b.kib) else None
  }

  /** A step of the run taken apart. */
  lemma {:induction false} RunStep(c: Config, ins: seq<Input>, ss: seq<State>, n: nat)
    requires Run(c, ins, ss) && n < |ins|
    ensures ss[n + 1].mem == MemAfter(c, ins[n].mem, ss[n].mem, ins[n].now)
    ensures ss[n + 1].swap == SwapAfter(c, ins[n].mem, ss[n].swap, ins[n].now)
  {
    assert Step(c, ins[n].samples, ins[n].mem, ins[n].now, ss[n], ss[n + 1]);
  }

  /** Over any run both baselines are the smoothed usable readings since its start. Samples,
      cooldowns and the anomaly that is reported play no part. */
  lemma {:induction false} BaselinePurity(c: Config, ins: seq<Input>, ss: seq<State>, n: nat)
    requires Run(c, ins, ss) && n <= |ins|
    ensures Level(ss[n].mem) == Smoothed(c.alpha, MemReadings(ins[..n]))
    ensures Level(ss[n].swap) == Smoothed(c.alpha, SwapReadings(ins[..n]))
  {
    hide MemFires, SwapFires, Ema, Step, Run, Smoothed, MemReadings, SwapReadings, MemAfter, SwapAfter;
    RunShape(c, ins, ss);
    if n > 0 {
      BaselinePurity(c, ins, ss, n - 1);
      RunStep(c, ins, ss, n - 1);
      MemPurity(c, ins, n - 1, ss[n - 1].mem);
      SwapPurity(c, ins, n - 1, ss[n - 1].swap);
    } else {
      NoReadings(c.alpha);
      assert ins[..n] == [];
    }
  }

  lemma NoReadings(alpha: fraction)
    ensures Smoothed(alpha, MemReadings([])) == None == Smoothed(alpha, SwapReadings([]))
  {
  }

  /** One more evaluation smooths one more reading, if it has a usable one. */
  lemma {:induction false} MemPurity(c: Config, ins: seq<Input>, n: nat, b: Baseline)
    requires n < |ins| && Level(b) == Smoothed(c.alpha, MemReadings(ins[..n]))
    ensures Level(MemAfter(c, ins[n].mem, b, ins[n].now)) == Smoothed(c.alpha, MemReadings(ins[..n + 1]))
  {
    hide MemFires, Ema;
    assert ins[..n + 1][..n] == ins[..n];
    var xs, m := MemReadings(ins[..n]), ins[n].mem;
    assert MemReadings(ins[..n + 1]) == if m.total == 0 then xs else xs + [m.available];
    hide MemReadings;
    Appended(xs, m.available);
  }

  lemma {:induction false} SwapPurity(c: Config, ins: seq<Input>, n: nat, b: Baseline)
    requires n < |ins| && Level(b) == Smoothed(c.alpha, SwapReadings(ins[..n]))
    ensures Level(SwapAfter(c, ins[n].mem, b, ins[n].now)) == Smoothed(c.alpha, SwapReadings(ins[..n + 1]))
  {
    hide SwapFires, Ema, SwapUsed;
    assert ins[..n + 1][..n] == ins[..n];
    var xs, m := SwapReadings(ins[..n]), ins[n].mem;
    assert SwapReadings(ins[..n + 1]) == if m.swapTotal == 0 then xs else xs + [SwapUsed(m)];
    hide SwapReadings;
    Appended(xs, SwapUsed(m));
  }

  lemma {:induction false} Appended(xs: seq<u64>, x: u64)
    ensures (xs + [x])[..|xs|] == xs && (xs + [x])[|xs|] == x
  {
  }

  /** A smoothed level never leaves the range of its readings. */
  lemma {:induction false} SmoothedInRange(alpha: fraction, xs: seq<u64>, lo: u64, hi: u64)
    requires forall i :: 0 <= i < |xs| ==> lo <= xs[i] <= hi
    ensures Smoothed(alpha, xs).Some? ==> lo <= Smoothed(alpha, xs).value <= hi
  {
    if xs != [] {
      SmoothedInRange(alpha, xs[..|xs| - 1], lo, hi);
    }
  }

  /** So neither baseline ever leaves the range of the usable readings it has seen. */
  lemma {:induction false} LevelInRange(c: Config, ins: seq<Input>, ss: seq<State>, n: nat, lo: u64, hi: u64)
    requires Run(c, ins, ss) && n <= |ins|
    ensures (forall x :: x in MemReadings(ins[..n]) ==> lo <= x <= hi) && ss[n].mem.initialized ==>
              lo <= ss[n].mem.kib <= hi
    ensures (forall x :: x in SwapReadings(ins[..n]) ==> lo <= x <= hi) && ss[n].swap.initialized ==>
              lo <= ss[n].swap.kib <= hi
  {
    BaselinePurity(c, ins, ss, n);
    hide Run, Smoothed, MemReadings, SwapReadings;
    ReadingsBound(c.alpha, MemReadings(ins[..n]), lo, hi);
    ReadingsBound(c.alpha, SwapReadings(ins[..n]), lo, hi);
  }

  lemma ReadingsBound(alpha: fraction, xs: seq<u64>, lo: u64, hi: u64)
    ensures (forall x :: x in xs ==> lo <= x <= hi) && Smoothed(alpha, xs).Some? ==> lo <= Smoothed(alpha, xs).value <= hi
  {
    if forall x :: x in xs ==> lo <= x <= hi {
      assert forall i :: 0 <= i < |xs| ==> xs[i] in xs;
      SmoothedInRange(alpha, xs, lo, hi);
    }
  }

  // ----- one smoothing step towards a constant level -----

  /** From above, a step goes down by at least one and not below the level. */
  lemma StepFromAbove(alpha: fraction, a: u64, b: u64)
    requires alpha > 0.0 && a < b
    ensures a <= Ema(alpha, a, b) < b
  {
    var d := (b - a) as real;
    var r := alpha * a as real + (1.0 - alpha) * b as real;
    assert r == b as real - alpha * d;
    assert alpha * d > 0.0;
    FloorBelow(r, b);
  }

  lemma FloorBelow(r: real, b: int)
    requires r < b as real
    ensures r.Floor < b
  {
  }

  /** At the level it stays. */
  lemma StepAtLevel(alpha: fraction, a: u64)
    ensures Ema(alpha, a, a) == a
  {
  }

  /** How far one step would close a gap, before the fraction is cut off. */
  function Pull(alpha: fraction, gap: nat): real {
    alpha * gap as real
  }

  /** The gap below the level is too small to be smoothed away. */
  predicate Settled(alpha: fraction, gap: nat) {
    Pull(alpha, gap) < 1.0
  }

  /** From below, a step goes up by the floor of its pull: it stays when the gap is settled, and
      otherwise comes closer by one or more. */
  lemma StepFromBelow(alpha: fraction, a: u64, b: u64)
    requires b <= a
    ensures Ema(alpha, a, b) == b + Pull(alpha, a - b).Floor
    ensures if Settled(alpha, a - b) then Ema(alpha, a, b) == b else b < Ema(alpha, a, b) <= a
  {
    hide Ema, Pull;
    EmaFromBelow(alpha, a, b);
    PullInRange(alpha, a - b);
  }

  lemma EmaFromBelow(alpha: fraction, a: u64, b: u64)
    requires b <= a
    ensures Ema(alpha, a, b) == b + Pull(alpha, a - b).Floor
  {
    var d := (a - b) as real;
    assert alpha * a as real + (1.0 - alpha) * b as real == b as real + alpha * d;
    FloorShift(b, alpha * d);
  }

  lemma PullInRange(alpha: fraction, gap: nat)
    ensures var x := Pull(alpha, gap); 0 <= x.Floor <= gap && (x.Floor == 0 <==> x < 1.0)
  {
    var d := gap as real;
    ProductSign(alpha, d);
    ProductSign(1.0 - alpha, d);
    assert alpha * d == d - (1.0 - alpha) * d;
    FloorBetween(0, alpha * d, gap);
  }

  lemma FloorShift(b: int, x: real)
    ensures (b as real + x).Floor == b + x.Floor
  {
  }

  // ----- alarm quiescence -----

  /** From evaluation `m` on, available memory has the constant value `a`. */
  ghost predicate SteadyMem(ins: seq<Input>, m: nat, a: u64) {
    forall i :: m <= i < |ins| ==> ins[i].mem.total > 0 && ins[i].mem.available == a
  }

  ghost predicate SteadySwap(ins: seq<Input>, m: nat, a: u64) {
    forall i :: m <= i < |ins| ==> ins[i].mem.swapTotal > 0 && SwapUsed(ins[i].mem) == a
  }

  /** `n - m` evaluations after the reading became steady, a baseline above it has come down by
      that much or reached it exactly; a baseline at or below it stays there. */
  lemma {:induction false} MemDescends(c: Config, ins: seq<Input>, ss: seq<State>, m: nat, a: u64, n: nat)
    requires Run(c, ins, ss) && c.alpha > 0.0 && m <= n <= |ins|
    requires SteadyMem(ins, m, a) && ss[m].mem.initialized
    ensures var b := ss[m].mem.kib;
            var l := ss[n].mem;
            && l.initialized
            && (b >= a ==> a <= l.kib && (l.kib == a || l.kib <= b - (n - m)))
            && (b < a ==> l.kib <= a)
    decreases n
  {
    hide MemFires, Ema, Step;
    if n > m {
      MemDescends(c, ins, ss, m, a, n - 1);
      RunStep(c, ins, ss, n - 1);
      var b := ss[n - 1].mem.kib;
      if b > a {
        StepFromAbove(c.alpha, a, b);
      } else {
        assert b <= Ema(c.alpha, a, b) <= a;
        if b == a {
          StepAtLevel(c.alpha, a);
        }
      }
    }
  }

  /** How far a baseline is above a level, or below it; a missing baseline takes the level as it is. */
  function Above(b: Baseline, a: u64): nat {
    if b.initialized && b.kib > a then b.kib - a else 0
  }

  function Below(b: Baseline, a: u64): nat {
    if b.initialized && b.kib < a then a - b.kib else 0
  }

  /** After available memory has become constant, a sudden-drop alarm can only fire while the
      baseline comes down: after as many evaluations as it was above the level, never again. */
  lemma DropsFallSilent(c: Config, ins: seq<Input>, ss: seq<State>, m: nat, a: u64, n: nat)
    requires Run(c, ins, ss) && c.alpha > 0.0 && c.memDropKib > 0
    requires SteadyMem(ins, m, a) && m <= n < |ins|
    requires a < TWO_63 && (ss[m].mem.initialized ==> ss[m].mem.kib < TWO_63)
    requires n - m >= Above(ss[m].mem, a)
    ensures var f := MemFinding(c, ins[n].mem, ss[n].mem, ins[n].now); f.Some? ==> !f.value.isDrop
    ensures ss[n].mem.initialized && (ss[m].mem.initialized ==> ss[m].mem.kib >= a) ==> ss[n].mem.kib == a
  {
    if ss[m].mem.initialized {
      MemDescends(c, ins, ss, m, a, n);
    } else if n > m {
      RunStep(c, ins, ss, m);
      MemDescends(c, ins, ss, m + 1, a, n);
    }
  }

  /** The gap below a constant level: it shrinks by one or more until it is below 1 / alpha. */
  lemma {:induction false} SwapAscends(c: Config, ins: seq<Input>, ss: seq<State>, m: nat, a: u64, n: nat)
    requires Run(c, ins, ss) && m <= n <= |ins|
    requires SteadySwap(ins, m, a) && ss[m].swap.initialized
    ensures var b := ss[m].swap.kib;
            var l := ss[n].swap;
            && l.initialized
            && (b <= a ==> l.kib <= a && (Settled(c.alpha, a - l.kib) || a - l.kib <= a - b - (n - m)))
            && (b > a ==> l.kib >= a)
    decreases n
  {
    hide SwapFires, Ema, Step, Settled;
    if n > m {
      SwapAscends(c, ins, ss, m, a, n - 1);
      RunStep(c, ins, ss, n - 1);
      var b := ss[n - 1].swap.kib;
      if b <= a {
        StepFromBelow(c.alpha, a, b);
      }
    }
  }

  /** Settled within 1 / alpha: below 100 for the smallest smoothing factor that is accepted. */
  lemma SettledGap(alpha: fraction, d: nat)
    requires alpha >= 0.01 && Settled(alpha, d)
    ensures d < 100
  {
    ProductSign(alpha - 0.01, d as real);
    assert (alpha - 0.01) * d as real == alpha * d as real - 0.01 * d as real;
  }

  /** After used swap has become constant, a spike alarm can only fire while the baseline comes
      up: after as many evaluations as it was below the level, never again, and the baseline has
      settled less than 100 KiB below the level. */
  lemma SpikesFallSilent(c: Config, ins: seq<Input>, ss: seq<State>, m: nat, a: u64, n: nat)
    requires Run(c, ins, ss) && c.alpha >= 0.01 && c.swapSpikeKib >= 1024
    requires SteadySwap(ins, m, a) && m <= n < |ins|
    requires a < TWO_63 && (ss[m].swap.initialized ==> ss[m].swap.kib < TWO_63)
    requires n - m >= Below(ss[m].swap, a)
    ensures SwapFinding(c, ins[n].mem, ss[n].swap, ins[n].now).None?
    ensures ss[n].swap.initialized && (ss[m].swap.initialized ==> ss[m].swap.kib <= a) ==> 0 <= a - ss[n].swap.kib < 100
  {
    if ss[m].swap.initialized {
      SpikesSettle(c, ins, ss, m, a, n);
    } else if n > m {
      RunStep(c, ins, ss, m);
      SpikesSettle(c, ins, ss, m + 1, a, n);
    }
  }

  lemma SpikesSettle(c: Config, ins: seq<Input>, ss: seq<State>, m: nat, a: u64, n: nat)
    requires Run(c, ins, ss) && c.alpha >= 0.01 && c.swapSpikeKib >= 1024
    requires SteadySwap(ins, m, a) && m <= n < |ins| && ss[m].swap.initialized
    requires a < TWO_63 && ss[m].swap.kib < TWO_63
    requires n - m >= a - ss[m].swap.kib
    ensures SwapFinding(c, ins[n].mem, ss[n].swap, ins[n].now).None?
    ensures ss[m].swap.kib <= a ==> 0 <= a - ss[n].swap.kib < 100
  {
    hide SwapAfter, Step;
    SwapAscends(c, ins, ss, m, a, n);
    if ss[m].swap.kib <= a {
      SettledGap(c.alpha, 0);
      SettledGap(c.alpha, a - ss[n].swap.kib);
    } else {
      SwapStaysAbove(c, ins, ss, m, a, n);
    }
  }

  /** A baseline above the level comes down towards it, so it stays a small number. */
  lemma {:induction false} SwapStaysAbove(c: Config, ins: seq<Input>, ss: seq<State>, m: nat, a: u64, n: nat)
    requires Run(c, ins, ss) && m <= n <= |ins|
    requires SteadySwap(ins, m, a) && ss[m].swap.initialized && ss[m].swap.kib >= a
    ensures ss[n].swap.initialized && a <= ss[n].swap.kib <= ss[m].swap.kib
    decreases n
  {
    hide SwapFires, Ema, Step;
    if n > m {
      SwapStaysAbove(c, ins, ss, m, a, n - 1);
      RunStep(c, ins, ss, n - 1);
    }
  }

  /** Under whatever settings validation leaves: once available memory and used swap are constant,
      sudden-drop and swap-spike alarms fall silent for good, after as many evaluations as the two
      baselines were off by. */
  lemma {:induction false} AlarmsFallSilent(s: Settings, ins: seq<Input>, ss: seq<State>, m: nat, a: u64, u: u64, n: nat)
    requires var c := DetectorConfig(Validated(s)); Run(c, ins, ss)
    requires SteadyMem(ins, m, a) && SteadySwap(ins, m, u) && m <= n < |ins|
    requires a < TWO_63 && (ss[m].mem.initialized ==> ss[m].mem.kib < TWO_63)
    requires u < TWO_63 && (ss[m].swap.initialized ==> ss[m].swap.kib < TWO_63)
    requires n - m >= Above(ss[m].mem, a) && n - m >= Below(ss[m].swap, u)
    ensures var f := MemFinding(DetectorConfig(Validated(s)), ins[n].mem, ss[n].mem, ins[n].now);
            f.Some? ==> !f.value.isDrop
    ensures SwapFinding(DetectorConfig(Validated(s)), ins[n].mem, ss[n].swap, ins[n].now).None?
  {
    var c := DetectorConfig(Validated(s));
    hide MemFinding, SwapFinding, Step, Validated;
    DropsFallSilent(c, ins, ss, m, a, n);
    SpikesFallSilent(c, ins, ss, m, u, n);
  }
}
