/** What the detector guarantees over whole runs between two reloads of the configuration. */
module DetectorRuns {
  import opened Snapshots
  import opened Cooldown
  import opened AnomalyDetector

  /** What the detector is given at one sampling instant. */
  datatype Input = Input(samples: seq<Sample>, mem: MemSnapshot, now: nat)

  /** The clock is positive and strictly increasing. */
  ghost predicate Increasing(ins: seq<Input>) {
    && (forall i :: 0 <= i < |ins| ==> ins[i].now > 0)
    && (forall i, j :: 0 <= i < j < |ins| ==> ins[i].now < ins[j].now)
  }

  /** The states of a run that starts in the initial state. */
  ghost predicate Run(c: Config, ins: seq<Input>, ss: seq<State>) {
    && Increasing(ins)
    && |ss| == |ins| + 1 && ss[0] == INITIAL
    && (forall i :: 0 <= i < |ins| ==> Step(c, ins[i].samples, ins[i].mem, ins[i].now, ss[i], ss[i + 1]))
  }

  lemma {:induction false} RunShape(c: Config, ins: seq<Input>, ss: seq<State>)
    requires Run(c, ins, ss)
    ensures |ss| == |ins| + 1 && ss[0] == INITIAL
  {
  }

  /** The key of the CPU trigger of evaluation `i`, if it has one. */
  function KeyAt(c: Config, ins: seq<Input>, ss: seq<State>, i: nat): Option<int>
    requires i < |ins| && |ss| == |ins| + 1
  {
    match CpuFinding(c, ins[i].samples, ss[i].table, ins[i].now)
    case None => None
    case Some(t) => Some(t.key)
  }

  // ----- the history of triggers -----

  /** The keys triggered by evaluations `a` to `b - 1`. */
  ghost function KeysBetween(c: Config, ins: seq<Input>, ss: seq<State>, a: nat, b: nat): set<int>
    requires b <= |ins| && |ss| == |ins| + 1
  {
    set i | a <= i < b && KeyAt(c, ins, ss, i).Some? :: KeyAt(c, ins, ss, i).value
  }

  /** Evaluation `i` is the last of the first `n` to trigger key `k`. */
  ghost predicate LastAt(c: Config, ins: seq<Input>, ss: seq<State>, k: int, i: nat, n: nat)
    requires n <= |ins| && |ss| == |ins| + 1
  {
    i < n && KeyAt(c, ins, ss, i) == Some(k) && forall j :: i < j < n ==> KeyAt(c, ins, ss, j) != Some(k)
  }

  /** After `n` evaluations the table holds last triggers only, and it has forgotten a last
      trigger only if that has expired or 64 other keys have triggered since. */
  ghost predicate Remembers(c: Config, ins: seq<Input>, ss: seq<State>, n: nat)
    requires n <= |ins| && |ss| == |ins| + 1
  {
    var t := ss[n].table;
    && Unique(t) && |t| <= TABLE_SIZE
    && (forall e :: e in t ==> exists i: nat :: LastAt(c, ins, ss, e.key, i, n) && ins[i].now == e.ts)
    && (forall k, i: nat :: LastAt(c, ins, ss, k, i, n) ==>
          || Entry(k, ins[i].now) in t
          || ins[n - 1].now - ins[i].now >= c.cooldownNs
          || |KeysBetween(c, ins, ss, i + 1, n)| >= TABLE_SIZE)
  }

  lemma SubsetCount(a: set<int>, b: set<int>)
    requires a <= b
    ensures |a| <= |b|
  {
    assert b == a + (b - a);
  }

  lemma {:induction false} KeysGrow(c: Config, ins: seq<Input>, ss: seq<State>, a: nat, b: nat)
    requires b < |ins| && |ss| == |ins| + 1
    ensures |KeysBetween(c, ins, ss, a, b)| <= |KeysBetween(c, ins, ss, a, b + 1)|
  {
    SubsetCount(KeysBetween(c, ins, ss, a, b), KeysBetween(c, ins, ss, a, b + 1));
  }

  /** Evicting the oldest entry of a full table: every other key in it, and the new one, has
      triggered after the evicted key. */
  lemma {:induction false} EvictionTakes64(c: Config, ins: seq<Input>, ss: seq<State>, n: nat, u: Table, k: int, i: nat)
    requires Run(c, ins, ss) && n < |ins| && Remembers(c, ins, ss, n)
    requires Purged(ss[n].table, u, ins[n].now, c.cooldownNs)
    requires KeyAt(c, ins, ss, n) == Some(k) && k !in Keys(u) && |u| >= TABLE_SIZE
    requires LastAt(c, ins, ss, u[Oldest(u)].key, i, n) && ins[i].now == u[Oldest(u)].ts
    ensures |KeysBetween(c, ins, ss, i + 1, n + 1)| >= TABLE_SIZE
  {
    hide KeyAt, Step, Record;
    var oldest := u[Oldest(u)];
    var others := Keys(u) - {oldest.key} + {k};
    assert oldest in u;
    KeyCount(u);
    forall k' | k' in others
      ensures k' in KeysBetween(c, ins, ss, i + 1, n + 1)
    {
      if k' != k {
        var e :| e in u && e.key == k';
        assert e in ss[n].table;
        var j: nat :| LastAt(c, ins, ss, e.key, j, n) && ins[j].now == e.ts;
        assert oldest.ts <= e.ts;
        assert i < j;
      }
    }
    SubsetCount(others, KeysBetween(c, ins, ss, i + 1, n + 1));
  }

  /** The table between the scan and the record of one evaluation. */
  lemma {:induction false} StepTable(c: Config, ins: seq<Input>, ss: seq<State>, n: nat) returns (u: Table)
    requires Run(c, ins, ss) && n < |ins|
    ensures Purged(ss[n].table, u, ins[n].now, c.cooldownNs)
    ensures var f := KeyAt(c, ins, ss, n);
            ss[n + 1].table == if f.None? then u else Record(u, f.value, ins[n].now)
  {
    assert Step(c, ins[n].samples, ins[n].mem, ins[n].now, ss[n], ss[n + 1]);
    hide Record;
    var t, r, now := ss[n].table, ss[n + 1].table, ins[n].now;
    var f := CpuFinding(c, ins[n].samples, t, now);
    u :| Purged(t, u, now, c.cooldownNs) && r == if f.None? then u else Record(u, f.value.key, now);
  }

  lemma {:induction false} RememberStep(c: Config, ins: seq<Input>, ss: seq<State>, n: nat)
    requires Run(c, ins, ss) && n < |ins| && Remembers(c, ins, ss, n)
    ensures Remembers(c, ins, ss, n + 1)
  {
    var u := StepTable(c, ins, ss, n);
    var r, f := ss[n + 1].table, KeyAt(c, ins, ss, n);
    if f.Some? {
      RecordedEntries(u, f.value, ins[n].now);
    }
    assert Unique(r) && |r| <= TABLE_SIZE;
    EntriesStep(c, ins, ss, n, u);
    ForgetsStep(c, ins, ss, n, u);
    hide KeyAt, Run, KeysBetween, Record, Purged, Keys, LastAt;
  }

  lemma {:induction false} EntriesStep(c: Config, ins: seq<Input>, ss: seq<State>, n: nat, u: Table)
    requires Run(c, ins, ss) && n < |ins| && Remembers(c, ins, ss, n)
    requires Purged(ss[n].table, u, ins[n].now, c.cooldownNs)
    requires var f := KeyAt(c, ins, ss, n);
             ss[n + 1].table == if f.None? then u else Record(u, f.value, ins[n].now)
    ensures forall e :: e in ss[n + 1].table ==> exists i: nat :: LastAt(c, ins, ss, e.key, i, n + 1) && ins[i].now == e.ts
  {
    forall e | e in ss[n + 1].table
      ensures exists i: nat :: LastAt(c, ins, ss, e.key, i, n + 1) && ins[i].now == e.ts
    {
      EntryStep(c, ins, ss, n, u, e);
    }
  }

  lemma {:induction false} ForgetsStep(c: Config, ins: seq<Input>, ss: seq<State>, n: nat, u: Table)
    requires Run(c, ins, ss) && n < |ins| && Remembers(c, ins, ss, n)
    requires Purged(ss[n].table, u, ins[n].now, c.cooldownNs)
    requires var f := KeyAt(c, ins, ss, n);
             ss[n + 1].table == if f.None? then u else Record(u, f.value, ins[n].now)
    ensures forall k, i: nat :: LastAt(c, ins, ss, k, i, n + 1) ==>
              || Entry(k, ins[i].now) in ss[n + 1].table
              || ins[n].now - ins[i].now >= c.cooldownNs
              || |KeysBetween(c, ins, ss, i + 1, n + 1)| >= TABLE_SIZE
  {
    hide KeyAt, Run, KeysBetween, Record, Purged, Keys, Remembers, Unique;
    RunShape(c, ins, ss);
    var f := KeyAt(c, ins, ss, n);
    PurgedIsUnique(ss[n].table, u, ins[n].now, c.cooldownNs);
    if f.Some? {
      RecordedEntries(u, f.value, ins[n].now);
    }
    forall k, i: nat | LastAt(c, ins, ss, k, i, n + 1)
      ensures || Entry(k, ins[i].now) in ss[n + 1].table
              || ins[n].now - ins[i].now >= c.cooldownNs
              || |KeysBetween(c, ins, ss, i + 1, n + 1)| >= TABLE_SIZE
    {
      if i < n {
        assert LastAt(c, ins, ss, k, i, n);
        ForgetStep(c, ins, ss, n, u, k, i);
      }
    }
  }

  lemma {:induction false} EntryStep(c: Config, ins: seq<Input>, ss: seq<State>, n: nat, u: Table, e: Entry)
    requires Run(c, ins, ss) && n < |ins| && Remembers(c, ins, ss, n)
    requires Purged(ss[n].table, u, ins[n].now, c.cooldownNs)
    requires var f := KeyAt(c, ins, ss, n);
             ss[n + 1].table == if f.None? then u else Record(u, f.value, ins[n].now)
    requires e in ss[n + 1].table
    ensures exists i: nat :: LastAt(c, ins, ss, e.key, i, n + 1) && ins[i].now == e.ts
  {
    var f := KeyAt(c, ins, ss, n);
    if f.Some? {
      RecordedEntries(u, f.value, ins[n].now);
    }
    assert (e == Entry(e.key, ins[n].now) && f == Some(e.key)) || (e in ss[n].table && f != Some(e.key));
    hide KeyAt, Run, KeysBetween, Record, Purged, Unique;
    if f.Some? && e == Entry(f.value, ins[n].now) {
      assert LastAt(c, ins, ss, e.key, n, n + 1);
    } else {
      assert e in ss[n].table;
      var i: nat :| LastAt(c, ins, ss, e.key, i, n) && ins[i].now == e.ts;
      assert LastAt(c, ins, ss, e.key, i, n + 1);
    }
  }

  lemma {:induction false} ForgetStep(c: Config, ins: seq<Input>, ss: seq<State>, n: nat, u: Table, k: int, i: nat)
    requires Run(c, ins, ss) && n < |ins| && Remembers(c, ins, ss, n)
    requires Purged(ss[n].table, u, ins[n].now, c.cooldownNs)
    requires var f := KeyAt(c, ins, ss, n);
             ss[n + 1].table == if f.None? then u else Record(u, f.value, ins[n].now)
    requires LastAt(c, ins, ss, k, i, n) && KeyAt(c, ins, ss, n) != Some(k)
    ensures || Entry(k, ins[i].now) in ss[n + 1].table
            || ins[n].now - ins[i].now >= c.cooldownNs
            || |KeysBetween(c, ins, ss, i + 1, n + 1)| >= TABLE_SIZE
  {
    var e, f := Entry(k, ins[i].now), KeyAt(c, ins, ss, n);
    KeysGrow(c, ins, ss, i + 1, n);
    if e in ss[n].table {
      if e in u && f.Some? {
        RecordedEntries(u, f.value, ins[n].now);
        if Evicts(u, f.value, e) {
          EvictionTakes64(c, ins, ss, n, u, f.value, i);
        }
      }
    } else if |KeysBetween(c, ins, ss, i + 1, n)| < TABLE_SIZE {
      assert ins[n - 1].now <= ins[n].now;
    }
  }

  lemma {:induction false} RunRemembers(c: Config, ins: seq<Input>, ss: seq<State>, n: nat)
    requires Run(c, ins, ss) && n <= |ins|
    ensures Remembers(c, ins, ss, n)
  {
    if n > 0 {
      RunRemembers(c, ins, ss, n - 1);
      RememberStep(c, ins, ss, n - 1);
    }
  }

  // ----- cooldown safety -----

  /** A triggering key was not cooling down. */
  lemma {:induction false} TriggerNotCooling(c: Config, ins: seq<Input>, ss: seq<State>, n: nat, k: int)
    requires n < |ins| && |ss| == |ins| + 1 && KeyAt(c, ins, ss, n) == Some(k)
    ensures k !in Cooling(ss[n].table, ins[n].now, c.cooldownNs)
  {
    PickIsArgmax(c, ins[n].samples, Cooling(ss[n].table, ins[n].now, c.cooldownNs));
  }

  /** The last evaluation before `n` that triggered `k`. */
  lemma {:induction false} LastBefore(c: Config, ins: seq<Input>, ss: seq<State>, k: int, i: nat, n: nat)
    returns (l: nat)
    requires n <= |ins| && |ss| == |ins| + 1 && i < n && KeyAt(c, ins, ss, i) == Some(k)
    ensures i <= l && LastAt(c, ins, ss, k, l, n)
    decreases n
  {
    if KeyAt(c, ins, ss, n - 1) == Some(k) {
      l := n - 1;
    } else {
      l := LastBefore(c, ins, ss, k, i, n - 1);
    }
  }

  /** Every unexpired last trigger that is newer than an entry of the table is in it too. */
  ghost predicate KeepsNewer(c: Config, ins: seq<Input>, ss: seq<State>, n: nat)
    requires n <= |ins| && |ss| == |ins| + 1
  {
    forall e, k, i: nat ::
      e in ss[n].table && LastAt(c, ins, ss, k, i, n) && e.ts < ins[i].now && ins[n - 1].now - ins[i].now < c.cooldownNs
      ==> Entry(k, ins[i].now) in ss[n].table
  }

  /** An evaluation keeps that up, because what it evicts is the oldest entry. */
  lemma {:induction false} NewerStep(
    c: Config, ins: seq<Input>, ss: seq<State>, n: nat, u: Table, e: Entry, k: int, i: nat)
    requires Run(c, ins, ss) && n < |ins| && Unique(u) && KeepsNewer(c, ins, ss, n)
    requires Purged(ss[n].table, u, ins[n].now, c.cooldownNs)
    requires var f := KeyAt(c, ins, ss, n);
             ss[n + 1].table == if f.None? then u else Record(u, f.value, ins[n].now)
    requires e in ss[n + 1].table && LastAt(c, ins, ss, k, i, n + 1)
    requires e.ts < ins[i].now && ins[n].now - ins[i].now < c.cooldownNs
    ensures Entry(k, ins[i].now) in ss[n + 1].table
  {
    hide Run, KeyAt, Record, Purged, Unique;
    RunShape(c, ins, ss);
    var f, g := KeyAt(c, ins, ss, n), Entry(k, ins[i].now);
    if i == n {
      RecordedEntries(u, k, ins[n].now);
    } else {
      EarlierTimes(c, ins, ss, i, n);
      assert LastAt(c, ins, ss, k, i, n) && f != Some(k);
      NewerStays(ss[n].table, u, f, ins[n].now, c.cooldownNs, ss[n + 1].table, e, g);
    }
  }

  lemma EarlierTimes(c: Config, ins: seq<Input>, ss: seq<State>, i: nat, n: nat)
    requires Run(c, ins, ss) && i < n < |ins|
    ensures ins[i].now <= ins[n - 1].now < ins[n].now
  {
    hide Step;
  }

  /** Of two entries, one evaluation that triggers another key does not drop the newer one alone. */
  lemma NewerStays(t: Table, u: Table, f: Option<int>, now: nat, cd: nat, v: Table, e: Entry, g: Entry)
    requires Purged(t, u, now, cd) && v == if f.None? then u else Record(u, f.value, now)
    requires e in v && (e in t ==> g in t) && f != Some(g.key)
    requires e.ts < g.ts < now && Live(g, now, cd)
    ensures g in v
  {
    hide Record;
    if f.Some? {
      RecordedEntries(u, f.value, now);
    }
    assert e in u && g in u;
  }

  lemma {:induction false} NewerSteps(c: Config, ins: seq<Input>, ss: seq<State>, n: nat, u: Table)
    requires Run(c, ins, ss) && n < |ins| && |ss| == |ins| + 1 && Unique(u) && KeepsNewer(c, ins, ss, n)
    requires Purged(ss[n].table, u, ins[n].now, c.cooldownNs)
    requires var f := KeyAt(c, ins, ss, n);
             ss[n + 1].table == if f.None? then u else Record(u, f.value, ins[n].now)
    ensures KeepsNewer(c, ins, ss, n + 1)
  {
    hide Run, KeyAt, Record, Purged, Unique;
    forall e, k, i: nat | e in ss[n + 1].table && LastAt(c, ins, ss, k, i, n + 1) && e.ts < ins[i].now
        && ins[n].now - ins[i].now < c.cooldownNs
      ensures Entry(k, ins[i].now) in ss[n + 1].table
    {
      NewerStep(c, ins, ss, n, u, e, k, i);
    }
  }

  lemma {:induction false} RunKeepsNewer(c: Config, ins: seq<Input>, ss: seq<State>, n: nat)
    requires Run(c, ins, ss) && n <= |ins| && |ss| == |ins| + 1
    ensures KeepsNewer(c, ins, ss, n)
  {
    hide Run, KeyAt, Record, Purged;
    if n > 0 {
      RunKeepsNewer(c, ins, ss, n - 1);
      var u := StepTable(c, ins, ss, n - 1);
      assert Unique(u) by {
        PurgedIsUnique(ss[n - 1].table, u, ins[n - 1].now, c.cooldownNs);
      }
      NewerSteps(c, ins, ss, n - 1, u);
    } else {
      NothingBefore(c, ins, ss);
    }
  }

  lemma {:induction false} PurgedIsUnique(t: Table, u: Table, now: nat, cd: nat)
    requires Purged(t, u, now, cd)
    ensures Unique(u)
  {
  }

  lemma {:induction false} NothingBefore(c: Config, ins: seq<Input>, ss: seq<State>)
    requires |ss| == |ins| + 1
    ensures KeepsNewer(c, ins, ss, 0)
  {
    hide KeyAt;
  }

  /** While the table holds a key, everything that triggered after it is in the table too. */
  lemma {:induction false} LaterKeysHeld(c: Config, ins: seq<Input>, ss: seq<State>, k: int, i: nat, n: nat)
    requires Run(c, ins, ss) && n < |ins| && LastAt(c, ins, ss, k, i, n)
    requires ins[n].now - ins[i].now < c.cooldownNs && Entry(k, ins[i].now) in ss[n].table
    ensures KeysBetween(c, ins, ss, i + 1, n) <= Keys(ss[n].table) - {k}
  {
    RunKeepsNewer(c, ins, ss, n);
    forall j | j in KeysBetween(c, ins, ss, i + 1, n)
      ensures j in Keys(ss[n].table) && j != k
    {
      var m: nat :| i + 1 <= m < n && KeyAt(c, ins, ss, m) == Some(j);
      var l := LastBefore(c, ins, ss, j, m, n);
      assert ins[i].now < ins[l].now < ins[n].now && ins[n - 1].now <= ins[n].now;
      hide Run, KeyAt;
      assert Entry(j, ins[l].now) in ss[n].table;
    }
  }

  /** A key that has triggered less than a cooldown ago is still cooling down exactly when fewer
      than 64 distinct other keys have triggered since. */
  lemma {:induction false} CoolingExactly(c: Config, ins: seq<Input>, ss: seq<State>, k: int, i: nat, n: nat)
    requires Run(c, ins, ss) && n < |ins| && LastAt(c, ins, ss, k, i, n)
    requires ins[n].now - ins[i].now < c.cooldownNs
    ensures k in Cooling(ss[n].table, ins[n].now, c.cooldownNs)
       <==> |KeysBetween(c, ins, ss, i + 1, n)| < TABLE_SIZE
  {
    RunRemembers(c, ins, ss, n);
    assert ins[n - 1].now <= ins[n].now;
    var t, e := ss[n].table, Entry(k, ins[i].now);
    if e in t {
      LaterKeysHeld(c, ins, ss, k, i, n);
      SubsetCount(KeysBetween(c, ins, ss, i + 1, n), Keys(t) - {k});
      KeyCount(t);
      assert e.key in Keys(t);
    }
    hide Run, KeysBetween;
    OnlyEntry(c, ins, ss, k, i, n);
  }

  /** What the table holds for a key is its last trigger. */
  lemma {:induction false} OnlyEntry(c: Config, ins: seq<Input>, ss: seq<State>, k: int, i: nat, n: nat)
    requires n <= |ins| && |ss| == |ins| + 1 && Remembers(c, ins, ss, n) && LastAt(c, ins, ss, k, i, n)
    ensures forall e :: e in ss[n].table && e.key == k ==> e == Entry(k, ins[i].now)
  {
    hide KeyAt, KeysBetween;
    forall e | e in ss[n].table && e.key == k
      ensures e == Entry(k, ins[i].now)
    {
      var j: nat :| LastAt(c, ins, ss, e.key, j, n) && ins[j].now == e.ts;
      assert i == j;
    }
  }

  /** So two CPU triggers with the same key come less than a cooldown apart only if at least 64
      other distinct keys triggered strictly between them. */
  lemma {:induction false} CooldownSafety(c: Config, ins: seq<Input>, ss: seq<State>, k: int, i: nat, j: nat)
    requires Run(c, ins, ss) && i < j < |ins|
    requires KeyAt(c, ins, ss, i) == Some(k) == KeyAt(c, ins, ss, j)
    requires ins[j].now - ins[i].now < c.cooldownNs
    ensures |KeysBetween(c, ins, ss, i + 1, j) - {k}| >= TABLE_SIZE
  {
    var l := LastBefore(c, ins, ss, k, i, j);
    assert ins[i].now <= ins[l].now;
    CoolingExactly(c, ins, ss, k, l, j);
    TriggerNotCooling(c, ins, ss, j, k);
    var between := KeysBetween(c, ins, ss, l + 1, j);
    assert k !in between;
    SubsetCount(between, KeysBetween(c, ins, ss, i + 1, j) - {k});
  }

  lemma {:induction false} KeysBetweenCount(c: Config, ins: seq<Input>, ss: seq<State>, a: nat, b: nat)
    requires a <= b <= |ins| && |ss| == |ins| + 1
    ensures |KeysBetween(c, ins, ss, a, b)| <= b - a
    decreases b
  {
    if a < b {
      KeysBetweenCount(c, ins, ss, a, b - 1);
      var f := KeyAt(c, ins, ss, b - 1);
      assert KeysBetween(c, ins, ss, a, b) ==
             KeysBetween(c, ins, ss, a, b - 1) + if f.Some? then {f.value} else {};
    }
  }

  /** With fewer than 64 evaluations strictly between them, two triggers of one key are at least
      a cooldown apart. */
  lemma {:induction false} CooldownExact(c: Config, ins: seq<Input>, ss: seq<State>, k: int, i: nat, j: nat)
    requires Run(c, ins, ss) && i < j < |ins| && j - i - 1 < TABLE_SIZE
    requires KeyAt(c, ins, ss, i) == Some(k) == KeyAt(c, ins, ss, j)
    ensures ins[j].now - ins[i].now >= c.cooldownNs
  {
    KeysBetweenCount(c, ins, ss, i + 1, j);
    SubsetCount(KeysBetween(c, ins, ss, i + 1, j) - {k}, KeysBetween(c, ins, ss, i + 1, j));
    if ins[j].now - ins[i].now < c.cooldownNs {
      CooldownSafety(c, ins, ss, k, i, j);
    }
  }

  // ----- refinement of an unbounded record of triggers -----

  /** The keys still cooling down when every last trigger is remembered. */
  function CoolingIn(h: map<int, nat>, now: nat, cd: nat): set<int> {
    set k | k in h && Live(Entry(k, h[k]), now, cd)
  }

  function UnboundedKeyAt(c: Config, ins: seq<Input>, hs: seq<map<int, nat>>, i: nat): Option<int>
    requires i < |ins| && |hs| == |ins| + 1
  {
    match Pick(c, ins[i].samples, CoolingIn(hs[i], ins[i].now, c.cooldownNs))
    case None => None
    case Some(p) => Some(CheckedKey(c, ins[i].samples[p]))
  }

  /** The same run with a map from every key to its last trigger in place of the table. */
  ghost predicate UnboundedRun(c: Config, ins: seq<Input>, hs: seq<map<int, nat>>) {
    && |hs| == |ins| + 1 && hs[0] == map[]
    && forall i :: 0 <= i < |ins| ==>
         hs[i + 1] == var k := UnboundedKeyAt(c, ins, hs, i);
                      if k.None? then hs[i] else hs[i][k.value := ins[i].now]
  }

  /** Evaluation `i` drops an entry of another key that is still cooling down. */
  ghost predicate LosesLive(c: Config, ins: seq<Input>, ss: seq<State>, i: nat)
    requires i < |ins| && |ss| == |ins| + 1
  {
    exists e :: e in ss[i].table && Live(e, ins[i].now, c.cooldownNs)
      && KeyAt(c, ins, ss, i) != Some(e.key) && e !in ss[i + 1].table
  }

  /** The table is part of the map, and what it lacks has expired by `now`. */
  ghost predicate Abstracts(t: Table, h: map<int, nat>, now: nat, cd: nat) {
    && Unique(t)
    && (forall e :: e in t ==> e.key in h && h[e.key] == e.ts <= now)
    && (forall k :: k in h ==> h[k] <= now && (Entry(k, h[k]) in t || now - h[k] >= cd))
  }

  /** Later, both give the same answer for every key: what has expired stays expired. */
  lemma {:induction false} SameAnswers(t: Table, h: map<int, nat>, now: nat, later: nat, cd: nat)
    requires Abstracts(t, h, now, cd) && now < later
    ensures Cooling(t, later, cd) == CoolingIn(h, later, cd)
  {
    forall k | k in CoolingIn(h, later, cd)
      ensures k in Cooling(t, later, cd)
    {
      assert Entry(k, h[k]) in t;
    }
  }

  lemma {:induction false} AbstractStep(c: Config, ins: seq<Input>, ss: seq<State>, hs: seq<map<int, nat>>, n: nat, now: nat)
    requires Run(c, ins, ss) && UnboundedRun(c, ins, hs) && n < |ins|
    requires now < ins[n].now && Abstracts(ss[n].table, hs[n], now, c.cooldownNs) && !LosesLive(c, ins, ss, n)
    ensures KeyAt(c, ins, ss, n) == UnboundedKeyAt(c, ins, hs, n)
    ensures Abstracts(ss[n + 1].table, hs[n + 1], ins[n].now, c.cooldownNs)
  {
    SameAnswers(ss[n].table, hs[n], now, ins[n].now, c.cooldownNs);
    var u := StepTable(c, ins, ss, n);
    var f := KeyAt(c, ins, ss, n);
    assert f == UnboundedKeyAt(c, ins, hs, n);
    assert hs[n + 1] == if f.None? then hs[n] else hs[n][f.value := ins[n].now];
    hide KeyAt, UnboundedKeyAt, Run, UnboundedRun, Record, Purged, Abstracts;
    AbstractTable(ss[n].table, u, ss[n + 1].table, hs[n], f, now, ins[n].now, c.cooldownNs);
  }

  lemma {:induction false} AbstractTable(
    t: Table, u: Table, r: Table, h: map<int, nat>, k: Option<int>, now: nat, later: nat, cd: nat)
    requires Abstracts(t, h, now, cd) && now < later && Purged(t, u, later, cd)
    requires r == if k.None? then u else Record(u, k.value, later)
    requires forall e :: e in t && Live(e, later, cd) && k != Some(e.key) ==> e in r
    ensures Abstracts(r, if k.None? then h else h[k.value := later], later, cd)
  {
    if k.Some? {
      RecordedEntries(u, k.value, later);
    }
    hide Record;
    var h' := if k.None? then h else h[k.value := later];
    forall j | j in h'
      ensures h'[j] <= later && (Entry(j, h'[j]) in r || later - h'[j] >= cd)
    {
      if k != Some(j) {
        var e := Entry(j, h[j]);
        assert e in t && Live(e, later, cd) ==> e in r;
      }
    }
  }

  /** As long as no entry is dropped while it is cooling down, the bounded table gives the
      same triggers as the unbounded map. */
  lemma {:induction false} TableRefinesMap(c: Config, ins: seq<Input>, ss: seq<State>, hs: seq<map<int, nat>>, n: nat)
    requires Run(c, ins, ss) && UnboundedRun(c, ins, hs) && n <= |ins|
    requires forall i :: 0 <= i < n ==> !LosesLive(c, ins, ss, i)
    ensures forall i :: 0 <= i < n ==> KeyAt(c, ins, ss, i) == UnboundedKeyAt(c, ins, hs, i)
    ensures Abstracts(ss[n].table, hs[n], if n == 0 then 0 else ins[n - 1].now, c.cooldownNs)
  {
    hide KeyAt, UnboundedKeyAt, LosesLive, Step;
    if n > 0 {
      TableRefinesMap(c, ins, ss, hs, n - 1);
      AbstractStep(c, ins, ss, hs, n - 1, if n == 1 then 0 else ins[n - 2].now);
    }
  }

  /** Only a full table can lose a live entry. */
  lemma {:induction false} RoomLosesNothing(c: Config, ins: seq<Input>, ss: seq<State>, n: nat)
    requires Run(c, ins, ss) && n < |ins| && Unique(ss[n].table) && |ss[n].table| < TABLE_SIZE
    ensures !LosesLive(c, ins, ss, n)
  {
    var u := StepTable(c, ins, ss, n);
    var f := KeyAt(c, ins, ss, n);
    hide KeyAt, Step, Record;
    if f.Some? {
      RecordedEntries(u, f.value, ins[n].now);
    }
  }

  // ----- rates -----

  function Count(fires: seq<bool>): nat {
    if fires == [] then 0 else Count(fires[..|fires| - 1]) + if fires[|fires| - 1] then 1 else 0
  }

  ghost predicate Spaced(fires: seq<bool>, times: seq<nat>, cd: nat) {
    && |fires| == |times|
    && (forall i, j :: 0 <= i < j < |times| ==> times[i] < times[j])
    && (forall i, j :: 0 <= i < j < |times| && fires[i] && fires[j] ==> times[j] - times[i] >= cd)
  }

  lemma OneMore(k: nat, cd: nat, t: int, gap: int)
    requires k > 0 && (k - 1) * cd <= t && cd <= gap
    ensures k * cd <= t + gap
  {
    assert (k - 1) * cd + cd == k * cd;
  }

  /** Firings at least a cooldown apart: all but the first each take a cooldown of the window. */
  lemma {:induction false} SpacedCount(fires: seq<bool>, times: seq<nat>, cd: nat) returns (last: nat)
    requires Spaced(fires, times, cd) && Count(fires) > 0
    ensures last < |fires| && fires[last]
    ensures (Count(fires) - 1) * cd <= times[last] - times[0]
  {
    var n := |fires| - 1;
    if Count(fires[..n]) == 0 {
      last := n;
      assert n == 0 || times[0] < times[n];
    } else {
      last := SpacedCount(fires[..n], times[..n], cd);
      if fires[n] {
        assert times[n] - times[last] >= cd;
        OneMore(Count(fires[..n]), cd, times[last] - times[0], times[n] - times[last]);
        last := n;
      }
    }
  }

  /** At most floor(T / cooldown) + 1 firings in a window of length T. */
  lemma {:induction false} RateBound(fires: seq<bool>, times: seq<nat>, cd: nat)
    requires Spaced(fires, times, cd) && cd > 0 && fires != []
    ensures Count(fires) <= (times[|times| - 1] - times[0]) / cd + 1
  {
    if Count(fires) > 0 {
      var last := SpacedCount(fires, times, cd);
      assert last == |times| - 1 || times[last] < times[|times| - 1];
      QuotientBound(Count(fires) - 1, cd, times[|times| - 1] - times[0]);
    }
  }

  lemma QuotientBound(k: nat, cd: nat, t: int)
    requires cd > 0 && k * cd <= t
    ensures k <= t / cd
  {
    var q := t / cd;
    assert (q + 1 - k) * cd == q * cd + cd - k * cd > 0;
    PositiveFactor(q + 1 - k, cd);
  }

  lemma PositiveFactor(x: int, y: nat)
    requires x * y > 0
    ensures x > 0
  {
  }

  predicate MemFiresAt(c: Config, ins: seq<Input>, ss: seq<State>, i: nat)
    requires i < |ins| && |ss| == |ins| + 1
  {
    MemFires(c, ins[i].mem, ss[i].mem, ins[i].now)
  }

  predicate SwapFiresAt(c: Config, ins: seq<Input>, ss: seq<State>, i: nat)
    requires i < |ins| && |ss| == |ins| + 1
  {
    SwapFires(c, ins[i].mem, ss[i].swap, ins[i].now)
  }

  /** What an evaluation does to the recorded trigger times. */
  lemma {:induction false} StepTimes(c: Config, ins: seq<Input>, ss: seq<State>, n: nat)
    requires Run(c, ins, ss) && n < |ins|
    ensures |ss| == |ins| + 1 && (n > 0 ==> ins[n - 1].now < ins[n].now)
    ensures ss[n + 1].mem.lastTriggerNs == if MemFiresAt(c, ins, ss, n) then ins[n].now else ss[n].mem.lastTriggerNs
    ensures ss[n + 1].swap.lastTriggerNs == if SwapFiresAt(c, ins, ss, n) then ins[n].now else ss[n].swap.lastTriggerNs
  {
    assert Step(c, ins[n].samples, ins[n].mem, ins[n].now, ss[n], ss[n + 1]);
    hide MemFires, SwapFires, Ema, TableStep;
  }

  /** After a memory trigger the recorded time is never older than it, nor newer than the clock. */
  lemma {:induction false} MemRemembers(c: Config, ins: seq<Input>, ss: seq<State>, i: nat, n: nat)
    requires Run(c, ins, ss) && i < n <= |ins| && MemFiresAt(c, ins, ss, i)
    ensures ins[i].now <= ss[n].mem.lastTriggerNs <= ins[n - 1].now
    decreases n
  {
    hide Run, MemFiresAt;
    StepTimes(c, ins, ss, n - 1);
    if i < n - 1 {
      MemRemembers(c, ins, ss, i, n - 1);
    }
  }

  lemma {:induction false} SwapRemembers(c: Config, ins: seq<Input>, ss: seq<State>, i: nat, n: nat)
    requires Run(c, ins, ss) && i < n <= |ins| && SwapFiresAt(c, ins, ss, i)
    ensures ins[i].now <= ss[n].swap.lastTriggerNs <= ins[n - 1].now
    decreases n
  {
    hide Run, SwapFiresAt;
    StepTimes(c, ins, ss, n - 1);
    if i < n - 1 {
      SwapRemembers(c, ins, ss, i, n - 1);
    }
  }

  /** The recorded time is that of the last memory trigger, and zero if there was none. */
  lemma {:induction false} MemLast(c: Config, ins: seq<Input>, ss: seq<State>, n: nat) returns (i: int)
    requires Run(c, ins, ss) && n <= |ins| && |ss| == |ins| + 1
    ensures -1 <= i < n && forall j :: i < j < n ==> !MemFiresAt(c, ins, ss, j)
    ensures if i < 0 then ss[n].mem.lastTriggerNs == 0
            else MemFiresAt(c, ins, ss, i) && ss[n].mem.lastTriggerNs == ins[i].now > 0
  {
    hide Step, MemFiresAt, SwapFiresAt;
    if n == 0 {
      i := -1;
    } else {
      StepTimes(c, ins, ss, n - 1);
      if MemFiresAt(c, ins, ss, n - 1) {
        i := n - 1;
      } else {
        i := MemLast(c, ins, ss, n - 1);
      }
    }
  }

  lemma {:induction false} SwapLast(c: Config, ins: seq<Input>, ss: seq<State>, n: nat) returns (i: int)
    requires Run(c, ins, ss) && n <= |ins| && |ss| == |ins| + 1
    ensures -1 <= i < n && forall j :: i < j < n ==> !SwapFiresAt(c, ins, ss, j)
    ensures if i < 0 then ss[n].swap.lastTriggerNs == 0
            else SwapFiresAt(c, ins, ss, i) && ss[n].swap.lastTriggerNs == ins[i].now > 0
  {
    hide Step, MemFiresAt, SwapFiresAt;
    if n == 0 {
      i := -1;
    } else {
      StepTimes(c, ins, ss, n - 1);
      if SwapFiresAt(c, ins, ss, n - 1) {
        i := n - 1;
      } else {
        i := SwapLast(c, ins, ss, n - 1);
      }
    }
  }

  lemma {:induction false} MemSpacing(c: Config, ins: seq<Input>, ss: seq<State>, i: nat, j: nat)
    requires Run(c, ins, ss) && i < j < |ins| && MemFiresAt(c, ins, ss, i) && MemFiresAt(c, ins, ss, j)
    ensures ins[j].now - ins[i].now >= c.cooldownNs
  {
    MemRemembers(c, ins, ss, i, j);
    assert ins[j - 1].now < ins[j].now;
  }

  lemma {:induction false} SwapSpacing(c: Config, ins: seq<Input>, ss: seq<State>, i: nat, j: nat)
    requires Run(c, ins, ss) && i < j < |ins| && SwapFiresAt(c, ins, ss, i) && SwapFiresAt(c, ins, ss, j)
    ensures ins[j].now - ins[i].now >= c.cooldownNs
  {
    SwapRemembers(c, ins, ss, i, j);
    assert ins[j - 1].now < ins[j].now;
  }

  /** Under the system scope without aggregation every trigger has the same key. */
  lemma {:induction false} SystemSpacing(c: Config, ins: seq<Input>, ss: seq<State>, i: nat, j: nat)
    requires Run(c, ins, ss) && i < j < |ins| && c.scope.System? && !c.aggregate
    requires KeyAt(c, ins, ss, i).Some? && KeyAt(c, ins, ss, j).Some?
    ensures ins[j].now - ins[i].now >= c.cooldownNs
  {
    assert KeysBetween(c, ins, ss, i + 1, j) - {0} == {};
    if ins[j].now - ins[i].now < c.cooldownNs {
      CooldownSafety(c, ins, ss, 0, i, j);
    }
  }

  lemma {:induction false} SystemKey(c: Config, ins: seq<Input>, ss: seq<State>, i: nat)
    requires i < |ins| && |ss| == |ins| + 1 && c.scope.System? && !c.aggregate
    ensures KeyAt(c, ins, ss, i) in {None, Some(0)}
  {
  }

  /** There the table never holds more than one entry. */
  lemma {:induction false} SystemTable(c: Config, ins: seq<Input>, ss: seq<State>, n: nat)
    requires Run(c, ins, ss) && n <= |ins| && c.scope.System? && !c.aggregate
    ensures |ss[n].table| <= 1
  {
    RunRemembers(c, ins, ss, n);
    var t := ss[n].table;
    forall e | e in t
      ensures e.key == 0
    {
      var i: nat :| LastAt(c, ins, ss, e.key, i, n);
      SystemKey(c, ins, ss, i);
    }
    KeyCount(t);
    SubsetCount(Keys(t), {0});
  }

  function Times(ins: seq<Input>): seq<nat> {
    seq(|ins|, i requires 0 <= i < |ins| => ins[i].now)
  }

  ghost function MemFirings(c: Config, ins: seq<Input>, ss: seq<State>): seq<bool>
    requires |ss| == |ins| + 1
  {
    seq(|ins|, i requires 0 <= i < |ins| => MemFiresAt(c, ins, ss, i))
  }

  ghost function SwapFirings(c: Config, ins: seq<Input>, ss: seq<State>): seq<bool>
    requires |ss| == |ins| + 1
  {
    seq(|ins|, i requires 0 <= i < |ins| => SwapFiresAt(c, ins, ss, i))
  }

  ghost function CpuFirings(c: Config, ins: seq<Input>, ss: seq<State>): seq<bool>
    requires |ss| == |ins| + 1
  {
    seq(|ins|, i requires 0 <= i < |ins| => KeyAt(c, ins, ss, i).Some?)
  }

  /** A window of firings that are spaced over the whole run. */
  lemma {:induction false} WindowRate(ins: seq<Input>, fires: seq<bool>, cd: nat, a: nat, b: nat)
    requires Increasing(ins) && Spaced(fires, Times(ins), cd) && a < b <= |ins| && cd > 0
    ensures Count(fires[a..b]) <= (ins[b - 1].now - ins[a].now) / cd + 1
  {
    var times := Times(ins)[a..b];
    assert times[0] == ins[a].now && times[|times| - 1] == ins[b - 1].now;
    RateBound(fires[a..b], times, cd);
  }

  /** In every window of a run, evaluations `a` to `b - 1`, the number of memory triggers is
      bounded by the length of the window; likewise of swap triggers, and of CPU triggers under
      the system scope. */
  lemma {:induction false} MemRate(c: Config, ins: seq<Input>, ss: seq<State>, a: nat, b: nat)
    requires Run(c, ins, ss) && a < b <= |ins| && c.cooldownNs > 0
    ensures Count(MemFirings(c, ins, ss)[a..b]) <= (ins[b - 1].now - ins[a].now) / c.cooldownNs + 1
  {
    forall i, j | 0 <= i < j < |ins| && MemFiresAt(c, ins, ss, i) && MemFiresAt(c, ins, ss, j)
      ensures ins[j].now - ins[i].now >= c.cooldownNs
    {
      MemSpacing(c, ins, ss, i, j);
    }
    hide MemFiresAt, Step;
    WindowRate(ins, MemFirings(c, ins, ss), c.cooldownNs, a, b);
  }

  lemma {:induction false} SwapRate(c: Config, ins: seq<Input>, ss: seq<State>, a: nat, b: nat)
    requires Run(c, ins, ss) && a < b <= |ins| && c.cooldownNs > 0
    ensures Count(SwapFirings(c, ins, ss)[a..b]) <= (ins[b - 1].now - ins[a].now) / c.cooldownNs + 1
  {
    forall i, j | 0 <= i < j < |ins| && SwapFiresAt(c, ins, ss, i) && SwapFiresAt(c, ins, ss, j)
      ensures ins[j].now - ins[i].now >= c.cooldownNs
    {
      SwapSpacing(c, ins, ss, i, j);
    }
    hide SwapFiresAt, Step;
    WindowRate(ins, SwapFirings(c, ins, ss), c.cooldownNs, a, b);
  }

  lemma {:induction false} SystemCpuRate(c: Config, ins: seq<Input>, ss: seq<State>, a: nat, b: nat)
    requires Run(c, ins, ss) && a < b <= |ins| && c.cooldownNs > 0 && c.scope.System? && !c.aggregate
    ensures Count(CpuFirings(c, ins, ss)[a..b]) <= (ins[b - 1].now - ins[a].now) / c.cooldownNs + 1
  {
    forall i, j | 0 <= i < j < |ins| && KeyAt(c, ins, ss, i).Some? && KeyAt(c, ins, ss, j).Some?
      ensures ins[j].now - ins[i].now >= c.cooldownNs
    {
      SystemSpacing(c, ins, ss, i, j);
    }
    hide KeyAt, Step;
    WindowRate(ins, CpuFirings(c, ins, ss), c.cooldownNs, a, b);
  }
}
