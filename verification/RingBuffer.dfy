/** The snapshot history: a circular array that stands for the newest 60 snapshots pushed. */
module RingBuffer {
  import opened Snapshots

  const CAPACITY: nat := 60

  function Min(a: nat, b: nat): nat {
    if a < b then a else b
  }

  /** The newest `n` of a history whose last element is the newest one, newest first. */
  function Newest<T>(h: seq<T>, n: nat): seq<T>
    requires n <= |h|
  {
    seq(n, i requires 0 <= i < n => h[|h| - 1 - i])
  }

  /** What the ring remembers of a history. */
  function Recent<T>(h: seq<T>): seq<T> {
    Newest(h, Min(|h|, CAPACITY))
  }

  /** A push puts the new snapshot in front and drops at most the oldest one remembered. */
  lemma RecentAfterPush<T>(h: seq<T>, x: T)
    ensures Recent(h + [x]) == ([x] + Recent(h))[..Min(|h| + 1, 60)]
  {
  }

  /** A snapshot without a time is given that of the clock. */
  function Stamped(s: Snapshot, clock: u64): Snapshot {
    if s.timestampNs == 0 then s.(timestampNs := clock) else s
  }

  /** A clock that runs leaves no snapshot without a time, and a time that is known stays. */
  lemma StampedHasTime(s: Snapshot, clock: u64)
    ensures var r := Stamped(s, clock);
            && r.(timestampNs := 0) == s.(timestampNs := 0)
            && r.timestampNs in {s.timestampNs, clock}
            && (s.timestampNs > 0 ==> r == s)
            && (r.timestampNs == 0 <==> s.timestampNs == 0 && clock == 0)
  {
  }

  // ----- where a spike began -----

  /** The snapshot lists process `pid` with at least this share of the CPU. */
  predicate Lists(s: Snapshot, pid: i32, threshold: real) {
    exists j :: 0 <= j < |s.procs| && s.procs[j].pid == pid && s.procs[j].cpuPct >= threshold
  }

  /** `k` is the index of the oldest snapshot of the unbroken run, from the newest one on, of
      snapshots that list the process; -1 when already the newest does not. */
  ghost predicate IsOrigin(recent: seq<Snapshot>, pid: i32, threshold: real, k: int) {
    && -1 <= k < |recent|
    && (forall i :: 0 <= i <= k ==> Lists(recent[i], pid, threshold))
    && (k + 1 < |recent| ==> !Lists(recent[k + 1], pid, threshold))
  }

  lemma OriginIsUnique(recent: seq<Snapshot>, pid: i32, threshold: real, j: int, k: int)
    requires IsOrigin(recent, pid, threshold, j) && IsOrigin(recent, pid, threshold, k)
    ensures j == k
  {
  }

  function Origin(recent: seq<Snapshot>, pid: i32, threshold: real): (k: int)
    ensures -1 <= k < |recent|
  {
    if recent == [] || !Lists(recent[0], pid, threshold) then -1
    else 1 + Origin(recent[1..], pid, threshold)
  }

  lemma {:induction false} OriginMeets(recent: seq<Snapshot>, pid: i32, threshold: real)
    ensures IsOrigin(recent, pid, threshold, Origin(recent, pid, threshold))
  {
    if recent != [] && Lists(recent[0], pid, threshold) {
      OriginMeets(recent[1..], pid, threshold);
      var k := Origin(recent[1..], pid, threshold);
      assert forall i :: 1 <= i <= k + 1 ==> recent[i] == recent[1..][i - 1];
      assert k + 1 < |recent[1..]| ==> recent[k + 2] == recent[1..][k + 1];
    }
  }

  /** From one snapshot to the next an origin moves back by one, as far as the ring reaches, as
      long as the process stays listed; otherwise it is forgotten. */
  lemma OriginAfterPush(h: seq<Snapshot>, s: Snapshot, pid: i32, threshold: real)
    ensures Origin(Recent(h + [s]), pid, threshold)
         == if !Lists(s, pid, threshold) then -1 else Min(Origin(Recent(h), pid, threshold) + 1, CAPACITY - 1)
  {
    var k := Origin(Recent(h), pid, threshold);
    OriginMeets(Recent(h), pid, threshold);
    OriginMeets(Recent(h + [s]), pid, threshold);
    RecentAfterPush(h, s);
    var before, after := Recent(h), Recent(h + [s]);
    assert forall i :: 1 <= i < |after| ==> after[i] == before[i - 1];
    assert after[0] == s;
    hide Lists, Recent, Origin;
    var k' := if !Lists(s, pid, threshold) then -1 else Min(k + 1, CAPACITY - 1);
    assert IsOrigin(after, pid, threshold, k');
    OriginIsUnique(after, pid, threshold, k', Origin(after, pid, threshold));
  }

  /** The slot of an element of the history. */
  function Place(j: nat): (k: nat)
    ensures k < CAPACITY
  {
    j % CAPACITY
  }

  class Ring {
    const snapshots: array<Snapshot>
    var head: nat
    var tail: nat
    var count: nat
    ghost var history: seq<Snapshot>

    /** The ring stands for the newest of its history: each element is in its place. */
    ghost predicate Valid()
      reads this, snapshots
    {
      && snapshots.Length == CAPACITY
      && count == Min(|history|, CAPACITY)
      && tail == Place(|history|)
      && head == (tail + CAPACITY - count) % CAPACITY
      && forall j: nat :: |history| - count <= j < |history| ==> snapshots[Place(j)] == history[j]
    }

    constructor (blank: Snapshot)
      ensures Valid() && fresh(snapshots) && history == []
    {
      snapshots := new Snapshot[CAPACITY](_ => blank);
      head, tail, count := 0, 0, 0;
      history := [];
    }

    /** The slot of the `i`-th newest snapshot. */
    function Slot(i: nat): (k: nat)
      reads this
      requires i < CAPACITY
      ensures k < CAPACITY
    {
      (tail + CAPACITY - i - 1) % CAPACITY
    }

    lemma SlotHolds(i: nat)
      requires Valid() && i < count
      ensures snapshots[Slot(i)] == history[|history| - 1 - i]
    {
      var n := |history|;
      assert n == n / CAPACITY * CAPACITY + tail;
      SameRemainder(tail + CAPACITY - i - 1, n - 1 - i, n / CAPACITY - 1);
    }

    method Push(snapshot: Snapshot, clock: u64)
      requires Valid()
      modifies this, snapshots
      ensures Valid() && history == old(history) + [Stamped(snapshot, clock)]
    {
      hide Place;
      ghost var h := history;
      var copy := snapshot;
      if copy.timestampNs == 0 {
        copy := copy.(timestampNs := clock);
      }
      PushKeepsSlots(h);
      snapshots[tail] := copy;
      history := h + [copy];
      TailMoves(|h|);
      HeadMoves(tail, count);
      if count == CAPACITY {
        head := (head + 1) % CAPACITY;
      } else {
        count := count + 1;
      }
      tail := (tail + 1) % CAPACITY;
    }

    /** Copies the newest snapshots, newest first, as many as are asked for and available. */
    method GetRecent(dest: array<Snapshot>, n: nat) returns (outCount: nat)
      requires Valid() && dest != snapshots && Min(n, count) <= dest.Length
      modifies dest
      ensures Valid() && outCount == Min(n, Min(|history|, CAPACITY))
      ensures dest[..outCount] == Newest(history, outCount)
      ensures dest[outCount..] == old(dest[outCount..])
    {
      hide Place;
      outCount := Min(n, count);
      for i := 0 to outCount
        invariant Valid()
        invariant dest[..i] == Newest(history, i)
        invariant dest[outCount..] == old(dest[outCount..])
      {
        SlotHolds(i);
        dest[i] := snapshots[(tail + CAPACITY - i - 1) % CAPACITY];
        assert dest[..i + 1] == Newest(history, i) + [history[|history| - 1 - i]];
      }
    }

    method FindSpikeOrigin(pid: i32, threshold: real) returns (k: int)
      requires Valid()
      ensures k == Origin(Recent(history), pid, threshold)
    {
      hide Place;
      k := -1;
      var i := 0;
      while i < count
        invariant i <= count && k == i - 1
        invariant forall j :: 0 <= j < i ==> Lists(Recent(history)[j], pid, threshold)
      {
        SlotHolds(i);
        var snap := snapshots[(tail + CAPACITY - i - 1) % CAPACITY];
        assert snap == Recent(history)[i];
        for j := 0 to |snap.procs|
          invariant k == i - 1
          invariant forall l :: 0 <= l < j ==> !(snap.procs[l].pid == pid && snap.procs[l].cpuPct >= threshold)
        {
          if snap.procs[j].pid == pid && snap.procs[j].cpuPct >= threshold {
            k := i;
            break;
          }
        }
        if k != i {
          break;
        }
        i := i + 1;
      }
      OriginMeets(Recent(history), pid, threshold);
      OriginIsUnique(Recent(history), pid, threshold, k, Origin(Recent(history), pid, threshold));
    }
  }

  lemma SameRemainder(a: int, b: int, q: int)
    requires b == a + q * CAPACITY
    ensures a % CAPACITY == b % CAPACITY
  {
  }

  lemma TailMoves(n: nat)
    ensures Place(n + 1) == (Place(n) + 1) % CAPACITY
  {
  }

  lemma HeadMoves(tail: nat, count: nat)
    requires tail < CAPACITY && count <= CAPACITY
    ensures count < CAPACITY ==> ((tail + 1) % CAPACITY + CAPACITY - (count + 1)) % CAPACITY == (tail + CAPACITY - count) % CAPACITY
    ensures ((tail + 1) % CAPACITY + CAPACITY - CAPACITY) % CAPACITY == (tail + 1) % CAPACITY
  {
  }

  /** Among any 60 neighbours in a history, the slots are distinct. */
  lemma PushKeepsSlots(h: seq<Snapshot>)
    ensures forall j: nat :: j < |h| && |h| - CAPACITY < j ==> Place(j) != Place(|h|)
  {
  }
}
