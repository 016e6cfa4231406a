/** Sampling of processes: a bounded buffer over all of them, and two lists of the top ones. */
module ProcTracker {
  import opened Snapshots
  import opened Sorting

  const MAX_TRACKED: nat := 512

  /** What can be read about one process. */
  datatype Reading = Reading(pid: i32, ppid: i32, pgid: i32, state: char, comm: Comm, ticks: u64, rssKib: u64)

  // ----- orders -----

  function Sign(x: real, y: real): int {
    if y > x then 1 else if y < x then -1 else 0
  }

  function CompareByCpu(a: Sample, b: Sample): int {
    if !a.valid && !b.valid then 0
    else if !a.valid then 1
    else if !b.valid then -1
    else if a.cpuPct != b.cpuPct then Sign(a.cpuPct, b.cpuPct)
    else Sign(a.rssKib as real, b.rssKib as real)
  }

  function CompareByRss(a: Sample, b: Sample): int {
    if !a.valid && !b.valid then 0
    else if !a.valid then 1
    else if !b.valid then -1
    else if a.rssKib != b.rssKib then Sign(a.rssKib as real, b.rssKib as real)
    else Sign(a.cpuPct, b.cpuPct)
  }

  const ByCpu: (Sample, Sample) -> bool := (a, b) => CompareByCpu(a, b) <= 0
  const ByRss: (Sample, Sample) -> bool := (a, b) => CompareByRss(a, b) <= 0

  lemma ComparisonsAreOrders()
    ensures TotalOrder(ByCpu) && TotalOrder(ByRss)
  {
  }

  // ----- the samples of one collection -----

  /** The first valid sample of a process. */
  function FindPrev(samples: seq<Sample>, pid: i32): Option<Sample> {
    if samples == [] then None
    else if samples[0].valid && samples[0].pid == pid then Some(samples[0])
    else FindPrev(samples[1..], pid)
  }

  /** The share of the CPU since the previous sample, where there is one to compare with. */
  function CpuPct(r: Reading, prev: Option<Sample>, tickDelta: u64, firstCall: bool): real {
    if !firstCall && tickDelta > 0 && prev.Some? && r.ticks >= prev.value.ticks
    then 100.0 * (r.ticks - prev.value.ticks) as real / tickDelta as real
    else 0.0
  }

  /** A known process inherits its baseline and count, a new one starts them. */
  function SampleOf(r: Reading, prev: Option<Sample>, tickDelta: u64, firstCall: bool, alpha: real): Sample {
    var cpu := CpuPct(r, prev, tickDelta, firstCall);
    match prev
    case None =>
      Sample(r.pid, r.ppid, r.pgid, r.state, r.comm, r.ticks, r.rssKib, cpu, cpu, 1, true, true)
    case Some(p) =>
      Sample(r.pid, r.ppid, r.pgid, r.state, r.comm, r.ticks, r.rssKib, cpu, alpha * cpu + (1.0 - alpha) * p.baselinePct,
             if p.sampleCount < 255 then p.sampleCount + 1 else 255, false, true)
  }

  /** The samples of all readings of one collection, in the order of the scan. */
  function SamplesOf(rs: seq<Reading>, context: seq<Sample>, tickDelta: u64, firstCall: bool, alpha: real): (xs: seq<Sample>)
    ensures |xs| == |rs| && forall x :: x in xs ==> x.valid
  {
    seq(|rs|, i requires 0 <= i < |rs| =>
      SampleOf(rs[i], FindPrev(context, rs[i].pid), tickDelta, firstCall, alpha))
  }

  // ----- the buffer -----

  /** One more sample for the buffer: a full one gives up its last slot to a busier process, and
      is sorted then. */
  ghost predicate Offered(b: seq<Sample>, x: Sample, r: seq<Sample>) {
    if |b| < MAX_TRACKED then r == b + [x]
    else if x.cpuPct > b[MAX_TRACKED - 1].cpuPct then IsSortOf(r, b[MAX_TRACKED - 1 := x], ByCpu)
    else r == b
  }

  /** The buffer's contents while the samples `xs` are offered one after the other. */
  ghost predicate Fed(bs: seq<seq<Sample>>, xs: seq<Sample>) {
    && |bs| == |xs| + 1 && bs[0] == []
    && forall i :: 0 <= i < |xs| ==> Offered(bs[i], xs[i], bs[i + 1])
  }

  lemma OfferedFits(b: seq<Sample>, x: Sample, r: seq<Sample>)
    requires Offered(b, x, r) && |b| <= MAX_TRACKED
    ensures |r| == if |b| < MAX_TRACKED then |b| + 1 else MAX_TRACKED
    ensures multiset(r) <= multiset(b) + multiset{x}
    ensures |b| < MAX_TRACKED ==> r == b + [x]
  {
    if |b| == MAX_TRACKED {
      LastReplaced(b, x);
    }
  }

  lemma LastReplaced(b: seq<Sample>, x: Sample)
    requires b != []
    ensures var n := |b| - 1; multiset(b[n := x]) == multiset(b) - multiset{b[n]} + multiset{x}
  {
    var n := |b| - 1;
    assert b == b[..n] + [b[n]];
    assert b[n := x] == b[..n] + [x];
  }

  /** The buffer `b` after the samples `xs`: nothing is invented, and nothing lost as long as
      there is room. */
  ghost predicate Fits(b: seq<Sample>, xs: seq<Sample>) {
    && |b| == (if |xs| < MAX_TRACKED then |xs| else MAX_TRACKED)
    && multiset(b) <= multiset(xs)
    && (|xs| <= MAX_TRACKED ==> b == xs)
  }

  lemma FitsStep(b: seq<Sample>, x: Sample, r: seq<Sample>, xs: seq<Sample>)
    requires Fits(b, xs) && Offered(b, x, r)
    ensures Fits(r, xs + [x])
  {
    OfferedFits(b, x, r);
    hide Offered;
  }

  lemma {:induction false} FedFits(bs: seq<seq<Sample>>, xs: seq<Sample>, n: nat)
    requires Fed(bs, xs) && n <= |xs|
    ensures Fits(bs[n], xs[..n])
    decreases n
  {
    hide Offered, Fits;
    if n > 0 {
      FedFits(bs, xs, n - 1);
      FitsStep(bs[n - 1], xs[n - 1], bs[n], xs[..n - 1]);
      assert xs[..n] == xs[..n - 1] + [xs[n - 1]];
    } else {
      NothingFits();
      assert bs[n] == [] == xs[..n];
    }
  }

  lemma NothingFits()
    ensures Fits([], [])
  {
  }

  /** A process of maximal CPU share is never lost: something at least as busy as any process
      that was offered is in the buffer. */
  lemma {:induction false} BusiestKept(bs: seq<seq<Sample>>, xs: seq<Sample>, i: nat, n: nat) returns (y: Sample)
    requires Fed(bs, xs) && i < n <= |xs|
    ensures y in bs[n] && y.cpuPct >= xs[i].cpuPct
    decreases n
  {
    hide Offered;
    FedFits(bs, xs, n - 1);
    var z := xs[i];
    if i < n - 1 {
      z := BusiestKept(bs, xs, i, n - 1);
    }
    assert Offered(bs[n - 1], xs[n - 1], bs[n]);
    y := BusyAfterOffer(bs[n - 1], xs[n - 1], bs[n], z);
  }

  lemma BusyAfterOffer(m: seq<Sample>, x: Sample, r: seq<Sample>, z: Sample) returns (y: Sample)
    requires Offered(m, x, r) && |m| <= MAX_TRACKED && (z in m || z == x)
    ensures y in r && y.cpuPct >= z.cpuPct
  {
    var last := MAX_TRACKED - 1;
    y := z;
    if |m| < MAX_TRACKED {
    } else if x.cpuPct > m[last].cpuPct {
      LastReplaced(m, x);
      assert x in multiset(r);
      if z != x && z != m[last] {
        assert z in multiset(r);
      } else {
        y := x;
      }
    } else if z == x {
      y := m[last];
    }
  }

  /** The one process that is busier than all others is in the buffer. */
  lemma SoleBusiestKept(bs: seq<seq<Sample>>, xs: seq<Sample>, i: nat)
    requires Fed(bs, xs) && i < |xs|
    requires forall j :: 0 <= j < |xs| && xs[j] != xs[i] ==> xs[j].cpuPct < xs[i].cpuPct
    ensures xs[i] in bs[|xs|]
  {
    var n := |xs|;
    var y := BusiestKept(bs, xs, i, n);
    FedFits(bs, xs, n);
    assert xs[..n] == xs;
    assert y in multiset(bs[n]) && y in multiset(xs);
  }

  // ----- from the first replacement on -----

  /** `b` holds the busiest of `all`: nothing left out is busier than anything kept. */
  ghost predicate Busiest(b: seq<Sample>, all: multiset<Sample>) {
    && multiset(b) <= all
    && forall x, y :: x in all - multiset(b) && y in b ==> x.cpuPct <= y.cpuPct
  }

  ghost predicate FullAndSorted(b: seq<Sample>, all: multiset<Sample>) {
    |b| == MAX_TRACKED && Ordered(b, ByCpu) && (forall y :: y in b ==> y.valid) && Busiest(b, all)
  }

  /** A full and sorted buffer stays so, and stays the busiest of what it had and was offered. */
  lemma BusiestStep(b: seq<Sample>, x: Sample, r: seq<Sample>, all: multiset<Sample>)
    requires FullAndSorted(b, all) && x.valid && Offered(b, x, r)
    ensures FullAndSorted(r, all + multiset{x})
  {
    var last := MAX_TRACKED - 1;
    LastIsLeast(b);
    if x.cpuPct > b[last].cpuPct {
      SortKeeps(r, b[last := x], ByCpu, (y: Sample) => y.valid);
      BusierIn(b, x, r, all);
    } else {
      assert all + multiset{x} - multiset(r) == all - multiset(b) + multiset{x};
    }
  }

  /** A busier process takes the place of the last one. */
  lemma BusierIn(b: seq<Sample>, x: Sample, r: seq<Sample>, all: multiset<Sample>)
    requires |b| == MAX_TRACKED && Busiest(b, all) && x.cpuPct > b[MAX_TRACKED - 1].cpuPct
    requires multiset(r) == multiset(b[MAX_TRACKED - 1 := x])
    requires forall y :: y in b ==> y.cpuPct >= b[MAX_TRACKED - 1].cpuPct
    ensures Busiest(r, all + multiset{x})
  {
    var last := MAX_TRACKED - 1;
    LastReplaced(b, x);
    assert b[last] in b;
    Exchange(multiset(b), multiset(r), all, b[last], x);
    forall u, y | u in all - multiset(b) + multiset{b[last]} && y in r
      ensures u.cpuPct <= y.cpuPct
    {
      assert y in multiset(r);
    }
  }

  lemma Exchange(b: multiset<Sample>, r: multiset<Sample>, all: multiset<Sample>, last: Sample, x: Sample)
    requires last in b && r == b - multiset{last} + multiset{x} && b <= all
    ensures all + multiset{x} - r == all - b + multiset{last} && r <= all + multiset{x}
  {
  }

  lemma LastIsLeast(b: seq<Sample>)
    requires b != [] && Ordered(b, ByCpu) && forall y :: y in b ==> y.valid
    ensures forall y :: y in b ==> y.cpuPct >= b[|b| - 1].cpuPct
  {
    var n := |b| - 1;
    forall k | 0 <= k <= n
      ensures b[k].cpuPct >= b[n].cpuPct
    {
      assert b[k] in b && b[n] in b;
      assert k < n ==> ByCpu(b[k], b[n]);
    }
  }

  /** From the sort after a replacement, offer `k`, on, the buffer is the 512 busiest of what it
      held then and all later arrivals. */
  lemma {:induction false} BusiestSince(bs: seq<seq<Sample>>, xs: seq<Sample>, k: nat, n: nat)
    requires Fed(bs, xs) && k < n <= |xs| && forall x :: x in xs ==> x.valid
    requires |bs[k]| == MAX_TRACKED && xs[k].cpuPct > bs[k][MAX_TRACKED - 1].cpuPct
    ensures FullAndSorted(bs[n], multiset(bs[k + 1]) + multiset(xs[k + 1..n]))
    decreases n
  {
    hide Offered, FullAndSorted;
    if n == k + 1 {
      FedValid(bs, xs, n);
      FirstSort(bs[k], xs[k], bs[n]);
      assert xs[k + 1..n] == [];
      assert multiset(bs[n]) + multiset([]) == multiset(bs[n]);
    } else {
      BusiestSince(bs, xs, k, n - 1);
      var all := multiset(bs[k + 1]) + multiset(xs[k + 1..n - 1]);
      BusiestStep(bs[n - 1], xs[n - 1], bs[n], all);
      assert xs[k + 1..n] == xs[k + 1..n - 1] + [xs[n - 1]];
      assert all + multiset{xs[n - 1]} == multiset(bs[k + 1]) + multiset(xs[k + 1..n]);
    }
  }

  lemma FirstSort(b: seq<Sample>, x: Sample, r: seq<Sample>)
    requires |b| == MAX_TRACKED && Offered(b, x, r) && x.cpuPct > b[MAX_TRACKED - 1].cpuPct
    requires forall y :: y in r ==> y.valid
    ensures FullAndSorted(r, multiset(r))
  {
  }

  lemma FedValid(bs: seq<seq<Sample>>, xs: seq<Sample>, n: nat)
    requires Fed(bs, xs) && n <= |xs| && forall x :: x in xs ==> x.valid
    ensures forall y :: y in bs[n] ==> y.valid
  {
    FedFits(bs, xs, n);
    forall y | y in bs[n]
      ensures y.valid
    {
      assert y in multiset(bs[n]) && y in multiset(xs[..n]);
    }
  }

  // ----- the lists -----

  /** The first `k` of `all` in the order, best first. */
  ghost predicate IsTopK(list: seq<Sample>, all: multiset<Sample>, k: nat, le: (Sample, Sample) -> bool) {
    && |list| == (if k < |all| then k else |all|)
    && Ordered(list, le) && multiset(list) <= all
    && forall x, y :: x in all - multiset(list) && y in list ==> le(y, x)
  }

  lemma TopOfSort(r: seq<Sample>, s: seq<Sample>, k: nat, le: (Sample, Sample) -> bool)
    requires IsSortOf(r, s, le)
    ensures IsTopK(r[..if k < |r| then k else |r|], multiset(s), k, le)
  {
    var n := if k < |r| then k else |r|;
    PrefixLeaves(r, s, n);
    forall x, y | x in multiset(s) - multiset(r[..n]) && y in r[..n]
      ensures le(y, x)
    {
      assert x in r[n..];
    }
  }

  /** What the CPU list is: no process left out has a larger share than one in it, from each to the
      next the share does not grow, and where it stays the memory does not grow. */
  lemma CpuListOrder(list: seq<Sample>, all: multiset<Sample>, k: nat)
    requires IsTopK(list, all, k, ByCpu) && forall x :: x in all ==> x.valid
    ensures forall i, j :: 0 <= i < j < |list| ==>
              && list[i].cpuPct >= list[j].cpuPct
              && (list[i].cpuPct == list[j].cpuPct ==> list[i].rssKib >= list[j].rssKib)
    ensures forall x, y :: x in all - multiset(list) && y in list ==>
              x.cpuPct <= y.cpuPct && (x.cpuPct == y.cpuPct ==> x.rssKib <= y.rssKib)
  {
    ListIsOf(list, all);
  }

  /** What the memory list is: the same with the two exchanged. */
  lemma RssListOrder(list: seq<Sample>, all: multiset<Sample>, k: nat)
    requires IsTopK(list, all, k, ByRss) && forall x :: x in all ==> x.valid
    ensures forall i, j :: 0 <= i < j < |list| ==>
              && list[i].rssKib >= list[j].rssKib
              && (list[i].rssKib == list[j].rssKib ==> list[i].cpuPct >= list[j].cpuPct)
    ensures forall x, y :: x in all - multiset(list) && y in list ==>
              x.rssKib <= y.rssKib && (x.rssKib == y.rssKib ==> x.cpuPct <= y.cpuPct)
  {
    ListIsOf(list, all);
  }

  lemma ListIsOf(list: seq<Sample>, all: multiset<Sample>)
    requires multiset(list) <= all && forall x :: x in all ==> x.valid
    ensures forall y :: y in list ==> y.valid
    ensures forall i :: 0 <= i < |list| ==> list[i].valid
  {
    assert forall y :: y in list ==> y in multiset(list);
  }

  /** Of a collection both lists show as many processes as were read, up to the limit, and never
      more than ten. */
  lemma ListLengths(list: seq<Sample>, b: seq<Sample>, limit: nat, le: (Sample, Sample) -> bool)
    requires IsTopK(list, multiset(b), ListLength(limit), le)
    ensures |list| <= limit && |list| <= 10 && |list| <= |b|
    ensures |list| == limit || |list| == 10 || |list| == |b|
  {
    assert |multiset(b)| == |b|;
  }

  /** Between two readings of the system's ticks, the share of the CPU times theirs is 100 times the
      ticks of the process; it is zero in a first collection, of an unknown process, and where either
      counter has not moved on. */
  lemma ShareMeans(r: Reading, prev: Option<Sample>, last: u64, now: u64)
    ensures var x := CpuPct(r, prev, TickDelta(last, now), last == 0);
            if last > 0 && now > last && prev.Some? && r.ticks >= prev.value.ticks
            then x >= 0.0 && x * (now - last) as real == 100.0 * (r.ticks - prev.value.ticks) as real
            else x == 0.0
  {
    if last > 0 && now > last && prev.Some? && r.ticks >= prev.value.ticks {
      Quotient(100.0 * (r.ticks - prev.value.ticks) as real, (now - last) as real);
    }
  }

  lemma Quotient(a: real, t: real)
    requires a >= 0.0 && t > 0.0
    ensures a / t * t == a && a / t >= 0.0 && (a == 0.0 ==> a / t == 0.0)
  {
    assert a / t * t == a;
  }

  lemma PrefixLeaves(r: seq<Sample>, s: seq<Sample>, n: nat)
    requires multiset(r) == multiset(s) && n <= |r| == |s|
    ensures multiset(s) - multiset(r[..n]) == multiset(r[n..]) && multiset(r[..n]) <= multiset(s)
    ensures |multiset(s)| == |r|
  {
    assert r == r[..n] + r[n..];
  }

  /** However many processes there are, the list begins with one of maximal CPU share. */
  lemma TopIsBusiest(bs: seq<seq<Sample>>, xs: seq<Sample>, top: seq<Sample>, k: nat, i: nat)
    requires Fed(bs, xs) && (forall x :: x in xs ==> x.valid) && i < |xs|
    requires k > 0 && IsTopK(top, multiset(bs[|xs|]), k, ByCpu)
    ensures top != [] && top[0].cpuPct >= xs[i].cpuPct
  {
    var y := BusiestKept(bs, xs, i, |xs|);
    FedValid(bs, xs, |xs|);
    var all := multiset(bs[|xs|]);
    assert y in all;
    assert top[0] in multiset(top) && top[0] in all && top[0] in bs[|xs|];
    if y in multiset(top) {
      var j :| 0 <= j < |top| && top[j] == y;
      assert j > 0 ==> ByCpu(top[0], top[j]);
    } else {
      assert y in all - multiset(top) && ByCpu(top[0], y);
    }
  }

  // ----- processes over several collections -----

  /** What differs from one collection to the next. */
  datatype Round = Round(readings: seq<Reading>, tickDelta: u64, firstCall: bool)

  /** Contexts before and after collections: each holds what the buffer kept of the last one that
      read anything. */
  ghost predicate Collections(rounds: seq<Round>, cs: seq<seq<Sample>>, alpha: real) {
    && |cs| == |rounds| + 1
    && forall i :: 0 <= i < |rounds| ==> Collected(rounds[i], cs[i], cs[i + 1], alpha)
  }

  ghost predicate Collected(r: Round, c: seq<Sample>, d: seq<Sample>, alpha: real) {
    var xs := SamplesOf(r.readings, c, r.tickDelta, r.firstCall, alpha);
    if xs == [] then d == c
    else exists bs :: Fed(bs, xs) && multiset(d) == multiset(bs[|xs|])
  }

  predicate Reads(r: Round, pid: i32) {
    exists i :: 0 <= i < |r.readings| && r.readings[i].pid == pid
  }

  lemma {:induction false} FoundIsThere(s: seq<Sample>, pid: i32)
    ensures var p := FindPrev(s, pid);
            && (p.Some? ==> p.value in s && p.value.valid && p.value.pid == pid)
            && (p.None? ==> forall x :: x in s ==> !(x.valid && x.pid == pid))
  {
    if s != [] && !(s[0].valid && s[0].pid == pid) {
      FoundIsThere(s[1..], pid);
      assert s == [s[0]] + s[1..];
    }
  }

  /** And it is the first of them. */
  lemma {:induction false} FoundIsFirst(s: seq<Sample>, pid: i32) returns (k: nat)
    requires FindPrev(s, pid).Some?
    ensures k < |s| && s[k] == FindPrev(s, pid).value
    ensures forall j :: 0 <= j < k ==> !(s[j].valid && s[j].pid == pid)
  {
    if s[0].valid && s[0].pid == pid {
      k := 0;
    } else {
      k := FoundIsFirst(s[1..], pid);
      assert forall j :: 0 < j <= k ==> s[j] == s[1..][j - 1];
      k := k + 1;
    }
  }

  /** What a collection that reads anything keeps of a process is its new sample. */
  lemma KeptIsNew(r: Round, c: seq<Sample>, d: seq<Sample>, alpha: real, pid: i32) returns (i: nat)
    requires Collected(r, c, d, alpha) && r.readings != [] && FindPrev(d, pid).Some?
    ensures i < |r.readings| && r.readings[i].pid == pid
    ensures FindPrev(d, pid) == Some(SampleOf(r.readings[i], FindPrev(c, pid), r.tickDelta, r.firstCall, alpha))
  {
    var xs := SamplesOf(r.readings, c, r.tickDelta, r.firstCall, alpha);
    var bs :| Fed(bs, xs) && multiset(d) == multiset(bs[|xs|]);
    hide Fed, SampleOf;
    FedFits(bs, xs, |xs|);
    assert xs[..|xs|] == xs;
    FoundIsThere(d, pid);
    var x := FindPrev(d, pid).value;
    assert x in multiset(d) && x in multiset(xs) && x in xs;
    i :| 0 <= i < |xs| && xs[i] == x;
    SampleKeepsPid(r.readings[i], FindPrev(c, r.readings[i].pid), r.tickDelta, r.firstCall, alpha);
  }

  lemma SampleKeepsPid(r: Reading, prev: Option<Sample>, tickDelta: u64, firstCall: bool, alpha: real)
    ensures SampleOf(r, prev, tickDelta, firstCall, alpha).pid == r.pid
  {
  }

  /** A process that was unknown before round `i`, and in every round since has been read and kept
      in the buffer, is known with the number of those rounds, up to 255, and counts as new only in
      the first of them, which starts its baseline. So one that the buffer drops starts over. */
  lemma {:induction false} CountsRounds(rounds: seq<Round>, cs: seq<seq<Sample>>, alpha: real, pid: i32, i: nat, n: nat)
    requires Collections(rounds, cs, alpha) && i < n <= |rounds|
    requires FindPrev(cs[i], pid).None?
    requires forall k :: i <= k < n ==> Reads(rounds[k], pid) && FindPrev(cs[k + 1], pid).Some?
    ensures var p := FindPrev(cs[n], pid);
            && p.Some? && p.value.sampleCount == (if n - i < 255 then n - i else 255)
            && (p.value.isNew <==> n == i + 1)
            && (n == i + 1 ==> p.value.baselinePct == p.value.cpuPct)
    decreases n
  {
    hide Collected;
    if n > i + 1 {
      CountsRounds(rounds, cs, alpha, pid, i, n - 1);
    }
    assert Reads(rounds[n - 1], pid) && FindPrev(cs[n - 1 + 1], pid).Some?;
    var j := KeptIsNew(rounds[n - 1], cs[n - 1], cs[n], alpha, pid);
  }

  /** Up to 512 processes, all that are read are kept. */
  lemma SmallRoundKeeps(r: Round, c: seq<Sample>, d: seq<Sample>, alpha: real, pid: i32)
    requires Collected(r, c, d, alpha) && |r.readings| <= 512 && Reads(r, pid)
    ensures FindPrev(d, pid).Some?
  {
    var i :| 0 <= i < |r.readings| && r.readings[i].pid == pid;
    var xs := SamplesOf(r.readings, c, r.tickDelta, r.firstCall, alpha);
    var bs :| Fed(bs, xs) && multiset(d) == multiset(bs[|xs|]);
    hide Fed;
    FedFits(bs, xs, |xs|);
    assert xs[..|xs|] == xs;
    assert xs[i] in multiset(d) && xs[i].pid == pid && xs[i].valid;
    FoundIsThere(d, pid);
  }

  /** Beyond that some are dropped: of a first collection, where no process has a share of the CPU
      yet, exactly the first 512 are kept. */
  lemma {:induction false} FirstRoundKeeps(r: Round, c: seq<Sample>, alpha: real, bs: seq<seq<Sample>>, n: nat)
    requires r.firstCall && n <= |r.readings|
    requires Fed(bs, SamplesOf(r.readings, c, r.tickDelta, r.firstCall, alpha))
    ensures bs[n] == SamplesOf(r.readings, c, r.tickDelta, r.firstCall, alpha)[..if n < 512 then n else 512]
    decreases n
  {
    var xs := SamplesOf(r.readings, c, r.tickDelta, r.firstCall, alpha);
    if n > 0 {
      FirstRoundKeeps(r, c, alpha, bs, n - 1);
      assert Offered(bs[n - 1], xs[n - 1], bs[n]);
      assert forall i :: 0 <= i < |xs| ==> xs[i].cpuPct == 0.0;
      hide SamplesOf, Fed;
    }
  }

  function ListLength(limit: nat): nat {
    if limit < MAX_PROCS then limit else MAX_PROCS
  }

  class Tracker {
    const samples: array<Sample>
    var count: nat
    var lastTotalTicks: u64
    var alpha: real
    var limit: nat

    ghost predicate Valid()
      reads this
    {
      samples.Length == MAX_TRACKED && count <= MAX_TRACKED
    }

    /** The samples of the previous collection. */
    function Context(): seq<Sample>
      reads this, samples
      requires Valid()
    {
      samples[..count]
    }

    constructor ()
      ensures Valid() && fresh(samples) && Context() == [] && lastTotalTicks == 0
      ensures alpha == 0.3 && limit == MAX_PROCS
    {
      samples := new Sample[MAX_TRACKED](_ => BLANK);
      count, lastTotalTicks, alpha, limit := 0, 0, 0.3, MAX_PROCS;
    }

    method FindPrevSample(pid: i32) returns (prev: Option<Sample>)
      requires Valid()
      ensures prev == FindPrev(Context(), pid)
    {
      for i := 0 to count
        invariant FindPrev(Context(), pid) == FindPrev(Context()[i..], pid)
      {
        assert Context()[i..][0] == samples[i] && Context()[i..][1..] == Context()[i + 1..];
        if samples[i].valid && samples[i].pid == pid {
          return Some(samples[i]);
        }
      }
      return None;
    }

    /** One collection. The lists are the top ones of what the buffer holds at the end, which is
        everything as long as there are no more than 512 processes. */
    method Collect(totalTicks: u64, rs: seq<Reading>)
      returns (top: seq<Sample>, topRss: seq<Sample>, ghost xs: seq<Sample>, ghost bs: seq<seq<Sample>>)
      requires Valid()
      modifies `count, `lastTotalTicks, samples
      ensures Valid() && lastTotalTicks == totalTicks
      ensures xs == SamplesOf(rs, old(Context()), TickDelta(old(lastTotalTicks), totalTicks), old(lastTotalTicks) == 0, alpha)
      ensures Fed(bs, xs) && Fits(bs[|xs|], xs)
      ensures IsTopK(top, multiset(bs[|xs|]), ListLength(limit), ByCpu)
      ensures IsTopK(topRss, multiset(bs[|xs|]), ListLength(limit), ByRss)
      ensures |rs| <= MAX_TRACKED ==>
                && IsTopK(top, multiset(xs), ListLength(limit), ByCpu)
                && IsTopK(topRss, multiset(xs), ListLength(limit), ByRss)
      ensures if rs == [] then Context() == old(Context()) else multiset(Context()) == multiset(bs[|xs|])
      ensures Collected(Round(rs, TickDelta(old(lastTotalTicks), totalTicks), old(lastTotalTicks) == 0),
                        old(Context()), Context(), alpha)
    {
      var tickDelta := TickDelta(lastTotalTicks, totalTicks);
      var firstCall := lastTotalTicks == 0;
      xs := SamplesOf(rs, Context(), tickDelta, firstCall, alpha);
      var curr: array<Sample>, n: nat;
      curr, n, bs := Fill(rs, tickDelta, firstCall, xs);
      FedFits(bs, xs, |xs|);
      assert xs[..|xs|] == xs;
      ghost var b := bs[|xs|];
      assert n == 0 <==> rs == [];
      assert |rs| <= MAX_TRACKED ==> b == xs;
      hide Fed, IsTopK, Fits, SamplesOf, TotalOrder, ListLength, TickDelta, Collected;
      ghost var round, c := Round(rs, tickDelta, firstCall), Context();
      if n == 0 {
        top, topRss := [], [];
        NothingOnTop(ListLength(limit));
        assert b == [];
        lastTotalTicks := totalTicks;
        CollectedBy(round, c, Context(), alpha, bs);
        return;
      }
      ComparisonsAreOrders();
      top := TopOf(curr, n, ListLength(limit), ByCpu);
      topRss := TopOf(curr, n, ListLength(limit), ByRss);
      Remember(curr, n);
      lastTotalTicks := totalTicks;
      CollectedBy(round, c, Context(), alpha, bs);
    }

    method Remember(curr: array<Sample>, n: nat)
      requires Valid() && curr != samples && n <= curr.Length && n <= MAX_TRACKED
      modifies `count, samples
      ensures Valid() && Context() == curr[..n]
    {
      for i := 0 to n
        invariant samples[..i] == curr[..i]
      {
        samples[i] := curr[i];
      }
      count := n;
    }

    /** The scan over all processes. */
    method Fill(rs: seq<Reading>, tickDelta: u64, firstCall: bool, ghost xs: seq<Sample>)
      returns (curr: array<Sample>, n: nat, ghost bs: seq<seq<Sample>>)
      requires Valid() && xs == SamplesOf(rs, Context(), tickDelta, firstCall, alpha)
      ensures fresh(curr) && curr.Length == MAX_TRACKED && n <= MAX_TRACKED
      ensures Fed(bs, xs) && curr[..n] == bs[|xs|]
    {
      curr := new Sample[MAX_TRACKED](_ => BLANK);
      n := 0;
      bs := [[]];
      ComparisonsAreOrders();
      for i := 0 to |rs|
        invariant n <= MAX_TRACKED && |bs| == i + 1 && bs[0] == []
        invariant forall j :: 0 <= j < i ==> Offered(bs[j], xs[j], bs[j + 1])
        invariant curr[..n] == bs[i]
      {
        var prev := FindPrevSample(rs[i].pid);
        var sample := SampleOf(rs[i], prev, tickDelta, firstCall, alpha);
        n := Offer(curr, n, sample);
        bs := bs + [curr[..n]];
      }
    }
  }

  const BLANK: Sample := Sample(0, 0, 0, '\0', "", 0, 0, 0.0, 0.0, 0, false, false)

  /** No ticks pass when the counter has not grown. */
  function TickDelta(last: u64, now: u64): u64 {
    if now > last then now - last else 0
  }

  lemma CollectedBy(r: Round, c: seq<Sample>, d: seq<Sample>, alpha: real, bs: seq<seq<Sample>>)
    requires var xs := SamplesOf(r.readings, c, r.tickDelta, r.firstCall, alpha);
             Fed(bs, xs) && if xs == [] then d == c else multiset(d) == multiset(bs[|xs|])
    ensures Collected(r, c, d, alpha)
  {
  }

  lemma NothingOnTop(k: nat)
    ensures IsTopK([], multiset([]), k, ByCpu) && IsTopK([], multiset([]), k, ByRss)
  {
  }

  /** Sorts what is in the buffer and copies the first ones. */
  method TopOf(curr: array<Sample>, n: nat, k: nat, le: (Sample, Sample) -> bool) returns (top: seq<Sample>)
    requires n <= curr.Length && TotalOrder(le)
    modifies curr
    ensures multiset(curr[..n]) == old(multiset(curr[..n]))
    ensures IsTopK(top, multiset(curr[..n]), k, le)
  {
    ghost var b := curr[..n];
    QSort(curr, n, le);
    TopOfSort(curr[..n], b, k, le);
    var copied := if n < k then n else k;
    top := curr[..copied];
    assert curr[..n][..copied] == top;
  }

  /** Stores a sample if there is room or it is busier than the one in the last slot. */
  method Offer(curr: array<Sample>, n: nat, x: Sample) returns (m: nat)
    requires curr.Length == MAX_TRACKED && n <= MAX_TRACKED
    modifies curr
    ensures m <= MAX_TRACKED && Offered(old(curr[..n]), x, curr[..m])
  {
    m := n;
    ghost var b := curr[..n];
    if n < MAX_TRACKED {
      curr[n] := x;
      m := n + 1;
      assert curr[..m] == b + [x];
    } else if x.cpuPct > curr[MAX_TRACKED - 1].cpuPct {
      curr[MAX_TRACKED - 1] := x;
      assert curr[..n] == b[MAX_TRACKED - 1 := x];
      ComparisonsAreOrders();
      QSort(curr, MAX_TRACKED, ByCpu);
    }
  }
}
