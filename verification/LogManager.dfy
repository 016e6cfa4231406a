/** Retention of dump files: by age, by number, by total size. */
module LogManager {
  import opened Snapshots
  import opened Sorting

  const SECONDS_PER_DAY: int := 86400
  const NS_PER_MINUTE: int := 60_000_000_000
  const BYTES_PER_MIB: int := 1048576

  /** The largest size that fits the signed number the file system gives it in. */
  const MAX_SIZE: u64 := 9223372036854775807

  datatype FileInfo = FileInfo(path: string, mtime: int, size: u64, valid: bool)

  /** What deleting a file comes to; one that is already gone counts as deleted. */
  datatype Outcome = Deleted | InUse | Failed

  type Deleter = string -> Outcome

  // ----- order -----

  function CompareAsc(a: FileInfo, b: FileInfo): int {
    if !a.valid && !b.valid then 0
    else if !a.valid then 1
    else if !b.valid then -1
    else if a.mtime < b.mtime then -1
    else if a.mtime > b.mtime then 1
    else 0
  }

  function CompareDesc(a: FileInfo, b: FileInfo): int {
    -CompareAsc(a, b)
  }

  const OldestFirst: (FileInfo, FileInfo) -> bool := (a, b) => CompareAsc(a, b) <= 0
  const NewestFirst: (FileInfo, FileInfo) -> bool := (a, b) => CompareDesc(a, b) <= 0

  /** Both comparisons are orders, as the library sort needs them. */
  lemma ComparisonsAreOrders()
    ensures TotalOrder(OldestFirst) && TotalOrder(NewestFirst)
  {
  }

  // ----- sums over files -----

  /** What is added up: the size of the files that exist, or their number. */
  datatype Measure = Bytes | Alive

  function Weight(f: FileInfo, w: Measure): nat {
    if !f.valid then 0 else if w.Bytes? then f.size else 1
  }

  function Sum(s: seq<FileInfo>, w: Measure): nat {
    if s == [] then 0 else Sum(s[..|s| - 1], w) + Weight(s[|s| - 1], w)
  }

  lemma {:induction false} SumAppend(s: seq<FileInfo>, t: seq<FileInfo>, w: Measure)
    ensures Sum(s + t, w) == Sum(s, w) + Sum(t, w)
    decreases |t|
  {
    if t == [] {
      assert s + t == s;
    } else {
      var n := |t| - 1;
      assert (s + t)[..|s + t| - 1] == s + t[..n];
      SumAppend(s, t[..n], w);
    }
  }

  lemma SumUpdate(s: seq<FileInfo>, k: nat, x: FileInfo, w: Measure)
    requires k < |s|
    ensures Sum(s[k := x], w) == Sum(s, w) - Weight(s[k], w) + Weight(x, w)
  {
    assert s == s[..k] + [s[k]] + s[k + 1..];
    assert s[k := x] == s[..k] + [x] + s[k + 1..];
    SumAppend(s[..k] + [s[k]], s[k + 1..], w);
    SumAppend(s[..k] + [x], s[k + 1..], w);
    SumAppend(s[..k], [s[k]], w);
    SumAppend(s[..k], [x], w);
    assert Sum([x], w) == Sum([], w) + Weight(x, w);
    assert Sum([s[k]], w) == Sum([], w) + Weight(s[k], w);
  }

  /** Sorting changes no sum. */
  lemma {:induction false} SumOfSort(s: seq<FileInfo>, t: seq<FileInfo>, w: Measure)
    requires multiset(s) == multiset(t)
    ensures Sum(s, w) == Sum(t, w)
    decreases |s|
  {
    if s == [] {
      assert |multiset(t)| == 0;
    } else {
      var n := |s| - 1;
      assert s[n] in multiset(s);
      var k :| 0 <= k < |t| && t[k] == s[n];
      Without(s, n, w);
      Without(t, k, w);
      SumOfSort(s[..n] + s[n + 1..], t[..k] + t[k + 1..], w);
    }
  }

  lemma Without(s: seq<FileInfo>, k: nat, w: Measure)
    requires k < |s|
    ensures multiset(s[..k] + s[k + 1..]) == multiset(s) - multiset{s[k]}
    ensures Sum(s, w) == Sum(s[..k] + s[k + 1..], w) + Weight(s[k], w)
  {
    assert s == s[..k] + [s[k]] + s[k + 1..];
    SumAppend(s[..k], s[k + 1..], w);
    SumAppend(s[..k] + [s[k]], s[k + 1..], w);
    SumAppend(s[..k], [s[k]], w);
    assert Sum([s[k]], w) == Sum([], w) + Weight(s[k], w);
  }

  // ----- what a sweep does -----

  predicate Goes(f: FileInfo, del: Deleter) {
    f.valid && del(f.path).Deleted?
  }

  /** A file after the attempt to delete it. */
  function After(f: FileInfo, del: Deleter): FileInfo {
    if Goes(f, del) then f.(valid := false) else f
  }

  /** The files after attempts on those from index `a` up to, but without, `b`. */
  function Swept(s: seq<FileInfo>, a: nat, b: nat, del: Deleter): (r: seq<FileInfo>)
    ensures |r| == |s|
  {
    seq(|s|, i requires 0 <= i < |s| => if a <= i < b then After(s[i], del) else s[i])
  }

  /** What a sweep over all of `s` takes away. */
  function Reclaimed(s: seq<FileInfo>, w: Measure, del: Deleter): nat {
    if s == [] then 0
    else Reclaimed(s[..|s| - 1], w, del) + ReclaimedOf(s[|s| - 1], w, del)
  }

  function ReclaimedOf(f: FileInfo, w: Measure, del: Deleter): nat {
    if Goes(f, del) then Weight(f, w) else 0
  }

  /** What remains and what was deleted add up to what was there. */
  lemma {:induction false} SweepConserves(s: seq<FileInfo>, a: nat, b: nat, del: Deleter, w: Measure)
    requires a <= b <= |s|
    ensures Sum(Swept(s, a, b, del), w) + Reclaimed(s[a..b], w, del) == Sum(s, w)
    decreases b - a
  {
    hide Sum, Swept;
    if a == b {
      NothingSwept(s, a, del);
    } else {
      SweepConserves(s, a, b - 1, del, w);
      SweepStep(s, a, b - 1, del, w);
      assert s[a..b][..b - a - 1] == s[a..b - 1];
    }
  }

  lemma SweepStep(s: seq<FileInfo>, a: nat, b: nat, del: Deleter, w: Measure)
    requires a <= b < |s|
    ensures Swept(s, a, b + 1, del) == Swept(s, a, b, del)[b := After(s[b], del)]
    ensures Swept(s, a, b, del)[b] == s[b]
    ensures Sum(Swept(s, a, b + 1, del), w) + ReclaimedOf(s[b], w, del) == Sum(Swept(s, a, b, del), w)
  {
    assert Swept(s, a, b + 1, del) == Swept(s, a, b, del)[b := After(s[b], del)];
    SumUpdate(Swept(s, a, b, del), b, After(s[b], del), w);
  }

  /** The same step where a sweep goes down from the end. */
  lemma SweepStepDown(s: seq<FileInfo>, a: nat, del: Deleter, w: Measure)
    requires a < |s|
    ensures Swept(s, a, |s|, del) == Swept(s, a + 1, |s|, del)[a := After(s[a], del)]
    ensures Swept(s, a + 1, |s|, del)[a] == s[a]
    ensures Sum(Swept(s, a, |s|, del), w) + ReclaimedOf(s[a], w, del) == Sum(Swept(s, a + 1, |s|, del), w)
  {
    assert Swept(s, a, |s|, del) == Swept(s, a + 1, |s|, del)[a := After(s[a], del)];
    SumUpdate(Swept(s, a + 1, |s|, del), a, After(s[a], del), w);
  }

  lemma NothingSwept(s: seq<FileInfo>, a: nat, del: Deleter)
    ensures Swept(s, a, a, del) == s
  {
  }

  // ----- retention by total size -----

  /** The files in the order of the sweep, and how many of them it tried: oldest first, only while
      the total is too large, and until it is not. */
  ghost predicate SizeSweep(s: seq<FileInfo>, m: nat, before: seq<FileInfo>, after: seq<FileInfo>, limit: nat, del: Deleter) {
    && IsSortOf(s, before, OldestFirst) && m <= |s|
    && after == Swept(s, 0, m, del)
    && (forall k :: 0 <= k < m ==> Sum(Swept(s, 0, k, del), Bytes) > limit)
    && (m == |s| || Sum(after, Bytes) <= limit)
  }

  ghost predicate PrunedBySize(before: seq<FileInfo>, after: seq<FileInfo>, limit: nat, del: Deleter) {
    if Sum(before, Bytes) <= limit then after == before
    else exists s, m :: SizeSweep(s, m, before, after, limit, del)
  }

  /** By size: freed and remaining bytes add up to the scanned total; no file that was tried is
      newer than one that was not; the last deletion was still needed; and the total ends within
      the limit unless no remaining file could be deleted. */
  lemma SizeGuarantee(before: seq<FileInfo>, after: seq<FileInfo>, limit: nat, del: Deleter)
    returns (s: seq<FileInfo>, m: nat)
    requires PrunedBySize(before, after, limit, del) && Sum(before, Bytes) > limit
    ensures SizeSweep(s, m, before, after, limit, del)
    ensures Sum(after, Bytes) + Reclaimed(s[..m], Bytes, del) == Sum(before, Bytes)
    ensures forall i, j :: 0 <= i < m <= j < |s| && s[i].valid && s[j].valid ==> s[i].mtime <= s[j].mtime
    ensures forall i :: 0 <= i < m && Goes(s[i], del) && (forall j :: i < j < m ==> !Goes(s[j], del)) ==>
              Sum(after, Bytes) + s[i].size > limit
    ensures Sum(after, Bytes) <= limit || forall f :: f in after ==> !Goes(f, del)
  {
    s, m :| SizeSweep(s, m, before, after, limit, del);
    SumOfSort(s, before, Bytes);
    SweepConserves(s, 0, m, del, Bytes);
    assert s[0..m] == s[..m];
    forall i | 0 <= i < m && Goes(s[i], del) && (forall j :: i < j < m ==> !Goes(s[j], del))
      ensures Sum(after, Bytes) + s[i].size > limit
    {
      LastDeletionNeeded(s, i, m, del);
    }
    assert forall i, j :: 0 <= i < m <= j < |s| ==> OldestFirst(s[i], s[j]);
    if m == |s| {
      assert forall f :: f in after ==> exists i :: 0 <= i < |s| && f == After(s[i], del);
    }
  }

  /** With nothing deleted after it, the deletion of file `i` took the total from above the limit
      to what remains. */
  lemma LastDeletionNeeded(s: seq<FileInfo>, i: nat, m: nat, del: Deleter)
    requires i < m <= |s| && Goes(s[i], del) && forall j :: i < j < m ==> !Goes(s[j], del)
    ensures Sum(Swept(s, 0, m, del), Bytes) + s[i].size == Sum(Swept(s, 0, i, del), Bytes)
  {
    SweepStep(s, 0, i, del, Bytes);
    assert Swept(s, 0, i + 1, del) == Swept(s, 0, m, del);
  }

  // The code adds sizes up in 64 bits.

  function Wrapped(n: nat): u64 {
    n % TWO_64
  }

  function FreedBy(s: seq<FileInfo>, k: nat, del: Deleter): nat
    requires k <= |s|
  {
    Reclaimed(s[..k], Bytes, del)
  }

  /** A sweep that goes on while the bytes freed, as they are added up, are too few. */
  ghost predicate TotalSweep(s: seq<FileInfo>, m: nat, before: seq<FileInfo>, after: seq<FileInfo>, total: nat, limit: nat, del: Deleter) {
    && IsSortOf(s, before, OldestFirst) && m <= |s|
    && after == Swept(s, 0, m, del)
    && (forall k: nat :: k < m ==> Wrapped(FreedBy(s, k, del)) < total - limit)
    && (m == |s| || Wrapped(FreedBy(s, m, del)) >= total - limit)
  }

  ghost predicate PrunedByTotal(before: seq<FileInfo>, after: seq<FileInfo>, limit: nat, del: Deleter) {
    var total := Wrapped(Sum(before, Bytes));
    if total <= limit then after == before
    else exists s, m :: TotalSweep(s, m, before, after, total, limit, del)
  }

  lemma SweepsAgree(
    s: seq<FileInfo>, m: nat, before: seq<FileInfo>, after: seq<FileInfo>, limit: nat, del: Deleter)
    requires limit < Sum(before, Bytes) < TWO_64
    ensures SizeSweep(s, m, before, after, limit, del)
       <==> TotalSweep(s, m, before, after, Sum(before, Bytes), limit, del)
  {
    hide Sum, Swept, IsSortOf, Reclaimed;
    if IsSortOf(s, before, OldestFirst) && m <= |s| {
      SortedSum(s, before);
      forall k: nat | k <= m
        ensures FreedBy(s, k, del) + Sum(Swept(s, 0, k, del), Bytes) == Sum(before, Bytes)
        ensures Wrapped(FreedBy(s, k, del)) == FreedBy(s, k, del)
      {
        SweepConserves(s, 0, k, del, Bytes);
        assert s[0..k] == s[..k];
      }
    }
  }

  lemma SortedSum(s: seq<FileInfo>, before: seq<FileInfo>)
    requires IsSortOf(s, before, OldestFirst)
    ensures Sum(s, Bytes) == Sum(before, Bytes)
  {
    SumOfSort(s, before, Bytes);
  }

  /** Below 2^64 bytes this is the pruning that is meant. */
  lemma SmallTotalsAgree(before: seq<FileInfo>, after: seq<FileInfo>, limit: nat, del: Deleter)
    requires Sum(before, Bytes) < TWO_64
    ensures PrunedByTotal(before, after, limit, del) <==> PrunedBySize(before, after, limit, del)
  {
    hide Sum, SizeSweep, TotalSweep;
    assert Wrapped(Sum(before, Bytes)) == Sum(before, Bytes);
    if Sum(before, Bytes) > limit {
      forall s, m: nat
        ensures SizeSweep(s, m, before, after, limit, del)
           <==> TotalSweep(s, m, before, after, Sum(before, Bytes), limit, del)
      {
        SweepsAgree(s, m, before, after, limit, del);
      }
    }
  }

  /** From there on the total stays above the limit, as long as no single file takes the freed
      bytes past 2^64: they are compared with what is left of the total's multiples of that. */
  lemma LargeTotalsStay(before: seq<FileInfo>, after: seq<FileInfo>, limit: nat, del: Deleter, most: nat)
    requires PrunedByTotal(before, after, limit, del) && SizesUpTo(before, most)
    requires Sum(before, Bytes) >= TWO_64 > limit && Wrapped(Sum(before, Bytes)) + most <= TWO_64 + limit
    ensures Sum(after, Bytes) > limit
  {
    hide Sum, Swept, IsSortOf, Reclaimed, FreedBy;
    var total := Wrapped(Sum(before, Bytes));
    if total > limit {
      var s, m :| TotalSweep(s, m, before, after, total, limit, del);
      SortedSum(s, before);
      SweepConserves(s, 0, m, del, Bytes);
      SortedSizes(s, before, most);
      FreedIsBounded(s, m, total - limit, del, most);
      FreedIs(s, m, del);
    }
  }

  predicate SizesUpTo(fs: seq<FileInfo>, most: nat) {
    forall f :: f in fs ==> f.size <= most
  }

  lemma FreedIs(s: seq<FileInfo>, m: nat, del: Deleter)
    requires m <= |s|
    ensures FreedBy(s, m, del) == Reclaimed(s[0..m], Bytes, del)
  {
    assert s[..m] == s[0..m];
  }

  lemma SortedSizes(s: seq<FileInfo>, before: seq<FileInfo>, most: nat)
    requires IsSortOf(s, before, OldestFirst) && SizesUpTo(before, most)
    ensures SizesUpTo(s, most)
  {
    forall f | f in s
      ensures f.size <= most
    {
      assert f in multiset(s) && f in multiset(before);
    }
  }

  /** The last deletion frees no more than one file. */
  lemma {:induction false} FreedIsBounded(s: seq<FileInfo>, m: nat, goal: nat, del: Deleter, most: nat)
    requires m <= |s| && SizesUpTo(s, most) && 0 < goal && goal + most <= TWO_64
    requires forall k: nat :: k < m ==> Wrapped(FreedBy(s, k, del)) < goal
    ensures FreedBy(s, m, del) < goal + most
  {
    if m > 0 {
      FreedIsBounded(s, m - 1, goal, del, most);
      assert s[..m][..m - 1] == s[..m - 1];
      assert Wrapped(FreedBy(s, m - 1, del)) < goal;
    }
  }

  /** So where every file can be deleted, pruning meets the limit exactly below 2^64 bytes. */
  lemma SizeMetExactly(before: seq<FileInfo>, after: seq<FileInfo>, limit: nat, del: Deleter, most: nat)
    requires PrunedByTotal(before, after, limit, del) && SizesUpTo(before, most) && limit < TWO_64
    requires Sum(before, Bytes) >= TWO_64 ==> Wrapped(Sum(before, Bytes)) + most <= TWO_64 + limit
    requires forall f :: f in before && f.valid ==> Goes(f, del)
    ensures Sum(after, Bytes) <= limit <==> Sum(before, Bytes) < TWO_64
  {
    hide Sum, Swept, IsSortOf, PrunedByTotal, PrunedBySize, SizeSweep;
    if Sum(before, Bytes) >= TWO_64 {
      LargeTotalsStay(before, after, limit, del, most);
    } else {
      SmallTotalsAgree(before, after, limit, del);
      SmallTotalMet(before, after, limit, del);
    }
  }

  lemma SmallTotalMet(before: seq<FileInfo>, after: seq<FileInfo>, limit: nat, del: Deleter)
    requires PrunedBySize(before, after, limit, del)
    requires forall f :: f in before && f.valid ==> Goes(f, del)
    ensures Sum(after, Bytes) <= limit
  {
    hide Sum, Swept, IsSortOf;
    if Sum(before, Bytes) > limit {
      var s, m := SizeGuarantee(before, after, limit, del);
      if Sum(after, Bytes) > limit {
        AllGone(s, before, m, after, del);
      }
    }
  }

  lemma AllGone(s: seq<FileInfo>, before: seq<FileInfo>, m: nat, after: seq<FileInfo>, del: Deleter)
    requires IsSortOf(s, before, OldestFirst) && m == |s| && after == Swept(s, 0, m, del)
    requires forall f :: f in before && f.valid ==> Goes(f, del)
    ensures Sum(after, Bytes) == 0
  {
    hide Sum;
    forall f | f in after
      ensures !f.valid
    {
      var i :| 0 <= i < |after| && f == after[i];
      assert s[i] in multiset(s) && s[i] in multiset(before);
    }
    NoneCount(after);
  }

  lemma {:induction false} NoneCount(fs: seq<FileInfo>)
    requires forall f :: f in fs ==> !f.valid
    ensures Sum(fs, Bytes) == 0
  {
    if fs != [] {
      NoneCount(fs[..|fs| - 1]);
    }
  }

  /** Three files of 2^64 bytes together all stay, under any limit. */
  lemma LargeTotalsWrap(limit: nat, del: Deleter)
    ensures var fs := [FileInfo("a", 0, MAX_SIZE, true), FileInfo("b", 0, MAX_SIZE, true), FileInfo("c", 0, 2, true)];
            Sum(fs, Bytes) == TWO_64 && PrunedByTotal(fs, fs, limit, del)
  {
    var a, b, c := FileInfo("a", 0, MAX_SIZE, true), FileInfo("b", 0, MAX_SIZE, true), FileInfo("c", 0, 2, true);
    assert [a, b, c][..2] == [a, b] && [a, b][..1] == [a] && [a][..0] == [];
    assert Sum([a], Bytes) == MAX_SIZE && Sum([a, b], Bytes) == 2 * MAX_SIZE;
    assert Wrapped(TWO_64) == 0;
  }

  // ----- retention by number -----

  ghost predicate PrunedByCount(before: seq<FileInfo>, after: seq<FileInfo>, max: nat, del: Deleter) {
    if |before| <= max then after == before
    else exists s :: IsSortOf(s, before, NewestFirst) && after == Swept(s, max, |s|, del)
  }

  lemma {:induction false} AllReclaimed(s: seq<FileInfo>, del: Deleter)
    ensures Reclaimed(s, Alive, del) <= |s|
    ensures Reclaimed(s, Alive, del) == |s| <==> forall f :: f in s ==> Goes(f, del)
  {
    if s != [] {
      var n := |s| - 1;
      AllReclaimed(s[..n], del);
      assert forall f :: f in s <==> f in s[..n] || f == s[n];
    }
  }

  lemma {:induction false} AllAlive(s: seq<FileInfo>)
    requires forall f :: f in s ==> f.valid
    ensures Sum(s, Alive) == |s|
  {
    if s != [] {
      AllAlive(s[..|s| - 1]);
    }
  }

  /** By number: each of the `max` files kept is as new as every file tried; of existing files no
      fewer than `max` remain, and exactly `max` when all deletions succeed and only then. */
  lemma CountGuarantee(before: seq<FileInfo>, after: seq<FileInfo>, max: nat, del: Deleter)
    returns (s: seq<FileInfo>)
    requires PrunedByCount(before, after, max, del) && |before| > max
    requires forall f :: f in before ==> f.valid
    ensures IsSortOf(s, before, NewestFirst) && after == Swept(s, max, |s|, del)
    ensures forall i, j :: 0 <= i < max <= j < |s| ==> s[i].mtime >= s[j].mtime
    ensures Sum(after, Alive) >= max
    ensures Sum(after, Alive) == max <==> forall f :: f in s[max..] ==> del(f.path).Deleted?
  {
    s :| IsSortOf(s, before, NewestFirst) && after == Swept(s, max, |s|, del);
    SortKeeps(s, before, NewestFirst, (f: FileInfo) => f.valid);
    assert forall i, j :: 0 <= i < max <= j < |s| ==> NewestFirst(s[i], s[j]);
    assert |s| == |before|;
    hide Ordered, IsSortOf;
    CountLeft(s, max, del);
  }

  lemma CountLeft(s: seq<FileInfo>, max: nat, del: Deleter)
    requires max <= |s| && forall f :: f in s ==> f.valid
    ensures Sum(Swept(s, max, |s|, del), Alive) >= max
    ensures Sum(Swept(s, max, |s|, del), Alive) == max <==> forall f :: f in s[max..] ==> del(f.path).Deleted?
  {
    AllAlive(s);
    SweepConserves(s, max, |s|, del, Alive);
    AllReclaimed(s[max..], del);
    assert s[max..|s|] == s[max..];
    assert forall f :: f in s[max..] ==> f in s;
  }

  // ----- retention by age -----

  /** Exactly the files that are too old are tried, where they are. */
  ghost predicate PrunedByAge(before: seq<FileInfo>, after: seq<FileInfo>, maxAgeDays: nat, now: int, del: Deleter) {
    && |after| == |before|
    && forall i :: 0 <= i < |after| ==>
         var f := before[i];
         after[i] == if now - f.mtime > maxAgeDays * SECONDS_PER_DAY then After(f, del) else f
  }

  /** By age: every file that remains is no older than the limit, unless it cannot be deleted, and
      every file that is no older remains. */
  lemma AgeGuarantee(before: seq<FileInfo>, after: seq<FileInfo>, maxAgeDays: nat, now: int, del: Deleter)
    requires PrunedByAge(before, after, maxAgeDays, now, del)
    ensures |after| == |before|
    ensures forall i :: 0 <= i < |after| && now - before[i].mtime <= maxAgeDays * 24 * 60 * 60 ==> after[i] == before[i]
    ensures forall i :: 0 <= i < |after| && now - before[i].mtime > maxAgeDays * 24 * 60 * 60 ==>
              (after[i].valid <==> before[i].valid && !del(before[i].path).Deleted?)
  {
  }

  // ----- the sweeps over the scanned files -----

  /** Deletes the files older than a number of days. */
  method CleanupByAge(files: array<FileInfo>, count: nat, maxAgeDays: u32, now: int, del: Deleter) returns (deleted: nat)
    requires count <= files.Length
    modifies files
    ensures PrunedByAge(old(files[..count]), files[..count], maxAgeDays, now, del)
    ensures files[count..] == old(files[count..])
    ensures deleted + Sum(files[..count], Alive) == Sum(old(files[..count]), Alive)
  {
    ghost var before := files[..count];
    var maxAgeSeconds := maxAgeDays * SECONDS_PER_DAY;
    deleted := 0;
    var i := 0;
    while i < count
      invariant i <= count && files[count..] == old(files[count..])
      invariant forall k :: 0 <= k < i ==>
                  var f := before[k];
                  files[k] == if now - f.mtime > maxAgeSeconds then After(f, del) else f
      invariant forall k :: i <= k < count ==> files[k] == before[k]
      invariant deleted + Sum(files[..count], Alive) == Sum(before, Alive)
    {
      if files[i].valid && now - files[i].mtime > maxAgeSeconds && del(files[i].path).Deleted? {
        SumUpdate(files[..count], i, files[i].(valid := false), Alive);
        ghost var s := files[..count];
        files[i] := files[i].(valid := false);
        assert files[..count] == s[i := s[i].(valid := false)];
        deleted := deleted + 1;
      }
      i := i + 1;
    }
  }

  /** Keeps the newest files. */
  method CleanupByCount(files: array<FileInfo>, count: nat, maxCount: u32, del: Deleter) returns (deleted: nat)
    requires count <= files.Length
    modifies files
    ensures PrunedByCount(old(files[..count]), files[..count], maxCount, del)
    ensures deleted + Sum(files[..count], Alive) == Sum(old(files[..count]), Alive)
  {
    ghost var before := files[..count];
    deleted := 0;
    if count <= maxCount {
      return;
    }
    ComparisonsAreOrders();
    QSort(files, count, NewestFirst);
    ghost var s := files[..count];
    SumOfSort(s, before, Alive);
    hide Sum, Swept, IsSortOf, TotalOrder, NewestFirst;
    deleted := DeleteLast(files, count, count - maxCount, del);
  }

  /** Tries to delete the last of the sorted files. */
  method DeleteLast(files: array<FileInfo>, count: nat, toDelete: nat, del: Deleter) returns (deleted: nat)
    requires toDelete <= count <= files.Length
    modifies files
    ensures var s, r := old(files[..count]), files[..count];
            r == Swept(s, count - toDelete, count, del) && deleted + Sum(r, Alive) == Sum(s, Alive)
  {
    ghost var s := files[..count];
    NothingSwept(s, count, del);
    hide Sum, Swept;
    deleted := 0;
    var i := 0;
    while i < toDelete
      invariant i <= toDelete
      invariant files[..count] == Swept(s, count - i, count, del)
      invariant deleted + Sum(files[..count], Alive) == Sum(s, Alive)
    {
      var k := count - 1 - i;
      ghost var t := files[..count];
      SweepStepDown(s, k, del, Alive);
      assert files[k] == t[k] == s[k];
      var gone := TryDelete(files, k, del);
      if gone {
        deleted := deleted + 1;
      }
      assert files[..count] == t[k := After(s[k], del)];
      i := i + 1;
    }
  }

  method TotalBytes(files: array<FileInfo>, count: nat) returns (total: nat)
    requires count <= files.Length
    ensures total == Wrapped(Sum(files[..count], Bytes))
  {
    total := 0;
    for i := 0 to count
      invariant total == Wrapped(Sum(files[..i], Bytes))
    {
      assert files[..i + 1][..i] == files[..i];
      WrappedSum(Sum(files[..i], Bytes), files[i].size);
      if files[i].valid {
        total := (total + files[i].size) % TWO_64;
      }
    }
  }

  lemma WrappedSum(a: nat, b: nat)
    ensures (Wrapped(a) + b) % TWO_64 == Wrapped(a + b)
  {
    assert a == a / TWO_64 * TWO_64 + a % TWO_64;
    SameRemainder(a % TWO_64 + b, a + b, a / TWO_64);
  }

  lemma SameRemainder(a: nat, b: nat, q: nat)
    requires b == a + q * TWO_64
    ensures a % TWO_64 == b % TWO_64
  {
  }

  /** Brings the total size under a limit. */
  method CleanupBySize(files: array<FileInfo>, count: nat, maxTotalMib: u32, del: Deleter) returns (deleted: nat)
    requires count <= files.Length
    modifies files
    ensures PrunedByTotal(old(files[..count]), files[..count], maxTotalMib * BYTES_PER_MIB, del)
    ensures deleted + Sum(files[..count], Alive) == Sum(old(files[..count]), Alive)
  {
    ghost var before := files[..count];
    deleted := 0;
    var totalBytes := TotalBytes(files, count);
    var maxBytes := maxTotalMib * BYTES_PER_MIB;
    if totalBytes <= maxBytes {
      return;
    }
    ComparisonsAreOrders();
    QSort(files, count, OldestFirst);
    ghost var s := files[..count];
    SumOfSort(s, before, Alive);
    hide Sum, Swept, IsSortOf, TotalOrder, OldestFirst, Wrapped, FreedBy;
    ghost var m;
    deleted, m := DeleteOldest(files, count, totalBytes - maxBytes, del);
    assert TotalSweep(s, m, before, files[..count], totalBytes, maxBytes, del);
  }

  /** Tries to delete one file, if it still exists. */
  method TryDelete(files: array<FileInfo>, i: nat, del: Deleter) returns (gone: bool)
    requires i < files.Length
    modifies files
    ensures gone == Goes(old(files[i]), del)
    ensures files[..] == old(files[..])[i := After(old(files[i]), del)]
  {
    gone := files[i].valid && del(files[i].path).Deleted?;
    if gone {
      files[i] := files[i].(valid := false);
    }
  }

  /** Deletes from the start of the sorted files until enough bytes are freed. */
  method DeleteOldest(files: array<FileInfo>, count: nat, bytesToFree: nat, del: Deleter) returns (deleted: nat, ghost m: nat)
    requires count <= files.Length
    modifies files
    ensures var s, r := old(files[..count]), files[..count];
            && m <= count && r == Swept(s, 0, m, del)
            && (forall k: nat :: k < m ==> Wrapped(FreedBy(s, k, del)) < bytesToFree)
            && (m == count || Wrapped(FreedBy(s, m, del)) >= bytesToFree)
            && deleted + Sum(r, Alive) == Sum(s, Alive)
  {
    ghost var s := files[..count];
    NothingSwept(s, 0, del);
    deleted := 0;
    var bytesFreed: nat := 0;
    var i := 0;
    assert Progress(s, 0, del, 0, 0, bytesToFree);
    hide Progress, Swept, After;
    while i < count && bytesFreed < bytesToFree
      invariant i <= count
      invariant files[..count] == Swept(s, 0, i, del)
      invariant Progress(s, i, del, bytesFreed, deleted, bytesToFree)
    {
      ghost var t := files[..count];
      ProgressStep(s, i, del, bytesFreed, deleted, bytesToFree);
      assert files[i] == t[i] == s[i];
      var gone := TryDelete(files, i, del);
      assert files[..count] == t[i := After(s[i], del)];
      if gone {
        SizeStays(s[i], del);
        bytesFreed := (bytesFreed + files[i].size) % TWO_64;
        deleted := deleted + 1;
      }
      i := i + 1;
    }
    m := i;
    ProgressMade(s, i, del, bytesFreed, deleted, bytesToFree);
  }

  /** Where a sweep for size is after `i` files: how much it freed and deleted, and that each
      attempt so far was made because too little had been freed. */
  ghost predicate Progress(s: seq<FileInfo>, i: nat, del: Deleter, freed: nat, deleted: nat, toFree: nat)
    requires i <= |s|
  {
    && freed == Wrapped(FreedBy(s, i, del))
    && deleted + Sum(Swept(s, 0, i, del), Alive) == Sum(s, Alive)
    && forall k: nat :: k < i ==> Wrapped(FreedBy(s, k, del)) < toFree
  }

  lemma ProgressStep(s: seq<FileInfo>, i: nat, del: Deleter, freed: nat, deleted: nat, toFree: nat)
    requires i < |s| && freed < toFree && Progress(s, i, del, freed, deleted, toFree)
    ensures Swept(s, 0, i + 1, del) == Swept(s, 0, i, del)[i := After(s[i], del)]
    ensures Swept(s, 0, i, del)[i] == s[i]
    ensures if Goes(s[i], del) then Progress(s, i + 1, del, (freed + s[i].size) % TWO_64, deleted + 1, toFree)
            else Progress(s, i + 1, del, freed, deleted, toFree)
  {
    hide Sum, Swept, Wrapped;
    SweepStep(s, 0, i, del, Alive);
    WrappedSum(FreedBy(s, i, del), s[i].size);
    assert s[..i + 1][..i] == s[..i];
  }

  lemma ProgressMade(s: seq<FileInfo>, i: nat, del: Deleter, freed: nat, deleted: nat, toFree: nat)
    requires i <= |s| && Progress(s, i, del, freed, deleted, toFree)
    ensures freed == Wrapped(FreedBy(s, i, del))
    ensures deleted + Sum(Swept(s, 0, i, del), Alive) == Sum(s, Alive)
    ensures forall k: nat :: k < i ==> Wrapped(FreedBy(s, k, del)) < toFree
  {
  }

  lemma SizeStays(f: FileInfo, del: Deleter)
    ensures After(f, del).size == f.size
  {
  }

  // ----- automatic cleanup -----

  datatype Policy = NoCleanup | ByAge | ByCount | BySize

  /** An interval as validation of the settings leaves it. */
  type minutes = n: int | 1 <= n <= 1440 witness 60

  datatype Retention = Retention(
    enabled: bool, policy: Policy, maxAgeDays: u32, maxCount: u32, maxTotalMib: u32, intervalMinutes: minutes)

  const MAX_FILES: nat := 1024

  /** What scanning the directory finds, at most as many files as there is room for. */
  datatype Scan = Unreadable | Found(files: seq<FileInfo>)

  predicate PossibleScan(scan: Scan) {
    scan.Found? ==> (
      && |scan.files| <= MAX_FILES
      && forall f :: f in scan.files ==> f.valid)
  }

  /** What a cleanup leaves of the scanned files. */
  ghost predicate Pruned(before: seq<FileInfo>, after: seq<FileInfo>, r: Retention, clock: int, del: Deleter) {
    match r.policy
    case NoCleanup => after == before
    case ByAge => PrunedByAge(before, after, r.maxAgeDays, clock, del)
    case ByCount => PrunedByCount(before, after, r.maxCount, del)
    case BySize => PrunedByTotal(before, after, r.maxTotalMib * BYTES_PER_MIB, del)
  }

  /** What each policy comes to, with its own limit and in its own unit. Nothing is touched that is
      within the limit of the number or of the size. Otherwise, no file that can be deleted
      is older than the number of days; no fewer files than the number remain, and just as many where
      all can be deleted; and below 2^64 bytes in all, the number of MiB is kept unless nothing that
      remains can be deleted. */
  lemma PolicyIsKept(before: seq<FileInfo>, after: seq<FileInfo>, r: Retention, clock: int, del: Deleter)
    requires Pruned(before, after, r, clock, del) && forall f :: f in before ==> f.valid
    ensures r.policy.NoCleanup? ==> after == before
    ensures r.policy.ByCount? && |before| <= r.maxCount ==> after == before
    ensures r.policy.BySize? && Sum(before, Bytes) <= r.maxTotalMib * 1024 * 1024 ==> after == before
    ensures r.policy.ByAge? ==> forall f :: f in after && f.valid && clock - f.mtime > r.maxAgeDays * 24 * 60 * 60 ==>
              !del(f.path).Deleted?
    ensures r.policy.ByCount? ==> Sum(after, Alive) >= if |before| <= r.maxCount then |before| else r.maxCount
    ensures r.policy.ByCount? && (forall f :: f in before ==> del(f.path).Deleted?) ==> Sum(after, Alive) <= r.maxCount
    ensures r.policy.BySize? && Sum(before, Bytes) < TWO_64 ==>
              Sum(after, Bytes) <= r.maxTotalMib * 1024 * 1024 || forall f :: f in after && f.valid ==> !del(f.path).Deleted?
  {
    hide Sum, Swept, IsSortOf, SizeSweep, PrunedByTotal, PrunedByAge;
    match r.policy
    case NoCleanup =>
    case ByAge => AgeGuarantee(before, after, r.maxAgeDays, clock, del);
                  AgesStay(before, after, r.maxAgeDays, clock, del);
    case ByCount => CountKept(before, after, r.maxCount, del);
    case BySize =>
      if Sum(before, Bytes) < TWO_64 {
        SmallTotalsAgree(before, after, r.maxTotalMib * BYTES_PER_MIB, del);
        SizeKept(before, after, r.maxTotalMib * BYTES_PER_MIB, del);
      }
  }

  lemma AgesStay(before: seq<FileInfo>, after: seq<FileInfo>, maxAgeDays: nat, now: int, del: Deleter)
    requires PrunedByAge(before, after, maxAgeDays, now, del)
    ensures |after| == |before| && forall i :: 0 <= i < |after| ==> after[i].(valid := true) == before[i].(valid := true)
  {
  }

  lemma CountKept(before: seq<FileInfo>, after: seq<FileInfo>, max: nat, del: Deleter)
    requires PrunedByCount(before, after, max, del) && forall f :: f in before ==> f.valid
    ensures Sum(after, Alive) >= if |before| <= max then |before| else max
    ensures (forall f :: f in before ==> del(f.path).Deleted?) ==> Sum(after, Alive) <= max
  {
    hide Sum, Swept;
    if |before| <= max {
      AllAlive(before);
    } else {
      var s := CountGuarantee(before, after, max, del);
      forall f | f in s[max..]
        ensures f in before
      {
        assert f in s && f in multiset(s) && f in multiset(before);
      }
    }
  }

  lemma SizeKept(before: seq<FileInfo>, after: seq<FileInfo>, limit: nat, del: Deleter)
    requires PrunedBySize(before, after, limit, del)
    ensures Sum(after, Bytes) <= limit || forall f :: f in after && f.valid ==> !del(f.path).Deleted?
  {
    hide Sum, Swept, IsSortOf;
    if Sum(before, Bytes) > limit {
      var _, _ := SizeGuarantee(before, after, limit, del);
    }
  }

  /** The time for the next cleanup has come: none has run yet, the clock has not moved on since
      the last one, or a whole interval has passed. */
  predicate IsDue(last: nat, now: nat, intervalNs: nat) {
    !(last > 0 && now > last && now - last < intervalNs)
  }

  function Interval(r: Retention): nat {
    r.intervalMinutes * NS_PER_MINUTE
  }

  /** The call at time `now` runs a cleanup. */
  predicate Runs(r: Retention, last: nat, now: nat) {
    r.enabled && !r.policy.NoCleanup? && IsDue(last, now, Interval(r))
  }

  /** The last-cleanup times around calls at the given times. */
  ghost predicate CleanupRun(r: Retention, nows: seq<nat>, lasts: seq<nat>) {
    && |lasts| == |nows| + 1 && lasts[0] == 0
    && (forall i :: 0 <= i < |nows| ==> nows[i] > 0)
    && (forall i :: 0 <= i < |nows| ==> lasts[i + 1] == if Runs(r, lasts[i], nows[i]) then nows[i] else lasts[i])
  }

  /** Call `i` runs a cleanup. */
  ghost predicate RunsAt(r: Retention, nows: seq<nat>, lasts: seq<nat>, i: nat)
    requires CleanupRun(r, nows, lasts) && i < |nows|
  {
    Runs(r, lasts[i], nows[i])
  }

  predicate Wanted(r: Retention) {
    r.enabled && (r.policy.ByAge? || r.policy.ByCount? || r.policy.BySize?)
  }

  /** A first call runs exactly when cleanups are wanted. */
  lemma FirstCallRuns(r: Retention, nows: seq<nat>, lasts: seq<nat>)
    requires CleanupRun(r, nows, lasts) && nows != []
    ensures RunsAt(r, nows, lasts, 0) <==> Wanted(r)
  {
  }

  /** After a call that ran, the next one to run is the first at least an interval later, or with a
      clock that has not moved on since. */
  lemma CleanupsSpaced(r: Retention, nows: seq<nat>, lasts: seq<nat>, i: nat, j: nat)
    requires CleanupRun(r, nows, lasts) && i < j < |nows| && RunsAt(r, nows, lasts, i)
    requires forall k :: i < k < j ==> !RunsAt(r, nows, lasts, k)
    ensures RunsAt(r, nows, lasts, j)
       <==> nows[j] <= nows[i] || nows[j] - nows[i] >= r.intervalMinutes * 60 * 1_000_000_000
  {
    OnlyWanted(r, nows, lasts, i);
    LastIsThat(r, nows, lasts, i, j);
  }

  /** With a clock that moves on, a call runs exactly when cleanups are wanted and none ran within
      the interval before it. */
  lemma {:induction false} RunsExactly(r: Retention, nows: seq<nat>, lasts: seq<nat>, j: nat)
    requires CleanupRun(r, nows, lasts) && j < |nows|
    requires forall i, k :: 0 <= i < k < |nows| ==> nows[i] < nows[k]
    ensures RunsAt(r, nows, lasts, j)
       <==> Wanted(r) && forall i :: 0 <= i < j && RunsAt(r, nows, lasts, i) ==>
              nows[j] - nows[i] >= r.intervalMinutes * 60 * 1_000_000_000
  {
    hide CleanupRun, Runs, Wanted;
    var last := LastRun(r, nows, lasts, j);
    if last >= 0 {
      CleanupsSpaced(r, nows, lasts, last, j);
      OnlyWanted(r, nows, lasts, last);
      assert forall i :: 0 <= i < last ==> nows[j] - nows[i] > nows[j] - nows[last];
    } else {
      NoneRan(r, nows, lasts, j);
    }
  }

  /** The last call before `j` that ran, or -1. */
  lemma {:induction false} LastRun(r: Retention, nows: seq<nat>, lasts: seq<nat>, j: nat) returns (i: int)
    requires CleanupRun(r, nows, lasts) && j <= |nows|
    ensures -1 <= i < j && (i >= 0 ==> RunsAt(r, nows, lasts, i))
    ensures forall k :: i < k < j ==> !RunsAt(r, nows, lasts, k)
  {
    hide CleanupRun, Runs, RunsAt;
    if j == 0 {
      i := -1;
    } else if RunsAt(r, nows, lasts, j - 1) {
      i := j - 1;
    } else {
      i := LastRun(r, nows, lasts, j - 1);
    }
  }

  lemma OnlyWanted(r: Retention, nows: seq<nat>, lasts: seq<nat>, i: nat)
    requires CleanupRun(r, nows, lasts) && i < |nows| && RunsAt(r, nows, lasts, i)
    ensures Wanted(r)
  {
  }

  lemma NoneRan(r: Retention, nows: seq<nat>, lasts: seq<nat>, j: nat)
    requires CleanupRun(r, nows, lasts) && j < |nows|
    requires forall k :: 0 <= k < j ==> !RunsAt(r, nows, lasts, k)
    ensures RunsAt(r, nows, lasts, j) <==> Wanted(r)
  {
    StaysZero(r, nows, lasts, j);
  }

  lemma {:induction false} StaysZero(r: Retention, nows: seq<nat>, lasts: seq<nat>, j: nat)
    requires CleanupRun(r, nows, lasts) && j < |nows|
    requires forall k :: 0 <= k < j ==> !RunsAt(r, nows, lasts, k)
    ensures lasts[j] == 0
  {
    if j > 0 {
      StaysZero(r, nows, lasts, j - 1);
      assert !RunsAt(r, nows, lasts, j - 1) && lasts[j - 1 + 1] == lasts[j - 1];
    }
  }

  lemma {:induction false} LastIsThat(r: Retention, nows: seq<nat>, lasts: seq<nat>, i: nat, j: nat)
    requires CleanupRun(r, nows, lasts) && i < j < |nows| && RunsAt(r, nows, lasts, i)
    requires forall k :: i < k < j ==> !RunsAt(r, nows, lasts, k)
    ensures lasts[j] == nows[i]
    decreases j
  {
    if i < j - 1 {
      LastIsThat(r, nows, lasts, i, j - 1);
      assert !RunsAt(r, nows, lasts, j - 1);
    }
    assert lasts[j - 1 + 1] == if RunsAt(r, nows, lasts, j - 1) then nows[j - 1] else lasts[j - 1];
  }

  class Manager {
    var lastCleanupNs: u64

    constructor ()
      ensures lastCleanupNs == 0
    {
      lastCleanupNs := 0;
    }

    /** Cleans up if it is enabled and due. A cleanup that could not read the directory counts. */
    method AutoCleanup(r: Retention, nowNs: u64, scan: Scan, clock: int, del: Deleter)
      returns (ok: bool, deleted: nat, after: seq<FileInfo>)
      requires PossibleScan(scan)
      modifies this
      ensures lastCleanupNs == if Runs(r, old(lastCleanupNs), nowNs) then nowNs else old(lastCleanupNs)
      ensures ok <==> !Runs(r, old(lastCleanupNs), nowNs) || scan.Found?
      ensures scan.Found? ==>
                && (if Runs(r, old(lastCleanupNs), nowNs) then Pruned(scan.files, after, r, clock, del) else after == scan.files)
                && deleted + Sum(after, Alive) == |scan.files|
      ensures scan.Unreadable? ==> deleted == 0
    {
      ok, deleted, after := true, 0, if scan.Found? then scan.files else [];
      if scan.Found? {
        AllAlive(scan.files);
      }
      if !r.enabled {
        return;
      }
      if r.policy.NoCleanup? {
        return;
      }
      var intervalNs := r.intervalMinutes * NS_PER_MINUTE;
      if lastCleanupNs > 0 && nowNs > lastCleanupNs {
        if nowNs - lastCleanupNs < intervalNs {
          return;
        }
      }
      lastCleanupNs := nowNs;
      if scan.Unreadable? {
        ok := false;
      } else {
        deleted, after := RunCleanup(r, scan.files, clock, del);
      }
    }
  }

  /** Runs the policy over the scanned files; `after` says what it leaves of them. */
  method RunCleanup(r: Retention, scanned: seq<FileInfo>, clock: int, del: Deleter)
    returns (deleted: nat, after: seq<FileInfo>)
    requires PossibleScan(Found(scanned))
    ensures Pruned(scanned, after, r, clock, del)
    ensures deleted + Sum(after, Alive) == Sum(scanned, Alive)
  {
    deleted := 0;
    var count := |scanned|;
    if count == 0 {
      after := scanned;
      NoFiles(r, clock, del);
      return;
    }
    var files := new FileInfo[MAX_FILES](_ => FileInfo("", 0, 0, false));
    for i := 0 to count
      invariant files[..i] == scanned[..i]
    {
      files[i] := scanned[i];
    }
    assert files[..count] == scanned;
    hide PrunedByAge, PrunedByCount, PrunedByTotal;
    match r.policy {
      case NoCleanup =>
      case ByAge => deleted := CleanupByAge(files, count, r.maxAgeDays, clock, del);
      case ByCount => deleted := CleanupByCount(files, count, r.maxCount, del);
      case BySize => deleted := CleanupBySize(files, count, r.maxTotalMib, del);
    }
    after := files[..count];
  }

  lemma NoFiles(r: Retention, clock: int, del: Deleter)
    ensures Pruned([], [], r, clock, del)
  {
  }
}
