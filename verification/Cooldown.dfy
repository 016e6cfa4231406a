/** The bounded cooldown table: lazy expiry by swapping with the last entry, eviction of the oldest. */
module Cooldown {

  const TABLE_SIZE: nat := 64

  datatype Entry = Entry(key: int, ts: nat)

  type Table = seq<Entry>

  ghost predicate Unique(t: Table) {
    forall i, j :: 0 <= i < j < |t| ==> t[i].key != t[j].key
  }

  /** An entry still cools down at `now`; a clock that did not advance counts as cooling down. */
  predicate Live(e: Entry, now: nat, cd: nat) {
    now <= e.ts || now - e.ts < cd
  }

  function Keys(t: Table): set<int> {
    set e | e in t :: e.key
  }

  /** The keys that are cooling down. */
  function Cooling(t: Table, now: nat, cd: nat): set<int> {
    set e | e in t && Live(e, now, cd) :: e.key
  }

  /** Position of the first entry for a key, or the length of the table. */
  function Find(t: Table, k: int): (i: nat)
    ensures i <= |t|
    ensures i < |t| ==> t[i].key == k
    ensures forall j :: 0 <= j < i ==> t[j].key != k
  {
    if t == [] || t[0].key == k then 0 else 1 + Find(t[1..], k)
  }

  /** The table without entry `i`, whose place the last entry takes. */
  function RemoveAt(t: Table, i: nat): Table
    requires i < |t|
  {
    t[i := t[|t| - 1]][..|t| - 1]
  }

  /** Whether a key is cooling down, and the table after the query has dropped the key's entry
      if that has expired. */
  function Query(t: Table, k: int, now: nat, cd: nat): (bool, Table) {
    var i := Find(t, k);
    if i == |t| then (false, t)
    else if Live(t[i], now, cd) then (true, t)
    else (false, RemoveAt(t, i))
  }

  /** Position of the first entry with the smallest time. */
  function Oldest(t: Table): (i: nat)
    requires t != []
    ensures i < |t|
    ensures forall j :: 0 <= j < |t| ==> t[i].ts <= t[j].ts
    ensures forall j :: 0 <= j < i ==> t[i].ts < t[j].ts
  {
    var last := |t| - 1;
    if last == 0 then 0
    else
      var i := Oldest(t[..last]);
      if t[last].ts < t[i].ts then last else i
  }

  function Record(t: Table, k: int, now: nat): (r: Table)
    ensures |t| <= TABLE_SIZE ==> |r| <= TABLE_SIZE
  {
    var i := Find(t, k);
    if i < |t| then t[i := Entry(k, now)]
    else if |t| >= TABLE_SIZE then t[Oldest(t) := Entry(k, now)]
    else t + [Entry(k, now)]
  }

  // ----- queries -----

  /** `r` is `t` with some entries dropped, all of them expired at `now`. */
  ghost predicate Purged(t: Table, r: Table, now: nat, cd: nat) {
    && Unique(r) && |r| <= |t|
    && (forall e :: e in r ==> e in t)
    && (forall e :: e in t && Live(e, now, cd) ==> e in r)
  }

  lemma PurgedTwice(t: Table, r: Table, s: Table, now: nat, cd: nat)
    requires Purged(t, r, now, cd) && Purged(r, s, now, cd)
    ensures Purged(t, s, now, cd)
  {
  }

  /** Dropping expired entries changes no answer. */
  lemma PurgedKeepsCooling(t: Table, r: Table, now: nat, cd: nat)
    requires Purged(t, r, now, cd)
    ensures Cooling(r, now, cd) == Cooling(t, now, cd)
  {
  }

  lemma FoundIsThere(t: Table, k: int)
    requires Unique(t)
    ensures Find(t, k) == |t| <==> k !in Keys(t)
    ensures forall e :: e in t && e.key == k ==> Find(t, k) < |t| && e == t[Find(t, k)]
  {
    var i := Find(t, k);
    if i < |t| {
      assert t[i] in t;
    }
  }

  lemma RemovedEntries(t: Table, i: nat)
    requires Unique(t) && i < |t|
    ensures Unique(RemoveAt(t, i))
    ensures forall e :: e in RemoveAt(t, i) <==> e in t && e != t[i]
  {
    var last := |t| - 1;
    var r := RemoveAt(t, i);
    assert forall j :: 0 <= j < last ==> r[j] == if j == i then t[last] else t[j];
    forall e | e in t && e != t[i]
      ensures e in r
    {
      var j :| 0 <= j < |t| && t[j] == e;
      assert e == r[if j == last then i else j];
    }
  }

  /** A query answers whether its key is cooling down, and only drops what has expired. */
  lemma QueryAnswers(t: Table, k: int, now: nat, cd: nat)
    requires Unique(t)
    ensures var (active, r) := Query(t, k, now, cd);
            && (active <==> k in Cooling(t, now, cd))
            && Purged(t, r, now, cd)
  {
    FoundIsThere(t, k);
    var i := Find(t, k);
    if i < |t| && !Live(t[i], now, cd) {
      RemovedEntries(t, i);
    }
  }

  // ----- recording -----

  /** What recording leaves out: nothing, or the entry it evicts from a full table. */
  ghost predicate Evicts(t: Table, k: int, e: Entry) {
    k !in Keys(t) && |t| >= TABLE_SIZE && e == t[Oldest(t)]
  }

  lemma RecordedEntries(t: Table, k: int, now: nat)
    requires Unique(t)
    ensures Unique(Record(t, k, now))
    ensures Entry(k, now) in Record(t, k, now)
    ensures forall e :: e in Record(t, k, now) ==> e == Entry(k, now) || (e in t && e.key != k)
    ensures forall e :: e in t && e.key != k && !Evicts(t, k, e) ==> e in Record(t, k, now)
  {
    FoundIsThere(t, k);
    var i, r := Find(t, k), Record(t, k, now);
    var p := if i < |t| then i else if |t| >= TABLE_SIZE then Oldest(t) else |t|;
    assert r[p] == Entry(k, now);
    forall e | e in t && e.key != k && !Evicts(t, k, e)
      ensures e in r
    {
      var j :| 0 <= j < |t| && t[j] == e;
      assert r[j] == e;
    }
  }

  /** A table with unique keys has as many keys as entries. */
  lemma {:induction false} KeyCount(t: Table)
    requires Unique(t)
    ensures |Keys(t)| == |t|
  {
    if t != [] {
      var last := t[|t| - 1];
      var rest := t[..|t| - 1];
      KeyCount(rest);
      assert forall e :: e in t <==> e in rest || e == last;
      assert Keys(t) == Keys(rest) + {last.key};
      assert last.key !in Keys(rest);
    }
  }
}
