/** The library sort, of which only its contract matters: any ordered rearrangement. */
module Sorting {

  /** `le` can order anything, ties allowed. */
  ghost predicate TotalOrder<T(!new)>(le: (T, T) -> bool) {
    && (forall x, y :: le(x, y) || le(y, x))
    && (forall x, y, z :: le(x, y) && le(y, z) ==> le(x, z))
  }

  ghost predicate Ordered<T>(s: seq<T>, le: (T, T) -> bool) {
    forall i, j :: 0 <= i < j < |s| ==> le(s[i], s[j])
  }

  /** `r` is `s` rearranged in order. */
  ghost predicate IsSortOf<T>(r: seq<T>, s: seq<T>, le: (T, T) -> bool) {
    |r| == |s| && multiset(r) == multiset(s) && Ordered(r, le)
  }

  /** What holds of every element still does. */
  lemma SortKeeps<T>(r: seq<T>, s: seq<T>, le: (T, T) -> bool, p: T -> bool)
    requires IsSortOf(r, s, le) && forall x :: x in s ==> p(x)
    ensures forall x :: x in r ==> p(x)
  {
    assert forall x :: x in r ==> x in multiset(r);
    assert forall x :: x in multiset(s) ==> x in s;
  }

  function Insert<T>(x: T, s: seq<T>, le: (T, T) -> bool): seq<T> {
    if s == [] || le(x, s[0]) then [x] + s else [s[0]] + Insert(x, s[1..], le)
  }

  function Sort<T>(s: seq<T>, le: (T, T) -> bool): seq<T> {
    if s == [] then [] else Insert(s[0], Sort(s[1..], le), le)
  }

  lemma OrderedCons<T>(x: T, s: seq<T>, le: (T, T) -> bool)
    requires Ordered(s, le) && forall y :: y in s ==> le(x, y)
    ensures Ordered([x] + s, le)
  {
  }

  lemma FirstIsLeast<T(!new)>(x: T, s: seq<T>, le: (T, T) -> bool)
    requires TotalOrder(le) && Ordered(s, le) && (s == [] || le(x, s[0]))
    ensures forall y :: y in s ==> le(x, y)
  {
  }

  lemma {:induction false} InsertSorts<T(!new)>(x: T, s: seq<T>, le: (T, T) -> bool)
    requires TotalOrder(le) && Ordered(s, le)
    ensures IsSortOf(Insert(x, s, le), [x] + s, le)
  {
    if s != [] && !le(x, s[0]) {
      hide Ordered;
      var rest := Insert(x, s[1..], le);
      InsertSorts(x, s[1..], le);
      assert s == [s[0]] + s[1..];
      SortKeeps(rest, [x] + s[1..], le, y => le(s[0], y));
      OrderedCons(s[0], rest, le);
    } else {
      FirstIsLeast(x, s, le);
      OrderedCons(x, s, le);
    }
  }

  lemma {:induction false} SortSorts<T(!new)>(s: seq<T>, le: (T, T) -> bool)
    requires TotalOrder(le)
    ensures IsSortOf(Sort(s, le), s, le)
  {
    if s != [] {
      SortSorts(s[1..], le);
      InsertSorts(s[0], Sort(s[1..], le), le);
      assert s == [s[0]] + s[1..];
    }
  }

  /** Sorts the first `n` elements. */
  method QSort<T(!new)>(a: array<T>, n: nat, le: (T, T) -> bool)
    requires n <= a.Length && TotalOrder(le)
    modifies a
    ensures IsSortOf(a[..n], old(a[..n]), le)
    ensures a[n..] == old(a[n..])
  {
    var s := Sort(a[..n], le);
    SortSorts(a[..n], le);
    for i := 0 to n
      invariant a[..i] == s[..i] && a[n..] == old(a[n..])
    {
      a[i] := s[i];
    }
    assert a[..n] == s;
  }
}
