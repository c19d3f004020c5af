/** The LINQ operators the controllers apply to database tables, over
    sequences: `Where`, `FirstOrDefault`, `OrderBy`/`ThenBy`, `Skip`/`Take`.
    A table is a sequence of rows in storage order. */
module Seqs {
  import opened Wrappers

  // ---------------------------------------------------------------------
  // Where
  // ---------------------------------------------------------------------

  /** `s.Where(p)`: the rows satisfying `p`, in their original order. */
  function Filter<T(!new)>(s: seq<T>, p: T -> bool): (r: seq<T>)
    ensures |r| <= |s|
    ensures forall i :: 0 <= i < |r| ==> p(r[i])
    ensures forall x :: multiset(r)[x] == if p(x) then multiset(s)[x] else 0
  {
    if |s| == 0 then []
    else
      var rest := Filter(s[1..], p);
      assert s == [s[0]] + s[1..];
      if p(s[0]) then [s[0]] + rest else rest
  }

  /** Filtering keeps exactly the members that satisfy the condition. */
  lemma FilterMembers<T(!new)>(s: seq<T>, p: T -> bool, x: T)
    ensures x in Filter(s, p) <==> x in s && p(x)
  {
    assert x in Filter(s, p) <==> x in multiset(Filter(s, p));
    assert x in s <==> x in multiset(s);
  }

  /** Splitting by a condition and by its negation loses and adds nothing. */
  lemma FilterPartition<T(!new)>(s: seq<T>, p: T -> bool, q: T -> bool)
    requires forall x :: q(x) == !p(x)
    ensures multiset(Filter(s, p)) + multiset(Filter(s, q)) == multiset(s)
  {
    var a := Filter(s, p);
    var b := Filter(s, q);
    assert forall x :: (multiset(a) + multiset(b))[x] == multiset(s)[x];
  }

  /** A condition that holds of every row holds of every row of a
      sub-multiset. */
  lemma AllOfSubmultiset<T>(a: seq<T>, b: seq<T>, p: T -> bool)
    requires multiset(a) <= multiset(b)
    requires forall i :: 0 <= i < |b| ==> p(b[i])
    ensures forall i :: 0 <= i < |a| ==> p(a[i])
  {
    forall i | 0 <= i < |a| ensures p(a[i]) {
      assert a[i] in multiset(a);
      assert a[i] in multiset(b);
      var j :| 0 <= j < |b| && b[j] == a[i];
    }
  }

  /** Filtering twice is filtering once by the conjunction. */
  lemma {:induction false} FilterFilter<T(!new)>(s: seq<T>, p: T -> bool, q: T -> bool)
    ensures Filter(Filter(s, p), q) == Filter(s, x => p(x) && q(x))
  {
    if |s| > 0 {
      FilterFilter(s[1..], p, q);
    }
  }

  // ---------------------------------------------------------------------
  // FirstOrDefault
  // ---------------------------------------------------------------------

  /** `s.FirstOrDefault(p)`, as the index of the first row satisfying `p`. */
  function FirstIndex<T>(s: seq<T>, p: T -> bool): (r: Option<nat>)
    ensures r.Some? ==> r.value < |s| && p(s[r.value])
    ensures r.Some? ==> forall j :: 0 <= j < r.value ==> !p(s[j])
    ensures r.None? <==> forall j :: 0 <= j < |s| ==> !p(s[j])
  {
    FirstIndexFrom(s, p, 0)
  }

  function FirstIndexFrom<T>(s: seq<T>, p: T -> bool, i: nat): (r: Option<nat>)
    requires i <= |s|
    requires forall j :: 0 <= j < i ==> !p(s[j])
    ensures r.Some? ==> i <= r.value < |s| && p(s[r.value])
    ensures r.Some? ==> forall j :: 0 <= j < r.value ==> !p(s[j])
    ensures r.None? <==> forall j :: 0 <= j < |s| ==> !p(s[j])
    decreases |s| - i
  {
    if i == |s| then None
    else if p(s[i]) then Some(i)
    else FirstIndexFrom(s, p, i + 1)
  }

  /** When at most one row satisfies `p`, the first one is that row. */
  lemma FirstIndexOfUnique<T>(s: seq<T>, p: T -> bool, k: nat)
    requires k < |s| && p(s[k])
    requires forall j :: 0 <= j < |s| && p(s[j]) ==> j == k
    ensures FirstIndex(s, p) == Some(k)
  {
  }

  // ---------------------------------------------------------------------
  // OrderBy
  // ---------------------------------------------------------------------

  /** `leq` is total and transitive: a legal sort key comparison. */
  ghost predicate IsTotalPreorder<T(!new)>(leq: (T, T) -> bool) {
    && (forall a, b :: leq(a, b) || leq(b, a))
    && (forall a, b, c :: leq(a, b) && leq(b, c) ==> leq(a, c))
  }

  predicate SortedBy<T>(s: seq<T>, leq: (T, T) -> bool) {
    forall i, j :: 0 <= i < j < |s| ==> leq(s[i], s[j])
  }

  /** Inserts `x` before the first element it may precede. */
  function Insert<T(!new)>(x: T, s: seq<T>, leq: (T, T) -> bool): (r: seq<T>)
    requires IsTotalPreorder(leq) && SortedBy(s, leq)
    ensures multiset(r) == multiset(s) + multiset{x}
    ensures SortedBy(r, leq)
  {
    if |s| == 0 then [x]
    else if leq(x, s[0]) then
      assert forall j :: 0 <= j < |s| ==> leq(s[0], s[j]);
      [x] + s
    else
      var rest := Insert(x, s[1..], leq);
      assert s == [s[0]] + s[1..];
      assert leq(s[0], x);
      assert forall k :: 0 <= k < |rest| ==> leq(s[0], rest[k]) by {
        forall k | 0 <= k < |rest|
          ensures leq(s[0], rest[k])
        {
          assert rest[k] in multiset(rest);
          if rest[k] != x {
            assert rest[k] in multiset(s[1..]);
            var j :| 0 <= j < |s[1..]| && s[1..][j] == rest[k];
            assert s[j + 1] == rest[k];
          }
        }
      }
      [s[0]] + rest
  }

  /** `Where` after `OrderBy` keeps the order. */
  lemma {:induction false} FilterSorted<T(!new)>(s: seq<T>, p: T -> bool, leq: (T, T) -> bool)
    requires SortedBy(s, leq)
    ensures SortedBy(Filter(s, p), leq)
  {
    if |s| > 0 {
      var rest := Filter(s[1..], p);
      assert SortedBy(s[1..], leq);
      FilterSorted(s[1..], p, leq);
      if p(s[0]) {
        forall k | 0 <= k < |rest| ensures leq(s[0], rest[k]) {
          assert rest[k] in multiset(rest);
          assert rest[k] in multiset(s[1..]);
          var j :| 0 <= j < |s[1..]| && s[1..][j] == rest[k];
          assert s[j + 1] == rest[k];
        }
      }
    }
  }

  /** `s.OrderBy(leq)`: a stable insertion sort. */
  function Sort<T(!new)>(s: seq<T>, leq: (T, T) -> bool): (r: seq<T>)
    requires IsTotalPreorder(leq)
    ensures multiset(r) == multiset(s)
    ensures |r| == |s|
    ensures SortedBy(r, leq)
  {
    if |s| == 0 then []
    else
      assert s == [s[0]] + s[1..];
      var r := Insert(s[0], Sort(s[1..], leq), leq);
      assert |r| == |multiset(r)|;
      r
  }

  /** `s.Where(p).OrderBy(leq)`: the rows satisfying `p`, sorted. */
  function SortWhere<T(!new)>(s: seq<T>, p: T -> bool, leq: (T, T) -> bool): (r: seq<T>)
    requires IsTotalPreorder(leq)
    ensures forall x :: x in r <==> x in s && p(x)
    ensures forall i :: 0 <= i < |r| ==> r[i] in s && p(r[i])
    ensures multiset(r) == multiset(Filter(s, p))
    ensures |r| == |Filter(s, p)|
    ensures SortedBy(r, leq)
  {
    var found := Filter(s, p);
    var r := Sort(found, leq);
    forall x ensures x in r <==> x in s && p(x) {
      FilterMembers(s, p, x);
      assert x in r <==> x in multiset(r);
      assert x in found <==> x in multiset(found);
    }
    assert forall i :: 0 <= i < |r| ==> r[i] in r;
    r
  }

  /** `x` is the image under `f` of some row of `s` satisfying `p`. */
  ghost predicate SelectedRow<T, U>(x: U, s: seq<T>, p: T -> bool, f: T -> U) {
    exists j :: 0 <= j < |s| && p(s[j]) && x == f(s[j])
  }

  /** `s.Where(p).Select(f)`: the image of every row satisfying `p`, in
      row order, and nothing else. */
  function SelectWhere<T, U>(s: seq<T>, p: T -> bool, f: T -> U): (r: seq<U>)
    ensures forall i :: 0 <= i < |r| ==> SelectedRow(r[i], s, p, f)
    ensures forall j :: 0 <= j < |s| && p(s[j]) ==> f(s[j]) in r
  {
    if |s| == 0 then []
    else
      var rest := SelectWhere(s[1..], p, f);
      var r := (if p(s[0]) then [f(s[0])] else []) + rest;
      assert forall i :: 0 <= i < |rest| ==> r[|r| - |rest| + i] == rest[i];
      assert forall j :: 1 <= j < |s| ==> s[j] == s[1..][j - 1];
      assert forall i :: 0 <= i < |r| - |rest| ==> r[i] == f(s[0]);
      r
  }

  /** The row each selected element came from. */
  lemma SelectedFrom<T, U>(s: seq<T>, p: T -> bool, f: T -> U, i: nat) returns (j: nat)
    requires i < |SelectWhere(s, p, f)|
    ensures j < |s| && p(s[j]) && SelectWhere(s, p, f)[i] == f(s[j])
  {
    var r := SelectWhere(s, p, f);
    assert SelectedRow(r[i], s, p, f);
    j :| 0 <= j < |s| && p(s[j]) && r[i] == f(s[j]);
  }

  // ---------------------------------------------------------------------
  // Identity columns
  // ---------------------------------------------------------------------

  /** A key no row uses yet: what an identity column hands out. */
  function NextId<T>(s: seq<T>, key: T -> nat): (n: nat)
    ensures forall k :: 0 <= k < |s| ==> key(s[k]) < n
  {
    if |s| == 0 then 0
    else
      var m := NextId(s[..|s| - 1], key);
      var x := key(s[|s| - 1]) + 1;
      assert forall k :: 0 <= k < |s| - 1 ==> s[k] == s[..|s| - 1][k];
      if m < x then x else m
  }

  // ---------------------------------------------------------------------
  // Skip / Take
  // ---------------------------------------------------------------------

  /** `s.Skip(n).Take(k)`. */
  function Page<T>(s: seq<T>, n: nat, k: nat): (r: seq<T>)
    ensures |r| <= k
    ensures n <= |s| ==> r == s[n..if n + k <= |s| then n + k else |s|]
    ensures n > |s| ==> r == []
  {
    if n >= |s| then []
    else if n + k <= |s| then s[n..n + k]
    else s[n..]
  }
}
