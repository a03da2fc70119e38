/** Sorting by a strict weak order: Go's `sort.SliceStable` as a function, and why its result is the only one. */
module Sorting {

  /** `less` is asymmetric, and "not less" is transitive. */
  ghost predicate Order<T(!new)>(less: (T, T) -> bool) {
    (forall a, b :: less(a, b) ==> !less(b, a)) &&
    (forall a, b, c :: !less(a, b) && !less(b, c) ==> !less(a, c))
  }

  predicate Ordered<T>(less: (T, T) -> bool, s: seq<T>) {
    forall i, j :: 0 <= i < j < |s| ==> !less(s[j], s[i])
  }

  /** Distinct elements are never equivalent. */
  ghost predicate Comparable<T(!new)>(less: (T, T) -> bool, s: seq<T>) {
    forall a, b :: a in s && b in s && a != b ==> less(a, b) || less(b, a)
  }

  function Insert<T>(less: (T, T) -> bool, s: seq<T>, x: T): seq<T> {
    if s == [] then [x]
    else if less(x, s[|s| - 1]) then Insert(less, s[..|s| - 1], x) + [s[|s| - 1]]
    else s + [x]
  }

  function Sort<T>(less: (T, T) -> bool, s: seq<T>): seq<T> {
    if s == [] then [] else Insert(less, Sort(less, s[..|s| - 1]), s[|s| - 1])
  }

  lemma {:induction false} InsertAdds<T>(less: (T, T) -> bool, s: seq<T>, x: T)
    ensures multiset(Insert(less, s, x)) == multiset(s) + multiset{x}
  {
    if s != [] {
      assert s == s[..|s| - 1] + [s[|s| - 1]];
      InsertAdds(less, s[..|s| - 1], x);
    }
  }

  lemma {:induction false} SortPermutes<T>(less: (T, T) -> bool, s: seq<T>)
    ensures multiset(Sort(less, s)) == multiset(s)
  {
    if s != [] {
      assert s == s[..|s| - 1] + [s[|s| - 1]];
      SortPermutes(less, s[..|s| - 1]);
      InsertAdds(less, Sort(less, s[..|s| - 1]), s[|s| - 1]);
    }
  }

  lemma {:induction false} InsertOrders<T(!new)>(less: (T, T) -> bool, s: seq<T>, x: T)
    requires Order(less) && Ordered(less, s)
    ensures Ordered(less, Insert(less, s, x))
  {
    if s != [] && less(x, s[|s| - 1]) {
      InsertOrders(less, s[..|s| - 1], x);
      LastStaysLast(less, s, x, s[|s| - 1], Insert(less, s[..|s| - 1], x));
    } else if s != [] {
      LastComesLast(less, s, x);
    }
  }

  /** What is inserted before the last element leaves it the last. */
  lemma LastStaysLast<T(!new)>(less: (T, T) -> bool, s: seq<T>, x: T, last: T, t: seq<T>)
    requires Order(less) && Ordered(less, s) && s != [] && last == s[|s| - 1] && less(x, last)
    requires t == Insert(less, s[..|s| - 1], x)
    ensures forall i :: 0 <= i < |t| ==> !less(last, t[i])
  {
    var front := s[..|s| - 1];
    InsertAdds(less, front, x);
    forall i | 0 <= i < |t|
      ensures !less(last, t[i])
    {
      assert t[i] in multiset(t);
      if t[i] != x {
        assert t[i] in multiset(front);
        var j :| 0 <= j < |front| && front[j] == t[i];
        assert s[j] == t[i];
      }
    }
  }

  lemma LastComesLast<T(!new)>(less: (T, T) -> bool, s: seq<T>, x: T)
    requires Order(less) && Ordered(less, s) && s != [] && !less(x, s[|s| - 1])
    ensures forall i :: 0 <= i < |s| ==> !less(x, s[i])
  {
    var last := |s| - 1;
    forall i | 0 <= i < |s|
      ensures !less(x, s[i])
    {
      assert i < last ==> !less(s[last], s[i]);
    }
  }

  lemma {:induction false} SortOrders<T(!new)>(less: (T, T) -> bool, s: seq<T>)
    requires Order(less)
    ensures Ordered(less, Sort(less, s))
  {
    if s != [] {
      SortOrders(less, s[..|s| - 1]);
      InsertOrders(less, Sort(less, s[..|s| - 1]), s[|s| - 1]);
    }
  }

  /** When distinct elements are never equivalent, there is one ordered arrangement. */
  lemma {:induction false} OneOrderedArrangement<T(!new)>(less: (T, T) -> bool, s: seq<T>, t: seq<T>)
    requires Ordered(less, s) && Ordered(less, t) && multiset(s) == multiset(t)
    requires Comparable(less, s)
    ensures s == t
  {
    SameLength(s, t);
    if s != [] {
      var n := |s| - 1;
      var a, b, x := s[..n], t[..n], s[n];
      SameLast(less, s, t, n);
      assert s == a + [x] && t == b + [x];
      SameFront(a, b, x);
      Smaller(less, a, x);
      Smaller(less, b, x);
      OneOrderedArrangement(less, a, b);
    }
  }

  lemma SameLength<T>(s: seq<T>, t: seq<T>)
    requires multiset(s) == multiset(t)
    ensures |s| == |t|
  {
    assert |multiset(s)| == |s| && |multiset(t)| == |t|;
  }

  lemma SameFront<T>(a: seq<T>, b: seq<T>, x: T)
    requires multiset(a + [x]) == multiset(b + [x])
    ensures multiset(a) == multiset(b)
  {
    assert multiset(a) == multiset(a + [x]) - multiset{x};
    assert multiset(b) == multiset(b + [x]) - multiset{x};
  }

  lemma ComparablePermutes<T(!new)>(less: (T, T) -> bool, s: seq<T>, t: seq<T>)
    requires Comparable(less, s) && forall x :: x in t ==> x in multiset(s)
    ensures Comparable(less, t)
  {
  }

  lemma Smaller<T(!new)>(less: (T, T) -> bool, a: seq<T>, x: T)
    ensures Ordered(less, a + [x]) ==> Ordered(less, a)
    ensures Comparable(less, a + [x]) ==> Comparable(less, a)
  {
    var s := a + [x];
    if Ordered(less, s) {
      forall i, j | 0 <= i < j < |a|
        ensures !less(a[j], a[i])
      {
        assert !less(s[j], s[i]);
      }
    }
  }

  lemma SameLast<T(!new)>(less: (T, T) -> bool, s: seq<T>, t: seq<T>, n: nat)
    requires |s| == |t| == n + 1
    requires Ordered(less, s) && Ordered(less, t) && multiset(s) == multiset(t)
    requires Comparable(less, s)
    ensures s[n] == t[n]
  {
    assert s[n] in multiset(t) && t[n] in multiset(s);
    var i :| 0 <= i <= n && t[i] == s[n];
    var j :| 0 <= j <= n && s[j] == t[n];
    if i < n && j < n {
      assert !less(t[n], t[i]) && !less(s[n], s[j]);
    }
  }

  /** So any sort by such an order gives the same result. */
  lemma AnySortIsSort<T(!new)>(less: (T, T) -> bool, s: seq<T>, t: seq<T>)
    requires Order(less) && Ordered(less, t) && multiset(t) == multiset(s)
    requires Comparable(less, s)
    ensures t == Sort(less, s)
  {
    SortPermutes(less, s);
    SortOrders(less, s);
    assert forall x :: x in Sort(less, s) ==> x in multiset(Sort(less, s));
    ComparablePermutes(less, s, Sort(less, s));
    OneOrderedArrangement(less, Sort(less, s), t);
  }

  // ---------- Text ----------

  /** Go's `strings.Compare`. */
  function Compare(a: string, b: string): int {
    if a == b then 0
    else if a == "" then -1
    else if b == "" then 1
    else if a[0] != b[0] then (if a[0] < b[0] then -1 else 1)
    else Compare(a[1..], b[1..])
  }

  lemma {:induction false} CompareIsTotal(a: string, b: string)
    ensures Compare(a, b) == -Compare(b, a) && (Compare(a, b) == 0 <==> a == b)
  {
    if a != "" && b != "" && a[0] == b[0] {
      CompareIsTotal(a[1..], b[1..]);
      assert a == [a[0]] + a[1..] && b == [b[0]] + b[1..];
    }
  }

  lemma {:induction false} CompareIsTransitive(a: string, b: string, c: string)
    requires Compare(a, b) <= 0 && Compare(b, c) <= 0
    ensures Compare(a, c) <= 0
  {
    if a != b && b != c && a != "" && b != "" && c != "" && a[0] == b[0] == c[0] {
      CompareIsTransitive(a[1..], b[1..], c[1..]);
    }
  }

  /** `a` comes before `b` in a dictionary: at their first difference it ends or has the smaller character. */
  predicate Precedes(a: string, b: string) {
    exists k :: 0 <= k <= |a| && k < |b| && a[..k] == b[..k] && (k == |a| || a[k] < b[k])
  }

  lemma {:induction false} PrecedesIfLess(a: string, b: string)
    requires Compare(a, b) < 0
    ensures Precedes(a, b)
  {
    if a == "" || a[0] != b[0] {
      assert a[..0] == b[..0];
    } else {
      PrecedesIfLess(a[1..], b[1..]);
      var c, d := a[1..], b[1..];
      var k :| 0 <= k <= |c| && k < |d| && c[..k] == d[..k] && (k == |c| || c[k] < d[k]);
      assert a[..k + 1] == [a[0]] + c[..k] && b[..k + 1] == [b[0]] + d[..k];
    }
  }

  lemma {:induction false} LessIfPrecedes(a: string, b: string)
    requires Precedes(a, b)
    ensures Compare(a, b) < 0
  {
    var k :| 0 <= k <= |a| && k < |b| && a[..k] == b[..k] && (k == |a| || a[k] < b[k]);
    if k > 0 {
      assert a[0] == a[..k][0] && b[0] == b[..k][0];
      assert a[1..][..k - 1] == a[..k][1..] && b[1..][..k - 1] == b[..k][1..];
      LessIfPrecedes(a[1..], b[1..]);
    }
  }

  /** The comparison tells which text comes first. */
  lemma CompareMeans(a: string, b: string)
    ensures Compare(a, b) < 0 <==> Precedes(a, b)
    ensures Compare(a, b) > 0 <==> Precedes(b, a)
    ensures Compare(a, b) == 0 <==> a == b
  {
    CompareIsTotal(a, b);
    if Compare(a, b) < 0 { PrecedesIfLess(a, b); }
    if Compare(b, a) < 0 { PrecedesIfLess(b, a); }
    if Precedes(a, b) { LessIfPrecedes(a, b); }
    if Precedes(b, a) { LessIfPrecedes(b, a); }
  }
}
