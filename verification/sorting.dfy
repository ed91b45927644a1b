/** A stable sort driven by a JavaScript-style comparator, reduced to its
    "strictly before" test. `Array.prototype.sort` is stable; with a
    consistent comparator every stable sort yields the same order, so the
    insertion sort below stands for the engine's. */
module Sorting {

  /** Places x after every element it is not strictly before, that is in
      front of the first y with less(x, y). */
  function Insert<T>(t: seq<T>, x: T, less: (T, T) -> bool): (r: seq<T>)
    ensures |r| == |t| + 1
    ensures multiset(r) == multiset(t) + multiset{x}
  {
    if |t| == 0 then [x]
    else if less(x, t[0]) then [x] + t
    else
      assert t == [t[0]] + t[1..];
      [t[0]] + Insert(t[1..], x, less)
  }

  /** Inserts the elements one by one, in input order. */
  function InsertionSort<T>(s: seq<T>, less: (T, T) -> bool): (r: seq<T>)
    ensures |r| == |s|
    ensures multiset(r) == multiset(s)
  {
    if |s| == 0 then []
    else
      assert s == s[..|s| - 1] + [s[|s| - 1]];
      Insert(InsertionSort(s[..|s| - 1], less), s[|s| - 1], less)
  }

  /** Sorting neither adds nor loses values. */
  lemma {:induction false} SortSameElements<T>(s: seq<T>, less: (T, T) -> bool)
    ensures forall x :: x in InsertionSort(s, less) <==> x in s
  {
    var r := InsertionSort(s, less);
    forall x ensures x in r <==> x in s {
      assert x in r <==> x in multiset(r);
      assert x in s <==> x in multiset(s);
    }
  }

  ghost predicate SortedBy<T>(s: seq<T>, le: (T, T) -> bool) {
    forall i, j :: 0 <= i < j < |s| ==> le(s[i], s[j])
  }

  /** On the elements of u, `less` is the strict part of the total preorder `le`. */
  ghost predicate Consistent<T>(u: seq<T>, less: (T, T) -> bool, le: (T, T) -> bool) {
    && (forall a, b :: a in u && b in u ==> (less(a, b) <==> !le(b, a)))
    && (forall a, b :: a in u && b in u ==> le(a, b) || le(b, a))
    && (forall a, b, c :: a in u && b in u && c in u && le(a, b) && le(b, c) ==> le(a, c))
  }

  lemma {:induction false} InsertMembers<T>(t: seq<T>, x: T, less: (T, T) -> bool, y: T)
    requires y in Insert(t, x, less)
    ensures y in t || y == x
  {
    assert y in multiset(Insert(t, x, less));
  }

  lemma {:induction false} InsertSorted<T>(t: seq<T>, x: T, less: (T, T) -> bool, le: (T, T) -> bool, u: seq<T>)
    requires Consistent(u, less, le)
    requires x in u && forall i :: 0 <= i < |t| ==> t[i] in u
    requires SortedBy(t, le)
    ensures SortedBy(Insert(t, x, less), le)
  {
    if |t| > 0 {
      var r := Insert(t, x, less);
      if less(x, t[0]) {
        assert le(x, t[0]);
        forall i, j | 0 <= i < j < |r| ensures le(r[i], r[j]) {
          if i == 0 && j > 1 {
            assert le(t[0], t[j - 1]);
          }
        }
      } else {
        assert le(t[0], x);
        var tail := Insert(t[1..], x, less);
        InsertSorted(t[1..], x, less, le, u);
        forall j | 0 <= j < |tail| ensures le(t[0], tail[j]) {
          InsertMembers(t[1..], x, less, tail[j]);
          if tail[j] in t[1..] {
            var k :| 0 <= k < |t[1..]| && t[1..][k] == tail[j];
            assert t[k + 1] == tail[j];
          }
        }
        assert r == [t[0]] + tail;
      }
    }
  }

  /** With a consistent comparator the result is ordered. */
  lemma {:induction false} SortSorted<T>(s: seq<T>, less: (T, T) -> bool, le: (T, T) -> bool)
    requires Consistent(s, less, le)
    ensures SortedBy(InsertionSort(s, less), le)
  {
    if |s| > 0 {
      var p := s[..|s| - 1];
      assert Consistent(p, less, le) by {
        assert forall a :: a in p ==> a in s;
      }
      SortSorted(p, less, le);
      var t := InsertionSort(p, less);
      forall i | 0 <= i < |t| ensures t[i] in s {
        assert t[i] in multiset(t);
      }
      InsertSorted(t, s[|s| - 1], less, le, s);
    }
  }

  /** An element that is not strictly before any element already placed goes last. */
  lemma {:induction false} InsertAtEnd<T>(t: seq<T>, x: T, less: (T, T) -> bool)
    requires forall i :: 0 <= i < |t| ==> !less(x, t[i])
    ensures Insert(t, x, less) == t + [x]
  {
    if |t| > 0 {
      InsertAtEnd(t[1..], x, less);
      assert [t[0]] + (t[1..] + [x]) == t + [x];
    }
  }

  /** No element is strictly before an element placed ahead of it. */
  ghost predicate NoInversion<T>(s: seq<T>, less: (T, T) -> bool) {
    forall i, j :: 0 <= i < j < |s| ==> !less(s[j], s[i])
  }

  /** Sorting a sequence without inversions leaves it as it is. */
  lemma {:induction false} SortKeepsSorted<T>(s: seq<T>, less: (T, T) -> bool)
    requires NoInversion(s, less)
    ensures InsertionSort(s, less) == s
  {
    if |s| > 0 {
      var p := s[..|s| - 1];
      var x := s[|s| - 1];
      assert NoInversion(p, less);
      SortKeepsSorted(p, less);
      InsertAtEnd(p, x, less);
      assert p + [x] == s;
    }
  }

  /** Sorting twice is sorting once. */
  lemma {:induction false} SortIdempotent<T>(s: seq<T>, less: (T, T) -> bool, le: (T, T) -> bool)
    requires Consistent(s, less, le)
    ensures InsertionSort(InsertionSort(s, less), less) == InsertionSort(s, less)
  {
    var r := InsertionSort(s, less);
    SortSorted(s, less, le);
    forall i, j | 0 <= i < j < |r| ensures !less(r[j], r[i]) {
      assert r[i] in multiset(r) && r[j] in multiset(r);
      assert le(r[i], r[j]);
    }
    SortKeepsSorted(r, less);
  }

  /** Elements of class p that are never before anything and always after
      everything outside p end up after all the others. */
  lemma {:induction false} SortPartitions<T>(s: seq<T>, less: (T, T) -> bool, p: T -> bool)
    requires forall a, b :: a in s && b in s && p(a) ==> !less(a, b)
    requires forall a, b :: a in s && b in s && !p(a) && p(b) ==> less(a, b)
    ensures forall i, j :: 0 <= i < j < |s| && p(InsertionSort(s, less)[i]) ==> p(InsertionSort(s, less)[j])
  {
    if |s| > 0 {
      var pre := s[..|s| - 1];
      var x := s[|s| - 1];
      assert forall a :: a in pre ==> a in s;
      SortPartitions(pre, less, p);
      var t := InsertionSort(pre, less);
      forall i | 0 <= i < |t| ensures t[i] in s {
        assert t[i] in multiset(t);
      }
      InsertPartitions(t, x, less, p, s);
    }
  }

  lemma {:induction false} InsertPartitions<T>(t: seq<T>, x: T, less: (T, T) -> bool, p: T -> bool, u: seq<T>)
    requires forall a, b :: a in u && b in u && p(a) ==> !less(a, b)
    requires forall a, b :: a in u && b in u && !p(a) && p(b) ==> less(a, b)
    requires x in u && forall i :: 0 <= i < |t| ==> t[i] in u
    requires forall i, j :: 0 <= i < j < |t| && p(t[i]) ==> p(t[j])
    ensures forall i, j :: 0 <= i < j < |t| + 1 && p(Insert(t, x, less)[i]) ==> p(Insert(t, x, less)[j])
  {
    if |t| > 0 {
      var r := Insert(t, x, less);
      if !less(x, t[0]) {
        InsertPartitions(t[1..], x, less, p, u);
        var tail := Insert(t[1..], x, less);
        assert r == [t[0]] + tail;
        if p(t[0]) {
          assert p(x);
          forall j | 0 <= j < |tail| ensures p(tail[j]) {
            InsertMembers(t[1..], x, less, tail[j]);
            if tail[j] in t[1..] {
              var k :| 0 <= k < |t[1..]| && t[1..][k] == tail[j];
              assert t[k + 1] == tail[j];
            }
          }
        }
      } else {
        assert !p(x);
      }
    }
  }
}
