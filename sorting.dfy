/** `Array.prototype.sort(compare)` as ECMAScript 2019 and later specify it:
    a stable sort driven by a comparator whose sign says which of two elements
    goes first. The functional StableSort is the specification; SortInPlace
    sorts an array in place (insertion sort) and is proved equal to it. */
module Sorting {
  import Seqs

  /** A comparator consistent in the sense the sort relies on: swapping the
      arguments flips the sign, and "not after" is transitive. */
  ghost predicate Consistent<T(!new)>(cmp: (T, T) -> int) {
    && (forall a, b :: cmp(a, b) > 0 <==> cmp(b, a) < 0)
    && (forall a, b, c :: cmp(a, b) <= 0 && cmp(b, c) <= 0 ==> cmp(a, c) <= 0)
  }

  /** No element is placed after one that the comparator puts after it. */
  ghost predicate SortedBy<T>(s: seq<T>, cmp: (T, T) -> int) {
    forall i, j :: 0 <= i < j < |s| ==> cmp(s[i], s[j]) <= 0
  }

  /** Inserts x into r after every element that does not compare greater
      than x, scanning from the right. */
  function Insert<T>(r: seq<T>, x: T, cmp: (T, T) -> int): (out: seq<T>)
    ensures |out| == |r| + 1
  {
    if r == [] then [x]
    else if cmp(r[|r| - 1], x) > 0 then Insert(r[..|r| - 1], x, cmp) + [r[|r| - 1]]
    else r + [x]
  }

  /** The stable sort of s: insertion sort, element by element from the left. */
  function StableSort<T>(s: seq<T>, cmp: (T, T) -> int): (r: seq<T>)
    ensures |r| == |s|
  {
    if s == [] then [] else Insert(StableSort(s[..|s| - 1], cmp), s[|s| - 1], cmp)
  }

  /** Inserting adds exactly x. */
  lemma {:induction false} InsertPermutes<T>(r: seq<T>, x: T, cmp: (T, T) -> int)
    ensures multiset(Insert(r, x, cmp)) == multiset(r) + multiset{x}
  {
    if r != [] && cmp(r[|r| - 1], x) > 0 {
      assert r == r[..|r| - 1] + [r[|r| - 1]];
      InsertPermutes(r[..|r| - 1], x, cmp);
    }
  }

  /** The sort is a permutation of its input. */
  lemma {:induction false} StableSortPermutes<T>(s: seq<T>, cmp: (T, T) -> int)
    ensures multiset(StableSort(s, cmp)) == multiset(s)
  {
    if s != [] {
      assert s == s[..|s| - 1] + [s[|s| - 1]];
      StableSortPermutes(s[..|s| - 1], cmp);
      InsertPermutes(StableSort(s[..|s| - 1], cmp), s[|s| - 1], cmp);
    }
  }

  /** Inserting behind a greater last element goes in front of it. */
  lemma InsertBehind<T>(p: seq<T>, y: T, x: T, cmp: (T, T) -> int)
    requires cmp(y, x) > 0
    ensures Insert(p + [y], x, cmp) == Insert(p, x, cmp) + [y]
  {
    assert (p + [y])[..|p|] == p;
  }

  /** The two facts of Consistent, one instance at a time. */
  lemma Flip<T(!new)>(cmp: (T, T) -> int, a: T, b: T)
    requires Consistent(cmp)
    ensures cmp(a, b) > 0 <==> cmp(b, a) < 0
  {
  }

  lemma Trans<T(!new)>(cmp: (T, T) -> int, a: T, b: T, c: T)
    requires Consistent(cmp)
    requires cmp(a, b) <= 0 && cmp(b, c) <= 0
    ensures cmp(a, c) <= 0
  {
  }

  lemma {:induction false} InsertSorted<T(!new)>(r: seq<T>, x: T, cmp: (T, T) -> int)
    requires Consistent(cmp) && SortedBy(r, cmp)
    ensures SortedBy(Insert(r, x, cmp), cmp)
    decreases |r|, 1
  {
    if r != [] {
      var last := r[|r| - 1];
      var front := r[..|r| - 1];
      if cmp(last, x) > 0 {
        InsertSortedShift(front, last, x, cmp);
      } else {
        var out := r + [x];
        assert Insert(r, x, cmp) == out;
        forall i, j | 0 <= i < j < |out| ensures cmp(out[i], out[j]) <= 0 {
          if j == |r| && i < |r| - 1 {
            Trans(cmp, r[i], last, x);
          }
        }
      }
    }
  }

  lemma {:induction false} InsertSortedShift<T(!new)>(front: seq<T>, last: T, x: T, cmp: (T, T) -> int)
    requires Consistent(cmp) && SortedBy(front + [last], cmp)
    requires cmp(last, x) > 0
    ensures SortedBy(Insert(front + [last], x, cmp), cmp)
    decreases |front| + 1, 0
  {
    var r := front + [last];
    assert r[..|r| - 1] == front;
    assert SortedBy(front, cmp);
    InsertSorted(front, x, cmp);
    var ins := Insert(front, x, cmp);
    InsertBehind(front, last, x, cmp);
    InsertPermutes(front, x, cmp);
    Flip(cmp, last, x);
    forall e | e in ins ensures cmp(e, last) <= 0 {
      assert e in multiset(ins);
      if e != x {
        assert e in multiset(front);
        var k :| 0 <= k < |front| && front[k] == e;
        assert r[k] == e && r[|r| - 1] == last;
      }
    }
    var out := ins + [last];
    forall i, j | 0 <= i < j < |out| ensures cmp(out[i], out[j]) <= 0 {
      if j == |ins| {
        assert ins[i] in ins;
      } else {
        assert out[i] == ins[i] && out[j] == ins[j];
      }
    }
  }

  /** The result of StableSort is ordered by the comparator. */
  lemma {:induction false} StableSortSorted<T(!new)>(s: seq<T>, cmp: (T, T) -> int)
    requires Consistent(cmp)
    ensures SortedBy(StableSort(s, cmp), cmp)
  {
    if s != [] {
      StableSortSorted(s[..|s| - 1], cmp);
      InsertSorted(StableSort(s[..|s| - 1], cmp), s[|s| - 1], cmp);
    }
  }

  /** The elements of s that the comparator ties with x, in their order in s. */
  function TiesWith<T>(s: seq<T>, x: T, cmp: (T, T) -> int): seq<T> {
    if s == [] then []
    else TiesWith(s[..|s| - 1], x, cmp) + (if cmp(s[|s| - 1], x) == 0 then [s[|s| - 1]] else [])
  }

  lemma {:induction false} TiesWithAppend<T>(s: seq<T>, e: T, x: T, cmp: (T, T) -> int)
    ensures TiesWith(s + [e], x, cmp) == TiesWith(s, x, cmp) + (if cmp(e, x) == 0 then [e] else [])
  {
    assert (s + [e])[..|s|] == s;
  }

  /** The ties of x are the elements that pass the filter "compares equal to x". */
  lemma {:induction false} TiesWithFilter<T(!new)>(s: seq<T>, x: T, cmp: (T, T) -> int, p: T -> bool)
    requires forall e :: p(e) == (cmp(e, x) == 0)
    ensures TiesWith(s, x, cmp) == Seqs.Filter(s, p)
  {
    if s != [] {
      var front, e := s[..|s| - 1], s[|s| - 1];
      assert s == front + [e];
      TiesWithFilter(front, x, cmp, p);
      Seqs.FilterAppend(front, e, p);
    }
  }

  lemma {:induction false} InsertTies<T(!new)>(r: seq<T>, e: T, x: T, cmp: (T, T) -> int)
    requires Consistent(cmp)
    ensures TiesWith(Insert(r, e, cmp), x, cmp) == TiesWith(r, x, cmp) + (if cmp(e, x) == 0 then [e] else [])
  {
    var tieE := if cmp(e, x) == 0 then [e] else [];
    if r == [] {
      TiesWithAppend(r, e, x, cmp);
    } else {
      var last := r[|r| - 1];
      var front := r[..|r| - 1];
      assert front + [last] == r;
      var tieL := if cmp(last, x) == 0 then [last] else [];
      if cmp(last, e) > 0 {
        var ins := Insert(front, e, cmp);
        if cmp(e, x) == 0 && cmp(last, x) == 0 {
          Flip(cmp, x, e);
          Trans(cmp, last, x, e);
        }
        assert tieE + tieL == tieL + tieE;
        calc {
          TiesWith(Insert(r, e, cmp), x, cmp);
          TiesWith(ins + [last], x, cmp);
          { TiesWithAppend(ins, last, x, cmp); }
          TiesWith(ins, x, cmp) + tieL;
          { InsertTies(front, e, x, cmp); }
          TiesWith(front, x, cmp) + tieE + tieL;
          TiesWith(front, x, cmp) + tieL + tieE;
          { TiesWithAppend(front, last, x, cmp); }
          TiesWith(r, x, cmp) + tieE;
        }
      } else {
        assert Insert(r, e, cmp) == r + [e];
        TiesWithAppend(r, e, x, cmp);
      }
    }
  }

  /** Stability: the elements tied with any x appear in the sorted result in
      the same order as in the input. */
  lemma {:induction false} StableSortKeepsTies<T(!new)>(s: seq<T>, x: T, cmp: (T, T) -> int)
    requires Consistent(cmp)
    ensures TiesWith(StableSort(s, cmp), x, cmp) == TiesWith(s, x, cmp)
  {
    if s != [] {
      StableSortKeepsTies(s[..|s| - 1], x, cmp);
      InsertTies(StableSort(s[..|s| - 1], cmp), s[|s| - 1], x, cmp);
    }
  }

  /** One step of the shifting loop: moving past an element greater than x
      keeps the insertion point to the left of it. */
  lemma InsertStep<T>(r: seq<T>, x: T, cmp: (T, T) -> int, j: nat)
    requires 0 < j <= |r| && cmp(r[j - 1], x) > 0
    ensures Insert(r[..j], x, cmp) + r[j..] == Insert(r[..j - 1], x, cmp) + r[j - 1..]
  {
    var p, y := r[..j - 1], r[j - 1];
    assert r[..j] == p + [y];
    InsertBehind(p, y, x, cmp);
    assert [y] + r[j..] == r[j - 1..];
  }

  /** Where the shifting loop stops, x goes right after r[..j]. */
  lemma InsertStop<T>(r: seq<T>, x: T, cmp: (T, T) -> int, j: nat)
    requires j <= |r| && (j == 0 || cmp(r[j - 1], x) <= 0)
    ensures Insert(r[..j], x, cmp) + r[j..] == r[..j] + [x] + r[j..]
  {
  }

  /** Inserts a[i] into the prefix a[..i], shifting larger elements right. */
  method InsertAt<T>(a: array<T>, i: nat, cmp: (T, T) -> int)
    requires i < a.Length
    modifies a
    ensures a[..i + 1] == Insert(old(a[..i]), old(a[i]), cmp)
    ensures a[i + 1..] == old(a[i + 1..])
  {
    var x := a[i];
    ghost var r := a[..i];
    ghost var tail := a[i + 1..];
    ghost var target := Insert(r, x, cmp);
    var j := i;
    while j > 0 && cmp(a[j - 1], x) > 0
      invariant 0 <= j <= i
      invariant a[..j] == r[..j]
      invariant a[j + 1..i + 1] == r[j..]
      invariant a[i + 1..] == tail
      invariant target == Insert(r[..j], x, cmp) + r[j..]
    {
      ShiftRight(a, j, i, r);
      InsertStep(r, x, cmp, j);
      j := j - 1;
    }
    InsertStop(r, x, cmp, j);
    a[j] := x;
    assert a[..i + 1] == r[..j] + [x] + r[j..];
  }

  /** The loop body of InsertAt: a[j - 1] moves one place right. */
  method ShiftRight<T>(a: array<T>, j: nat, i: nat, ghost r: seq<T>)
    requires 0 < j <= i < a.Length && |r| == i
    requires a[..j] == r[..j] && a[j + 1..i + 1] == r[j..]
    modifies a
    ensures a[..j - 1] == r[..j - 1] && a[j..i + 1] == r[j - 1..]
    ensures a[i + 1..] == old(a[i + 1..])
  {
    a[j] := a[j - 1];
    assert a[j..i + 1] == [r[j - 1]] + r[j..];
  }

  /** Sorts a in place by insertion; the result is StableSort of the old
      contents. */
  method SortInPlace<T>(a: array<T>, cmp: (T, T) -> int)
    modifies a
    ensures a[..] == StableSort(old(a[..]), cmp)
  {
    ghost var s := a[..];
    var i := 0;
    while i < a.Length
      invariant 0 <= i <= a.Length
      invariant a[..i] == StableSort(s[..i], cmp)
      invariant a[i..] == s[i..]
    {
      assert a[i] == s[i];
      InsertAt(a, i, cmp);
      assert s[..i + 1][..i] == s[..i];
      i := i + 1;
    }
    assert a[..] == a[..a.Length] && s == s[..a.Length];
  }
}
