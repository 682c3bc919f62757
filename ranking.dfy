/** Stable ordering of a sequence by a total preorder: the behaviour of
    Python's `sorted` (guaranteed stable) and one admissible outcome of an SQL
    `ORDER BY`. `le(a, b)` reads "a may be placed before b". */
module Ranking {

  ghost predicate TotalPreorder<T(!new)>(le: (T, T) -> bool) {
    && (forall a, b :: le(a, b) || le(b, a))
    && (forall a, b, c :: le(a, b) && le(b, c) ==> le(a, c))
  }

  predicate Sorted<T>(s: seq<T>, le: (T, T) -> bool) {
    forall i, j :: 0 <= i < j < |s| ==> le(s[i], s[j])
  }

  /** `a` and `b` rank equally. */
  predicate Tie<T>(le: (T, T) -> bool, a: T, b: T) {
    le(a, b) && le(b, a)
  }

  /** The elements of `s` that rank equally with `t`, in their order in `s`. */
  function Tied<T>(s: seq<T>, le: (T, T) -> bool, t: T): seq<T>
    decreases |s|
  {
    if s == [] then [] else (if Tie(le, s[0], t) then [s[0]] else []) + Tied(s[1..], le, t)
  }

  /** Inserts `x` after every element that may precede it. */
  function Insert<T>(x: T, s: seq<T>, le: (T, T) -> bool): seq<T>
    decreases |s|
  {
    if s == [] then [x]
    else if le(s[0], x) then [s[0]] + Insert(x, s[1..], le)
    else [x] + s
  }

  /** Insertion sort, taking the input from left to right. */
  function StableSort<T>(s: seq<T>, le: (T, T) -> bool): seq<T>
    decreases |s|
  {
    if s == [] then [] else Insert(s[|s| - 1], StableSort(s[..|s| - 1], le), le)
  }

  lemma {:induction false} InsertPermutation<T>(x: T, s: seq<T>, le: (T, T) -> bool)
    ensures multiset(Insert(x, s, le)) == multiset(s) + multiset{x}
    decreases |s|
  {
    if s != [] && le(s[0], x) {
      InsertPermutation(x, s[1..], le);
      assert s == [s[0]] + s[1..];
    }
  }

  lemma {:induction false} InsertSorted<T(!new)>(x: T, s: seq<T>, le: (T, T) -> bool)
    requires TotalPreorder(le) && Sorted(s, le)
    ensures Sorted(Insert(x, s, le), le)
    ensures multiset(Insert(x, s, le)) == multiset(s) + multiset{x}
    decreases |s|
  {
    InsertPermutation(x, s, le);
    if s == [] {
    } else if le(s[0], x) {
      var tail := s[1..];
      InsertSorted(x, tail, le);
      var r := Insert(x, tail, le);
      forall j | 0 <= j < |r| ensures le(s[0], r[j]) {
        assert r[j] in multiset(tail) + multiset{x};
        if r[j] != x {
          assert r[j] in tail;
          var k :| 0 <= k < |tail| && tail[k] == r[j];
          assert tail[k] == s[k + 1];
        }
      }
      var out := [s[0]] + r;
      assert Insert(x, s, le) == out;
      forall i, j | 0 <= i < j < |out| ensures le(out[i], out[j]) {
        assert out[j] == r[j - 1];
        if i > 0 {
          assert out[i] == r[i - 1];
        }
      }
    } else {
      assert le(x, s[0]);
      var out := [x] + s;
      forall i, j | 0 <= i < j < |out| ensures le(out[i], out[j]) {
        assert out[j] == s[j - 1];
        if i == 0 {
          if j > 1 {
            assert le(s[0], s[j - 1]);
          }
        } else {
          assert out[i] == s[i - 1];
        }
      }
    }
  }

  lemma {:induction false} TiedAppend<T>(a: seq<T>, b: seq<T>, le: (T, T) -> bool, t: T)
    ensures Tied(a + b, le, t) == Tied(a, le, t) + Tied(b, le, t)
    decreases |a|
  {
    if a != [] {
      assert (a + b)[0] == a[0] && (a + b)[1..] == a[1..] + b;
      TiedAppend(a[1..], b, le, t);
    } else {
      assert a + b == b;
    }
  }

  lemma {:induction false} TiedNone<T>(s: seq<T>, le: (T, T) -> bool, t: T)
    requires forall i :: 0 <= i < |s| ==> !Tie(le, s[i], t)
    ensures Tied(s, le, t) == []
    decreases |s|
  {
    if s != [] {
      TiedNone(s[1..], le, t);
    }
  }

  lemma {:induction false} InsertTied<T(!new)>(x: T, s: seq<T>, le: (T, T) -> bool, t: T)
    requires TotalPreorder(le) && Sorted(s, le)
    ensures Tied(Insert(x, s, le), le, t) == Tied(s, le, t) + (if Tie(le, x, t) then [x] else [])
    decreases |s|
  {
    var own := if Tie(le, x, t) then [x] else [];
    if s == [] {
      assert Tied([x], le, t) == own + Tied([], le, t);
    } else if le(s[0], x) {
      var r := Insert(x, s[1..], le);
      InsertTied(x, s[1..], le, t);
      var head := if Tie(le, s[0], t) then [s[0]] else [];
      assert ([s[0]] + r)[0] == s[0] && ([s[0]] + r)[1..] == r;
      assert Tied([s[0]] + r, le, t) == head + Tied(r, le, t);
      assert Tied(s, le, t) == head + Tied(s[1..], le, t);
    } else {
      assert ([x] + s)[0] == x && ([x] + s)[1..] == s;
      assert Tied([x] + s, le, t) == own + Tied(s, le, t);
      if Tie(le, x, t) {
        forall i | 0 <= i < |s| ensures !Tie(le, s[i], t) {
          assert le(s[0], s[i]);
        }
        TiedNone(s, le, t);
      }
    }
  }

  lemma TiedLast<T>(init: seq<T>, x: T, le: (T, T) -> bool, t: T)
    ensures Tied(init + [x], le, t) == Tied(init, le, t) + (if Tie(le, x, t) then [x] else [])
  {
    TiedAppend(init, [x], le, t);
    assert [x][1..] == [];
  }

  /** The result of StableSort is ordered and is a permutation of the input. */
  lemma {:induction false} SortSortedPermutation<T(!new)>(s: seq<T>, le: (T, T) -> bool)
    requires TotalPreorder(le)
    ensures Sorted(StableSort(s, le), le)
    ensures multiset(StableSort(s, le)) == multiset(s)
    decreases |s|
  {
    if s != [] {
      var init := s[..|s| - 1];
      SortSortedPermutation(init, le);
      InsertSorted(s[|s| - 1], StableSort(init, le), le);
      assert s == init + [s[|s| - 1]];
    }
  }

  /** Stability: elements that rank equally keep their relative input order. */
  lemma {:induction false} SortStable<T(!new)>(s: seq<T>, le: (T, T) -> bool, t: T)
    requires TotalPreorder(le)
    ensures Tied(StableSort(s, le), le, t) == Tied(s, le, t)
    decreases |s|
  {
    if s != [] {
      var init, x := s[..|s| - 1], s[|s| - 1];
      SortStable(init, le, t);
      SortSortedPermutation(init, le);
      InsertTied(x, StableSort(init, le), le, t);
      assert s == init + [x];
      TiedLast(init, x, le, t);
    }
  }

  /** Python's `s[:n]` for a non-negative `n`. */
  function Take<T>(s: seq<T>, n: nat): (r: seq<T>)
    ensures |r| <= n && r <= s
    ensures |s| <= n ==> r == s
    ensures n <= |s| ==> |r| == n
  {
    if n <= |s| then s[..n] else s
  }
}
