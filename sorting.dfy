/**
 * Python's `list.sort(key=..., reverse=...)`: a stable sort. It is modelled by
 * an insertion sort parameterised by the "may come first" relation `le`, which
 * places every new element after all elements it does not strictly precede, so
 * that elements with equal keys keep the order in which they were listed.
 */
module Sorting {

  /** `le` compares any two elements and its comparisons chain. */
  ghost predicate TotalPreorder<T(!new)>(le: (T, T) -> bool) {
    && (forall a, b :: le(a, b) || le(b, a))
    && (forall a, b, c :: le(a, b) && le(b, c) ==> le(a, c))
  }

  ghost predicate SortedBy<T>(s: seq<T>, le: (T, T) -> bool) {
    forall i, j :: 0 <= i < j < |s| ==> le(s[i], s[j])
  }

  /** Inserts `x` after the leading elements that may come before it. */
  function Insert<T>(x: T, s: seq<T>, le: (T, T) -> bool): (r: seq<T>)
    ensures |r| == |s| + 1
    ensures multiset(r) == multiset(s) + multiset{x}
    ensures forall e :: e in r ==> e == x || e in s
  {
    if s == [] then [x]
    else if le(s[0], x) then
      assert s == [s[0]] + s[1..];
      [s[0]] + Insert(x, s[1..], le)
    else [x] + s
  }

  /** Sorts `s` by inserting its elements one at a time, in list order. */
  function SortBy<T>(s: seq<T>, le: (T, T) -> bool): (r: seq<T>)
    ensures |r| == |s|
    ensures multiset(r) == multiset(s)
  {
    if s == [] then []
    else
      assert s == s[..|s| - 1] + [s[|s| - 1]];
      Insert(s[|s| - 1], SortBy(s[..|s| - 1], le), le)
  }

  lemma {:induction false} InsertSorted<T(!new)>(x: T, s: seq<T>, le: (T, T) -> bool)
    requires TotalPreorder(le)
    requires SortedBy(s, le)
    ensures SortedBy(Insert(x, s, le), le)
    decreases |s|
  {
    if s != [] {
      if le(s[0], x) {
        var tail := Insert(x, s[1..], le);
        InsertSorted(x, s[1..], le);
        var r := [s[0]] + tail;
        forall i, j | 0 <= i < j < |r| ensures le(r[i], r[j]) {
          if i == 0 {
            assert r[j] in tail;
            if r[j] != x {
              assert r[j] in s[1..];
            }
          } else {
            assert r[i] == tail[i - 1] && r[j] == tail[j - 1];
          }
        }
      } else {
        var r := [x] + s;
        assert le(x, s[0]);
        forall i, j | 0 <= i < j < |r| ensures le(r[i], r[j]) {
          if i == 0 {
            assert r[j] == s[j - 1];
            if j > 1 {
              assert le(s[0], s[j - 1]);
            }
          } else {
            assert r[i] == s[i - 1] && r[j] == s[j - 1];
          }
        }
      }
    }
  }

  /** The result of `SortBy` is ordered by `le` (it is a permutation by its own contract). */
  lemma {:induction false} SortBySorted<T(!new)>(s: seq<T>, le: (T, T) -> bool)
    requires TotalPreorder(le)
    ensures SortedBy(SortBy(s, le), le)
    decreases |s|
  {
    if s != [] {
      SortBySorted(s[..|s| - 1], le);
      InsertSorted(s[|s| - 1], SortBy(s[..|s| - 1], le), le);
    }
  }

  // ---------------------------------------------------------------------------
  // stability

  /** `a` and `b` are ranked level: each may come before the other. */
  predicate Level<T>(le: (T, T) -> bool, a: T, b: T) {
    le(a, b) && le(b, a)
  }

  /** The elements of `s` ranked level with `k`, in their order in `s`. */
  function LevelWith<T>(s: seq<T>, le: (T, T) -> bool, k: T): seq<T>
    decreases |s|
  {
    if s == [] then []
    else (if Level(le, s[0], k) then [s[0]] else []) + LevelWith(s[1..], le, k)
  }

  lemma {:induction false} LevelWithAppend<T>(a: seq<T>, b: seq<T>, le: (T, T) -> bool, k: T)
    ensures LevelWith(a + b, le, k) == LevelWith(a, le, k) + LevelWith(b, le, k)
    decreases |a|
  {
    if a != [] {
      assert (a + b)[0] == a[0];
      assert (a + b)[1..] == a[1..] + b;
      LevelWithAppend(a[1..], b, le, k);
    } else {
      assert a + b == b;
    }
  }

  lemma {:induction false} LevelWithNone<T>(s: seq<T>, le: (T, T) -> bool, k: T)
    requires forall i :: 0 <= i < |s| ==> !Level(le, s[i], k)
    ensures LevelWith(s, le, k) == []
    decreases |s|
  {
    if s != [] {
      LevelWithNone(s[1..], le, k);
    }
  }

  /** Nothing in a sorted list whose head comes strictly after `x` is ranked level with `x`. */
  lemma AfterStrictlyLater<T(!new)>(x: T, s: seq<T>, le: (T, T) -> bool, k: T)
    requires TotalPreorder(le) && SortedBy(s, le)
    requires s != [] && !le(s[0], x) && Level(le, x, k)
    ensures forall i :: 0 <= i < |s| ==> !Level(le, s[i], k)
  {
    forall i | 0 <= i < |s| ensures !Level(le, s[i], k) {
      if i > 0 {
        assert le(s[0], s[i]);
      }
    }
  }

  /** Inserting `x` into a sorted list puts it after every element ranked level with it. */
  lemma {:induction false} InsertStable<T(!new)>(x: T, s: seq<T>, le: (T, T) -> bool, k: T)
    requires TotalPreorder(le)
    requires SortedBy(s, le)
    ensures LevelWith(Insert(x, s, le), le, k) == LevelWith(s, le, k) + LevelWith([x], le, k)
    decreases |s|
  {
    if s == [] {
      assert Insert(x, s, le) == [x];
    } else if le(s[0], x) {
      InsertStable(x, s[1..], le, k);
      assert Insert(x, s, le) == [s[0]] + Insert(x, s[1..], le);
      assert [s[0]] + s[1..] == s;
      LevelWithConsBoth(s[0], Insert(x, s[1..], le), s[1..], LevelWith([x], le, k), le, k);
    } else {
      InsertInFront(x, s, le, k);
    }
  }

  lemma LevelWithCons<T>(e: T, t: seq<T>, le: (T, T) -> bool, k: T)
    ensures LevelWith([e] + t, le, k) == (if Level(le, e, k) then [e] else []) + LevelWith(t, le, k)
  {
    var r := [e] + t;
    assert r[0] == e && r[1..] == t;
  }

  /** Putting the same element in front of two lists keeps an equation between their level elements. */
  lemma LevelWithConsBoth<T>(e: T, t: seq<T>, u: seq<T>, b: seq<T>, le: (T, T) -> bool, k: T)
    requires LevelWith(t, le, k) == LevelWith(u, le, k) + b
    ensures LevelWith([e] + t, le, k) == LevelWith([e] + u, le, k) + b
  {
    var head := if Level(le, e, k) then [e] else [];
    LevelWithCons(e, t, le, k);
    LevelWithCons(e, u, le, k);
    ConcatAssoc(head, LevelWith(u, le, k), b);
  }

  lemma ConcatAssoc<T>(a: seq<T>, b: seq<T>, c: seq<T>)
    ensures a + (b + c) == (a + b) + c
  {
  }

  /** When `x` stops in front of a sorted list, nothing after it is ranked level with it. */
  lemma InsertInFront<T(!new)>(x: T, s: seq<T>, le: (T, T) -> bool, k: T)
    requires TotalPreorder(le) && SortedBy(s, le)
    requires s != [] && !le(s[0], x)
    ensures LevelWith(Insert(x, s, le), le, k) == LevelWith(s, le, k) + LevelWith([x], le, k)
  {
    var r := [x] + s;
    assert Insert(x, s, le) == r;
    assert r[0] == x && r[1..] == s;
    assert LevelWith(r, le, k) == LevelWith([x], le, k) + LevelWith(s, le, k) by {
      assert [x][1..] == [];
    }
    if Level(le, x, k) {
      AfterStrictlyLater(x, s, le, k);
      LevelWithNone(s, le, k);
    } else {
      assert LevelWith([x], le, k) == [] by {
        assert [x][1..] == [];
      }
    }
  }

  /**
   * `SortBy` is stable: the elements ranked level with any `k` come out in
   * the order in which they were listed.
   */
  lemma {:induction false} SortByStable<T(!new)>(s: seq<T>, le: (T, T) -> bool, k: T)
    requires TotalPreorder(le)
    ensures LevelWith(SortBy(s, le), le, k) == LevelWith(s, le, k)
    decreases |s|
  {
    if s != [] {
      var init, last := s[..|s| - 1], s[|s| - 1];
      assert s == init + [last];
      SortByStable(init, le, k);
      SortBySorted(init, le);
      InsertStable(last, SortBy(init, le), le, k);
      LevelWithAppend(init, [last], le, k);
    }
  }
}
