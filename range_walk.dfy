/**
 * Python's `for v in range(start, stop, step)` loops that collect what a body
 * yields for each value, once for one loop and once for two nested loops
 * (`for y in range(...): for x in range(...)`). The body is a function from
 * the loop variables to an optional value, so these definitions and their
 * lemmas hold whatever the body computes.
 */
module RangeWalk {
  import opened Wrappers

  /** `range(..., stop, step)` yields `v` and goes on (for `step != 0`). */
  predicate InRange(v: int, stop: int, step: int) {
    if step > 0 then v < stop else step < 0 && v > stop
  }

  /** `v` is one of `start`, `start + step`, `start + 2 * step`, ... for a positive step. */
  predicate OnGrid(v: int, start: int, step: int)
    decreases v - start
  {
    step > 0 && start <= v && (v == start || OnGrid(v, start + step, step))
  }

  function Emitted<T>(o: Option<T>): seq<T> {
    if o.Some? then [o.value] else []
  }

  /** What the body `f` yields over `range(v, stop, step)`, in loop order. */
  function Walk<T>(f: int -> Option<T>, v: int, stop: int, step: int): seq<T>
    decreases if step > 0 then stop - v else v - stop
  {
    if !InRange(v, stop, step) then []
    else Emitted(f(v)) + Walk(f, v + step, stop, step)
  }

  /** The inner loop's body for a fixed outer value `y`. */
  function RowOf<T>(g: (int, int) -> Option<T>, y: int): int -> Option<T> {
    u => g(u, y)
  }

  /** What `g` yields over the nested loops, rows from `y` onwards: the outer loop over `y`, the inner over `x`. */
  function Walk2<T>(g: (int, int) -> Option<T>, minX: int, maxX: int, y: int, maxY: int, step: int): seq<T>
    decreases if step > 0 then maxY - y else y - maxY
  {
    if !InRange(y, maxY, step) then []
    else Walk(RowOf(g, y), minX, maxX, step) + Walk2(g, minX, maxX, y + step, maxY, step)
  }

  lemma ConcatAssoc<T>(a: seq<T>, b: seq<T>, c: seq<T>)
    ensures a + (b + c) == a + b + c
  {
  }

  /** One iteration of the loop. */
  lemma WalkStep<T>(f: int -> Option<T>, v: int, stop: int, step: int)
    requires InRange(v, stop, step)
    ensures Walk(f, v, stop, step) == Emitted(f(v)) + Walk(f, v + step, stop, step)
  {
  }

  /** The invariant of a loop that appends what the body yields: one more iteration keeps it. */
  lemma WalkAdvance<T>(f: int -> Option<T>, acc: seq<T>, whole: seq<T>, v: int, stop: int, step: int)
    requires InRange(v, stop, step)
    requires acc + Walk(f, v, stop, step) == whole
    ensures acc + Emitted(f(v)) + Walk(f, v + step, stop, step) == whole
  {
    assert acc + (Emitted(f(v)) + Walk(f, v + step, stop, step)) == acc + Emitted(f(v)) + Walk(f, v + step, stop, step);
  }

  /** Every collected value was yielded by the body for some loop value, which with a positive step is on the grid. */
  lemma {:induction false} WalkSound<T>(f: int -> Option<T>, v: int, stop: int, step: int)
    ensures forall e :: e in Walk(f, v, stop, step) ==>
              exists u :: f(u) == Some(e) && (step > 0 ==> OnGrid(u, v, step) && u < stop)
    decreases if step > 0 then stop - v else v - stop
  {
    if InRange(v, stop, step) {
      WalkSound(f, v + step, stop, step);
      forall e | e in Walk(f, v, stop, step)
        ensures exists u :: f(u) == Some(e) && (step > 0 ==> OnGrid(u, v, step) && u < stop)
      {
        if e in Emitted(f(v)) {
          assert f(v) == Some(e) && (step > 0 ==> OnGrid(v, v, step));
        } else {
          var u :| f(u) == Some(e) && (step > 0 ==> OnGrid(u, v + step, step) && u < stop);
          assert step > 0 ==> OnGrid(u, v, step);
        }
      }
    }
  }

  /** Every grid value before `stop` whose body yields something has it collected. */
  lemma {:induction false} WalkComplete<T>(f: int -> Option<T>, v: int, stop: int, step: int, u: int)
    requires OnGrid(u, v, step) && u < stop && f(u).Some?
    ensures f(u).value in Walk(f, v, stop, step)
    decreases u - v
  {
    if u != v {
      WalkComplete(f, v + step, stop, step, u);
    }
  }

  /**
   * When each yielded value records its loop value in `key`, a positive step
   * collects them with strictly increasing keys.
   */
  lemma {:induction false} WalkOrdered<T>(f: int -> Option<T>, key: T -> int, v: int, stop: int, step: int)
    requires step > 0
    requires forall u :: f(u).Some? ==> key(f(u).value) == u
    ensures IncreasingBy(Walk(f, v, stop, step), key)
    decreases stop - v
  {
    if v < stop {
      var rest := Walk(f, v + step, stop, step);
      WalkOrdered(f, key, v + step, stop, step);
      WalkSound(f, v + step, stop, step);
      var w := Walk(f, v, stop, step);
      WalkStep(f, v, stop, step);
      assert w == Emitted(f(v)) + rest;
      forall e | e in rest ensures v < key(e) {
        var u :| f(u) == Some(e) && OnGrid(u, v + step, step) && u < stop;
      }
      forall i, j | 0 <= i < j < |w| ensures key(w[i]) < key(w[j]) {
        if f(v).Some? && i == 0 {
          assert w[0] == f(v).value && key(f(v).value) == v;
          assert w[j] == rest[j - 1] && w[j] in rest;
        } else if f(v).Some? {
          assert w[i] == rest[i - 1] && w[j] == rest[j - 1];
        } else {
          assert w[i] == rest[i] && w[j] == rest[j];
        }
      }
    }
  }

  /** A negative step from `v <= stop` never enters the loop. */
  lemma WalkNegativeStep<T>(f: int -> Option<T>, v: int, stop: int, step: int)
    requires step < 0 && v <= stop
    ensures Walk(f, v, stop, step) == []
  {
  }

  /** One iteration of the outer loop. */
  lemma Walk2Step<T>(g: (int, int) -> Option<T>, minX: int, maxX: int, y: int, maxY: int, step: int)
    requires InRange(y, maxY, step)
    ensures Walk2(g, minX, maxX, y, maxY, step)
         == Walk(RowOf(g, y), minX, maxX, step) + Walk2(g, minX, maxX, y + step, maxY, step)
  {
  }

  /** The invariant of the outer loop: appending one row's values keeps it. */
  lemma Walk2Advance<T>(g: (int, int) -> Option<T>, acc: seq<T>, whole: seq<T>, minX: int, maxX: int, y: int, maxY: int, step: int)
    requires InRange(y, maxY, step)
    requires acc + Walk2(g, minX, maxX, y, maxY, step) == whole
    ensures acc + Walk(RowOf(g, y), minX, maxX, step) + Walk2(g, minX, maxX, y + step, maxY, step) == whole
  {
    var row := Walk(RowOf(g, y), minX, maxX, step);
    var rest := Walk2(g, minX, maxX, y + step, maxY, step);
    assert acc + (row + rest) == acc + row + rest;
  }

  /** Every collected value was yielded by the body at some pair of loop values, on the grid for a positive step. */
  lemma {:induction false} Walk2Sound<T>(g: (int, int) -> Option<T>, minX: int, maxX: int, y: int, maxY: int, step: int)
    ensures forall e :: e in Walk2(g, minX, maxX, y, maxY, step) ==>
              exists u, w :: g(u, w) == Some(e) &&
                (step > 0 ==> OnGrid(u, minX, step) && u < maxX && OnGrid(w, y, step) && w < maxY)
    decreases if step > 0 then maxY - y else y - maxY
  {
    if InRange(y, maxY, step) {
      Walk2Sound(g, minX, maxX, y + step, maxY, step);
      WalkSound(RowOf(g, y), minX, maxX, step);
      forall e | e in Walk2(g, minX, maxX, y, maxY, step)
        ensures exists u, w :: g(u, w) == Some(e) &&
                  (step > 0 ==> OnGrid(u, minX, step) && u < maxX && OnGrid(w, y, step) && w < maxY)
      {
        if e in Walk(RowOf(g, y), minX, maxX, step) {
          var u :| RowOf(g, y)(u) == Some(e) && (step > 0 ==> OnGrid(u, minX, step) && u < maxX);
          assert g(u, y) == Some(e) && (step > 0 ==> OnGrid(y, y, step));
        } else {
          var u, w :| g(u, w) == Some(e) &&
            (step > 0 ==> OnGrid(u, minX, step) && u < maxX && OnGrid(w, y + step, step) && w < maxY);
          assert step > 0 ==> OnGrid(w, y, step);
        }
      }
    }
  }

  /** Every grid pair whose body yields something has it collected. */
  lemma {:induction false} Walk2Complete<T>(g: (int, int) -> Option<T>, minX: int, maxX: int, y: int, maxY: int, step: int,
                                            u: int, w: int)
    requires OnGrid(u, minX, step) && u < maxX && OnGrid(w, y, step) && w < maxY && g(u, w).Some?
    ensures g(u, w).value in Walk2(g, minX, maxX, y, maxY, step)
    decreases w - y
  {
    if w == y {
      assert RowOf(g, y)(u) == g(u, w);
      WalkComplete(RowOf(g, y), minX, maxX, step, u);
    } else {
      Walk2Complete(g, minX, maxX, y + step, maxY, step, u, w);
    }
  }

  /** The keys strictly increase along `s`. */
  ghost predicate IncreasingBy<T>(s: seq<T>, key: T -> int) {
    forall i, j :: 0 <= i < j < |s| ==> key(s[i]) < key(s[j])
  }

  /** Row keys `ky`, then column keys `kx`, strictly increase along `s`. */
  ghost predicate InReadingOrder<T>(s: seq<T>, kx: T -> int, ky: T -> int) {
    forall i, j :: 0 <= i < j < |s| ==> ReadingOrder(ky(s[i]), kx(s[i]), ky(s[j]), kx(s[j]))
  }

  /** Row `ay`, column `ax` comes strictly before row `cy`, column `cx`: row first, then column. */
  predicate ReadingOrder(ay: int, ax: int, cy: int, cx: int) {
    ay < cy || (ay == cy && ax < cx)
  }

  /** A row in increasing column order followed by later rows in reading order is in reading order. */
  lemma ConcatReadingOrder<T>(row: seq<T>, rest: seq<T>, kx: T -> int, ky: T -> int, y: int)
    requires forall e :: e in row ==> ky(e) == y
    requires IncreasingBy(row, kx)
    requires forall e :: e in rest ==> y < ky(e)
    requires InReadingOrder(rest, kx, ky)
    ensures InReadingOrder(row + rest, kx, ky)
  {
    var s := row + rest;
    forall i, j | 0 <= i < j < |s| ensures ReadingOrder(ky(s[i]), kx(s[i]), ky(s[j]), kx(s[j])) {
      if j < |row| {
        assert s[i] == row[i] && s[j] == row[j];
        assert row[i] in row && row[j] in row;
      } else if i < |row| {
        assert s[i] == row[i] && s[j] == rest[j - |row|];
        assert s[i] in row && s[j] in rest;
      } else {
        assert s[i] == rest[i - |row|] && s[j] == rest[j - |row|];
      }
    }
  }

  /** The values of one row carry that row's `y` and come in increasing `x`. */
  lemma RowKeys<T>(g: (int, int) -> Option<T>, kx: T -> int, ky: T -> int, minX: int, maxX: int, y: int, step: int)
    requires step > 0
    requires forall u, w :: g(u, w).Some? ==> kx(g(u, w).value) == u && ky(g(u, w).value) == w
    ensures forall e :: e in Walk(RowOf(g, y), minX, maxX, step) ==> ky(e) == y
    ensures IncreasingBy(Walk(RowOf(g, y), minX, maxX, step), kx)
  {
    var f := RowOf(g, y);
    forall u | f(u).Some? ensures kx(f(u).value) == u {
      assert f(u) == g(u, y);
    }
    WalkOrdered(f, kx, minX, maxX, step);
    WalkSound(f, minX, maxX, step);
    forall e | e in Walk(f, minX, maxX, step) ensures ky(e) == y {
      var u :| f(u) == Some(e) && OnGrid(u, minX, step) && u < maxX;
      assert g(u, y) == Some(e);
    }
  }

  /**
   * When each yielded value records its loop values in `kx` and `ky`, a
   * positive step collects them in strictly increasing reading order.
   */
  lemma {:induction false} Walk2Ordered<T>(g: (int, int) -> Option<T>, kx: T -> int, ky: T -> int,
                                           minX: int, maxX: int, y: int, maxY: int, step: int)
    requires step > 0
    requires forall u, w :: g(u, w).Some? ==> kx(g(u, w).value) == u && ky(g(u, w).value) == w
    ensures InReadingOrder(Walk2(g, minX, maxX, y, maxY, step), kx, ky)
    decreases maxY - y
  {
    if y < maxY {
      var row := Walk(RowOf(g, y), minX, maxX, step);
      var rest := Walk2(g, minX, maxX, y + step, maxY, step);
      RowKeys(g, kx, ky, minX, maxX, y, step);
      Walk2Ordered(g, kx, ky, minX, maxX, y + step, maxY, step);
      Walk2Sound(g, minX, maxX, y + step, maxY, step);
      forall e | e in rest ensures y < ky(e) {
        var u, w :| g(u, w) == Some(e) && OnGrid(u, minX, step) && u < maxX && OnGrid(w, y + step, step) && w < maxY;
      }
      ConcatReadingOrder(row, rest, kx, ky, y);
      Walk2Step(g, minX, maxX, y, maxY, step);
    }
  }

  /** A negative step from `y <= maxY` never enters the outer loop. */
  lemma Walk2NegativeStep<T>(g: (int, int) -> Option<T>, minX: int, maxX: int, y: int, maxY: int, step: int)
    requires step < 0 && y <= maxY
    ensures Walk2(g, minX, maxX, y, maxY, step) == []
  {
  }

  /** A body that never yields anything collects nothing. */
  lemma {:induction false} WalkNothing<T>(f: int -> Option<T>, v: int, stop: int, step: int)
    requires forall u :: f(u) == None
    ensures Walk(f, v, stop, step) == []
    decreases if step > 0 then stop - v else v - stop
  {
    if InRange(v, stop, step) {
      WalkNothing(f, v + step, stop, step);
    }
  }

  /** Nested loops whose body never yields anything collect nothing. */
  lemma {:induction false} Walk2Nothing<T>(g: (int, int) -> Option<T>, minX: int, maxX: int, y: int, maxY: int, step: int)
    requires forall u, w :: g(u, w) == None
    ensures Walk2(g, minX, maxX, y, maxY, step) == []
    decreases if step > 0 then maxY - y else y - maxY
  {
    if InRange(y, maxY, step) {
      forall u ensures RowOf(g, y)(u) == None {
        assert RowOf(g, y)(u) == g(u, y);
      }
      WalkNothing(RowOf(g, y), minX, maxX, step);
      Walk2Nothing(g, minX, maxX, y + step, maxY, step);
    }
  }
}
