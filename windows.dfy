/**
 * The split of the global time range `[start_time, end_time]` into one
 * window per worker slot, as `main` computes it before scanning: an interval
 * obtained by floor division, and a last window stretched to the global end.
 */
module Windows {
  import opened Common

  /**
   * `(end_time - start_time) // max_workers`. A worker count of zero stops
   * the run with a division by zero, and a negative one is refused by the
   * thread pool created on the next line; both are `None`.
   */
  function Interval(start: int, end: int, workers: int): (r: Option<int>)
    ensures r.Some? <==> workers > 0
    ensures r.Some? ==> r.value * workers <= end - start < (r.value + 1) * workers
  {
    if workers <= 0 then None else Some((end - start) / workers)
  }

  /**
   * Window `i` of the loop over `range(max_workers)`: it starts `i` intervals
   * after `start_time` and lasts one interval, except the last one, which ends
   * at `end_time`. Both ends are inclusive, as the scan tests them.
   */
  function Window(start: int, end: int, workers: int, i: int): (int, int)
    requires 0 <= i < workers
  {
    var interval := Interval(start, end, workers).value;
    var taskStart := start + i * interval;
    (taskStart, if i == workers - 1 then end else taskStart + interval)
  }

  /** All the windows, in scan order; `None` when the worker count is refused. */
  function Partition(start: int, end: int, workers: int): (r: Option<seq<(int, int)>>)
    ensures r.Some? <==> workers > 0
    ensures r.Some? ==> |r.value| == workers
    ensures r.Some? ==> forall i :: 0 <= i < workers ==> r.value[i] == Window(start, end, workers, i)
  {
    if workers <= 0 then None else Some(seq(workers, i requires 0 <= i < workers => Window(start, end, workers, i)))
  }

  /**
   * The windows start at `start_time`, end at `end_time`, follow each other
   * without gap (each one ends where the next starts), and every window but
   * the last is exactly one interval long.
   */
  lemma PartitionShape(start: int, end: int, workers: int)
    requires workers > 0
    ensures var ws := Partition(start, end, workers).value;
            var interval := Interval(start, end, workers).value;
            ws[0].0 == start && ws[workers - 1].1 == end &&
            (forall i :: 0 <= i < workers ==> ws[i].0 == start + i * interval) &&
            (forall i :: 0 <= i < workers - 1 ==> ws[i].1 == ws[i + 1].0 && ws[i].1 - ws[i].0 == interval)
  {
    var ws := Partition(start, end, workers).value;
    var interval := Interval(start, end, workers).value;
    forall i | 0 <= i < workers - 1
      ensures ws[i].1 == ws[i + 1].0
    {
      assert start + i * interval + interval == start + (i + 1) * interval;
    }
  }

  /** Multiplying both sides of `a <= b` by a non-negative factor keeps the order. */
  lemma MulMonotone(a: int, b: int, c: int)
    requires a <= b && 0 <= c
    ensures a * c <= b * c
  {
    var d := b - a;
    assert 0 <= d * c;
    assert b * c == a * c + d * c;
  }

  /** The interval of a range that is not reversed is not negative. */
  lemma IntervalNotNegative(start: int, end: int, workers: int)
    requires start <= end && workers > 0
    ensures 0 <= Interval(start, end, workers).value
  {
    var interval := Interval(start, end, workers).value;
    if interval < 0 {
      MulMonotone(interval + 1, 0, workers);
    }
  }

  /** The first `i + 1` intervals never reach past the global range when it is not reversed. */
  lemma IntervalsFit(start: int, end: int, workers: int, i: int)
    requires start <= end && 0 <= i < workers
    ensures var interval := Interval(start, end, workers).value;
            0 <= interval && i * interval + interval <= end - start
  {
    var interval := Interval(start, end, workers).value;
    IntervalNotNegative(start, end, workers);
    MulMonotone(i + 1, workers, interval);
    assert (i + 1) * interval == i * interval + interval;
  }

  predicate InWindow(w: (int, int), t: int) {
    w.0 <= t <= w.1
  }

  /** Instant `t` lies in one of the windows `ws`. */
  predicate Covered(ws: seq<(int, int)>, t: int) {
    exists i :: 0 <= i < |ws| && InWindow(ws[i], t)
  }

  /**
   * For a range that is not reversed, every window lies inside it and
   * starts no later than it ends, and every instant of the range lies in
   * some window.
   */
  lemma PartitionCovers(start: int, end: int, workers: int)
    requires workers > 0 && start <= end
    ensures var ws := Partition(start, end, workers).value;
            (forall i :: 0 <= i < workers ==> start <= ws[i].0 <= ws[i].1 <= end) &&
            (forall t :: start <= t <= end ==> Covered(ws, t))
  {
    var ws := Partition(start, end, workers).value;
    forall i | 0 <= i < workers
      ensures start <= ws[i].0 <= ws[i].1 <= end
    {
      IntervalsFit(start, end, workers, i);
    }
    forall t | start <= t <= end
      ensures Covered(ws, t)
    {
      var i := WindowOf(start, end, workers, t);
      assert InWindow(ws[i], t);
    }
  }

  /** The window holding instant `t`: the whole intervals elapsed since `start`, capped at the last window. */
  lemma WindowOf(start: int, end: int, workers: int, t: int) returns (i: int)
    requires workers > 0 && start <= t <= end
    ensures 0 <= i < workers
    ensures InWindow(Window(start, end, workers, i), t)
  {
    var interval := Interval(start, end, workers).value;
    IntervalsFit(start, end, workers, workers - 1);
    if interval == 0 {
      i := workers - 1;
    } else {
      var k := (t - start) / interval;
      var rest := (t - start) % interval;
      assert t - start == k * interval + rest && 0 <= rest < interval;
      if k < 0 {
        MulMonotone(k + 1, 0, interval);
        assert false;
      }
      if k < workers {
        i := k;
        assert (k + 1) * interval == k * interval + interval;
      } else {
        i := workers - 1;
        MulMonotone(i, k, interval);
      }
    }
  }

  /**
   * Nothing refuses a reversed range: `start_time` 5 and `end_time` 0 split
   * over 4 workers give the windows [5, 3], [3, 1], [1, -1] and [-1, 0], and
   * the last of them still admits events stamped -1 or 0.
   */
  lemma ReversedRangeIsPartitioned()
    ensures Interval(5, 0, 4) == Some(-2)
    ensures Window(5, 0, 4, 0) == (5, 3) && Window(5, 0, 4, 1) == (3, 1)
    ensures Window(5, 0, 4, 2) == (1, -1) && Window(5, 0, 4, 3) == (-1, 0)
  {
    assert -5 == -2 * 4 + 3;
  }
}
