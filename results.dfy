/**
 * The three result queues (`result_queue`, `result_queue_replace`,
 * `result_queue_replace_without_null`), their draining into lists once every
 * window is done, and the stable sort by `event_time` applied to each list.
 */
module Results {

  /** Which rollback a record carries, that is, which queue it belongs to. */
  datatype Variant = Direct | ReplaceFull | ReplaceSparse

  /** One queued dictionary `{"event_time", "sql", "rollback_sql"}`, tagged with its queue. */
  datatype Record = Record(eventTime: int, sql: string, rollbackSql: string, variant: Variant)

  /** The records of `rs` that go to the queue of `v`, in order. */
  function Route(rs: seq<Record>, v: Variant): (r: seq<Record>)
    ensures |r| <= |rs|
  {
    if rs == [] then []
    else (if rs[0].variant == v then [rs[0]] else []) + Route(rs[1..], v)
  }

  /** A queue receives only records of its own kind, taken from the routed ones. */
  lemma {:induction false} RouteMembers(rs: seq<Record>, v: Variant)
    ensures forall x :: x in Route(rs, v) ==> x in rs && x.variant == v
  {
    if rs != [] {
      RouteMembers(rs[1..], v);
    }
  }

  lemma {:induction false} RouteAppend(a: seq<Record>, b: seq<Record>, v: Variant)
    ensures Route(a + b, v) == Route(a, v) + Route(b, v)
  {
    if a != [] {
      assert (a + b)[1..] == a[1..] + b;
      RouteAppend(a[1..], b, v);
    } else {
      assert a + b == b;
    }
  }

  lemma RouteSingleton(x: Record)
    ensures forall v :: Route([x], v) == if x.variant == v then [x] else []
  {
    assert [x][1..] == [];
  }

  /** Queueing the records of `more` after those of `done` extends a queue by their routed part. */
  lemma RouteExtend(queued: seq<Record>, done: seq<Record>, more: seq<Record>, v: Variant)
    ensures queued + Route(done + more, v) == queued + Route(done, v) + Route(more, v)
  {
    RouteAppend(done, more, v);
    assert queued + (Route(done, v) + Route(more, v)) == queued + Route(done, v) + Route(more, v);
  }

  /** The contents of the three queues: direct, REPLACE, and REPLACE without nulls. */
  type Queues = (seq<Record>, seq<Record>, seq<Record>)

  /** The queue contents `base` extended by the routed `records`. */
  function Extended(base: Queues, records: seq<Record>): Queues {
    (base.0 + Route(records, Direct), base.1 + Route(records, ReplaceFull), base.2 + Route(records, ReplaceSparse))
  }

  lemma ExtendedAppend(base: Queues, a: seq<Record>, b: seq<Record>)
    ensures Extended(Extended(base, a), b) == Extended(base, a + b)
  {
    RouteExtend(base.0, a, b, Direct);
    RouteExtend(base.1, a, b, ReplaceFull);
    RouteExtend(base.2, a, b, ReplaceSparse);
  }

  /** A thread-safe FIFO queue of records, kept as its contents front first. */
  class RecordQueue {
    var items: seq<Record>

    constructor ()
      ensures items == []
    {
      items := [];
    }

    function Empty(): (r: bool)
      reads this
      ensures r <==> items == []
    {
      |items| == 0
    }

    method Put(r: Record)
      modifies this
      ensures items == old(items) + [r]
    {
      items := items + [r];
    }

    method Get() returns (r: Record)
      requires items != []
      modifies this
      ensures [r] + items == old(items)
    {
      r := items[0];
      items := items[1..];
    }
  }

  /** `while not q.empty(): combined.append(q.get())`, starting from an empty list. */
  method DrainQueue(q: RecordQueue) returns (combined: seq<Record>)
    modifies q
    ensures combined == old(q.items)
    ensures q.items == []
  {
    combined := [];
    while !q.Empty()
      invariant combined + q.items == old(q.items)
      decreases |q.items|
    {
      var r := q.Get();
      combined := combined + [r];
    }
  }

  predicate SortedByTime(s: seq<Record>) {
    forall i, j :: 0 <= i < j < |s| ==> s[i].eventTime <= s[j].eventTime
  }

  /** The records of `s` whose `event_time` is `t`, in order. */
  function WithTime(s: seq<Record>, t: int): (r: seq<Record>)
    ensures |r| <= |s|
  {
    if s == [] then []
    else WithTime(s[..|s| - 1], t) + (if s[|s| - 1].eventTime == t then [s[|s| - 1]] else [])
  }

  lemma {:induction false} WithTimeAppend(a: seq<Record>, b: seq<Record>, t: int)
    ensures WithTime(a + b, t) == WithTime(a, t) + WithTime(b, t)
    decreases |b|
  {
    if b == [] {
      assert a + b == a;
    } else {
      var b' := b[..|b| - 1];
      assert (a + b)[..|a + b| - 1] == a + b';
      WithTimeAppend(a, b', t);
    }
  }

  /**
   * `sorted(records, key=lambda x: x["event_time"])`. Python's sort is
   * stable; here it is an insertion sort that places each record after every
   * record with an equal or earlier time.
   */
  function SortByTime(s: seq<Record>): seq<Record>
  {
    if s == [] then [] else InsertByTime(SortByTime(s[..|s| - 1]), s[|s| - 1])
  }

  function InsertByTime(sorted: seq<Record>, x: Record): (r: seq<Record>)
    ensures |r| == |sorted| + 1
  {
    if sorted == [] || sorted[|sorted| - 1].eventTime <= x.eventTime then sorted + [x]
    else InsertByTime(sorted[..|sorted| - 1], x) + [sorted[|sorted| - 1]]
  }

  lemma {:induction false} InsertByTimePermutation(sorted: seq<Record>, x: Record)
    ensures multiset(InsertByTime(sorted, x)) == multiset(sorted) + multiset{x}
  {
    if !(sorted == [] || sorted[|sorted| - 1].eventTime <= x.eventTime) {
      var init, last := sorted[..|sorted| - 1], sorted[|sorted| - 1];
      assert sorted == init + [last];
      InsertByTimePermutation(init, x);
    }
  }

  /** The records with time `t` after inserting `x`: those before, then `x` if it has time `t`. */
  lemma {:induction false} InsertByTimeWithTime(sorted: seq<Record>, x: Record, t: int)
    ensures WithTime(InsertByTime(sorted, x), t) == WithTime(sorted, t) + (if x.eventTime == t then [x] else [])
  {
    var r := InsertByTime(sorted, x);
    if sorted == [] || sorted[|sorted| - 1].eventTime <= x.eventTime {
      assert r[..|r| - 1] == sorted;
    } else {
      var init, last := sorted[..|sorted| - 1], sorted[|sorted| - 1];
      InsertByTimeWithTime(init, x, t);
      assert r[..|r| - 1] == InsertByTime(init, x);
      assert WithTime(sorted, t) == WithTime(init, t) + (if last.eventTime == t then [last] else []);
    }
  }

  lemma {:induction false} InsertByTimeSorted(sorted: seq<Record>, x: Record)
    requires SortedByTime(sorted)
    ensures SortedByTime(InsertByTime(sorted, x))
  {
    var r := InsertByTime(sorted, x);
    if !(sorted == [] || sorted[|sorted| - 1].eventTime <= x.eventTime) {
      var init, last := sorted[..|sorted| - 1], sorted[|sorted| - 1];
      InsertByTimeSorted(init, x);
      InsertByTimePermutation(init, x);
      var r' := InsertByTime(init, x);
      assert r == r' + [last];
      forall i, j | 0 <= i < j < |r| ensures r[i].eventTime <= r[j].eventTime {
        if j == |r| - 1 {
          assert r[i] == r'[i];
          assert r[i] in multiset(r');
          assert r[i] == x || r[i] in multiset(init);
        }
      }
    }
  }

  /**
   * The sort returns a permutation of its input, ordered by time, in which
   * records with the same time keep their relative order.
   */
  lemma {:induction false} SortByTimeCorrect(s: seq<Record>)
    ensures SortedByTime(SortByTime(s))
    ensures multiset(SortByTime(s)) == multiset(s)
    ensures forall t :: WithTime(SortByTime(s), t) == WithTime(s, t)
  {
    if s != [] {
      var init, last := s[..|s| - 1], s[|s| - 1];
      SortByTimeCorrect(init);
      var sortedInit := SortByTime(init);
      InsertByTimeSorted(sortedInit, last);
      InsertByTimePermutation(sortedInit, last);
      assert SortByTime(s) == InsertByTime(sortedInit, last);
      assert s == init + [last];
      forall t ensures WithTime(SortByTime(s), t) == WithTime(s, t) {
        InsertByTimeWithTime(sortedInit, last, t);
        assert WithTime(s, t) == WithTime(init, t) + (if last.eventTime == t then [last] else []);
      }
    }
  }

  /**
   * The end of the run: each queue is drained into its list, and each list
   * is sorted by time.
   */
  method Aggregate(direct: RecordQueue, replace: RecordQueue, sparse: RecordQueue)
    returns (sortedDirect: seq<Record>, sortedReplace: seq<Record>, sortedSparse: seq<Record>)
    requires direct != replace && direct != sparse && replace != sparse
    modifies direct, replace, sparse
    ensures sortedDirect == SortByTime(old(direct.items))
    ensures sortedReplace == SortByTime(old(replace.items))
    ensures sortedSparse == SortByTime(old(sparse.items))
    ensures direct.items == [] && replace.items == [] && sparse.items == []
  {
    var combined := DrainQueue(direct);
    var combinedReplace := DrainQueue(replace);
    var combinedSparse := DrainQueue(sparse);
    sortedDirect := SortByTime(combined);
    sortedReplace := SortByTime(combinedReplace);
    sortedSparse := SortByTime(combinedSparse);
  }
}
