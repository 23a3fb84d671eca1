/**
 * The window loop of `main`: for each window, read events from the decoder
 * opened at the resume position, skip those stamped before the window, stop
 * at the first one stamped after it, submit the others and advance the
 * resume position; then reopen the decoder and go on to the next window.
 * Once every window is done, drain and sort the three queues.
 *
 * Submitting runs the job at once: the source waits for every job of a
 * window before reopening the decoder, and the jobs share nothing but the
 * queues.
 */
module Scanner {
  import opened Common
  import opened Results
  import opened Synthesis
  import opened SynthesisProperties
  import opened Windows
  import opened Watermarks

  /** An event as the scan reads it, with the decoder's `log_file` and `log_pos` just after it. */
  datatype Pulled = Pulled(event: Event, logFile: string, logPos: int)

  /**
   * The decoder opened at a resume position: the events it yields from
   * there on, until it runs dry (it does not block).
   */
  type Decoder = (string, int) -> seq<Pulled>

  /** Every update in `events` has each before-null column in its after-image. */
  predicate LookupsSucceedAll(events: seq<Pulled>) {
    events == [] || (LookupsSucceedAll(events[..|events| - 1]) && UpdateLookupsSucceed(events[|events| - 1].event))
  }

  lemma {:induction false} LookupsSucceedAt(events: seq<Pulled>, i: nat)
    requires LookupsSucceedAll(events) && i < |events|
    ensures UpdateLookupsSucceed(events[i].event)
    ensures LookupsSucceedAll(events[..i])
  {
    if i < |events| - 1 {
      LookupsSucceedAt(events[..|events| - 1], i);
      assert events[..|events| - 1][..i] == events[..i];
    } else {
      assert events[..|events| - 1] == events[..i];
    }
  }

  /** Every stream the decoder can yield satisfies `LookupsSucceedAll`. */
  ghost predicate DecoderLookupsSucceed(decoder: Decoder) {
    forall file, pos :: LookupsSucceedAll(decoder(file, pos))
  }

  // ---------------------------------------------------------------------
  // One window

  /**
   * The scan of the first `n` events of a window: the events submitted so
   * far, and whether the scan has broken off.
   */
  function Scan(events: seq<Pulled>, start: int, end: int, n: nat): (r: (seq<Pulled>, bool))
    requires n <= |events|
    ensures |r.0| <= n
  {
    if n == 0 then ([], false)
    else
      var prev := Scan(events, start, end, n - 1);
      var p := events[n - 1];
      if prev.1 || p.event.timestamp < start then prev
      else if p.event.timestamp > end then (prev.0, true)
      else (prev.0 + [p], false)
  }

  /** Every submitted event is one of the window's events and is stamped inside the window. */
  lemma {:induction false} ScanAdmitted(events: seq<Pulled>, start: int, end: int, n: nat)
    requires n <= |events|
    ensures forall p :: p in Scan(events, start, end, n).0 ==> p in events && start <= p.event.timestamp <= end
  {
    if n > 0 {
      ScanAdmitted(events, start, end, n - 1);
    }
  }

  /** The events of a window that are submitted. */
  function Submitted(events: seq<Pulled>, start: int, end: int): seq<Pulled> {
    Scan(events, start, end, |events|).0
  }

  /**
   * Index of the first event that is not stamped before `start` but is
   * stamped after `end`, or the number of events.
   */
  function BreakIndex(events: seq<Pulled>, start: int, end: int): (k: nat)
    ensures k <= |events|
    ensures forall j :: 0 <= j < k ==> Early(events[j], start) || !Late(events[j], end)
    ensures k < |events| ==> !Early(events[k], start) && Late(events[k], end)
  {
    if events == [] || (!Early(events[0], start) && Late(events[0], end)) then 0
    else 1 + BreakIndex(events[1..], start, end)
  }

  predicate Early(p: Pulled, start: int) {
    p.event.timestamp < start
  }

  predicate Late(p: Pulled, end: int) {
    p.event.timestamp > end
  }

  /** The events not stamped before `start`, in order. */
  function NotBefore(events: seq<Pulled>, start: int): (r: seq<Pulled>)
    ensures |r| <= |events|
  {
    if events == [] then []
    else
      var last := events[|events| - 1];
      NotBefore(events[..|events| - 1], start) + (if last.event.timestamp < start then [] else [last])
  }

  /** Once the scan broke off, later events change nothing. */
  lemma {:induction false} ScanStopped(events: seq<Pulled>, start: int, end: int, m: nat, n: nat)
    requires m <= n <= |events|
    requires Scan(events, start, end, m).1
    ensures Scan(events, start, end, n) == Scan(events, start, end, m)
  {
    if m < n {
      ScanStopped(events, start, end, m, n - 1);
    }
  }

  /** The submitted events are among the decoder's, so they decode as well. */
  lemma {:induction false} ScanLookupsSucceed(events: seq<Pulled>, start: int, end: int, n: nat)
    requires n <= |events| && LookupsSucceedAll(events)
    ensures LookupsSucceedAll(Scan(events, start, end, n).0)
  {
    if n > 0 {
      ScanLookupsSucceed(events, start, end, n - 1);
      var prev := Scan(events, start, end, n - 1).0;
      LookupsSucceedAt(events, n - 1);
      assert (prev + [events[n - 1]])[..|prev|] == prev;
    }
  }

  lemma {:induction false} ScanPrefix(events: seq<Pulled>, start: int, end: int, n: nat)
    requires n <= |events|
    ensures var k := BreakIndex(events, start, end);
            Scan(events, start, end, n) == (NotBefore(events[..if n <= k then n else k], start), n > k)
  {
    var k := BreakIndex(events, start, end);
    if n > 0 {
      ScanPrefix(events, start, end, n - 1);
      if n <= k {
        var p := events[n - 1];
        assert Early(p, start) || !Late(p, end);
        assert events[..n][..n - 1] == events[..n - 1];
        if Early(p, start) {
          assert events[..n][n - 1] == p;
          assert NotBefore(events[..n], start) == NotBefore(events[..n - 1], start) + [];
          assert NotBefore(events[..n], start) == NotBefore(events[..n - 1], start);
          assert Scan(events, start, end, n - 1) == (NotBefore(events[..n - 1], start), false);
          assert Scan(events, start, end, n) == Scan(events, start, end, n - 1);
        }
      }
    }
  }

  /**
   * The window keeps exactly the events that come before the first one
   * stamped after its end (and not before its start) and that are not
   * stamped before its start; it broke off exactly when such a late event
   * exists.
   */
  lemma ScanIsBreakThenSkip(events: seq<Pulled>, start: int, end: int)
    ensures var k := BreakIndex(events, start, end);
            Submitted(events, start, end) == NotBefore(events[..k], start) &&
            (Scan(events, start, end, |events|).1 <==> k < |events|)
  {
    ScanPrefix(events, start, end, |events|);
  }

  /**
   * The job handed to the executor for each submitted event, as a value:
   * given the event, the window and the filter, the records it queues.
   */
  type Job = (Event, int, int, OpFilter) -> seq<Record>

  /** `process_binlogevent` as a job; it is only submitted for events that decode. */
  ghost function ProcessJob(e: Event, start: int, end: int, filter: OpFilter): seq<Record> {
    if UpdateLookupsSucceed(e) then EventRecords(e, start, end, filter) else []
  }

  /** `job` queues what `process_binlogevent` queues, for every event that decodes. */
  ghost predicate IsProcessJob(job: Job) {
    forall e, start, end, filter {:trigger EventRecords(e, start, end, filter)} ::
      UpdateLookupsSucceed(e) ==> job(e, start, end, filter) == EventRecords(e, start, end, filter)
  }

  lemma ProcessJobIsProcessJob()
    ensures IsProcessJob(ProcessJob)
  {
  }

  /** The records the submitted events of a window produce, event after event. */
  ghost function WindowRecords(job: Job, sub: seq<Pulled>, start: int, end: int, filter: OpFilter): seq<Record> {
    if sub == [] then []
    else
      var last := sub[|sub| - 1];
      WindowRecords(job, sub[..|sub| - 1], start, end, filter) + job(last.event, start, end, filter)
  }

  /** The resume position after observing the decoder behind each submitted event. */
  function Observed(w: Mark, sub: seq<Pulled>): Mark {
    if sub == [] then w
    else
      var last := sub[|sub| - 1];
      Advance(Observed(w, sub[..|sub| - 1]), last.logFile, last.logPos)
  }

  /** A window never moves the resume position back. */
  lemma {:induction false} ObservedNotAhead(w: Mark, sub: seq<Pulled>)
    ensures NotAhead(w, Observed(w, sub))
  {
    if sub != [] {
      var last := sub[|sub| - 1];
      var mid := Observed(w, sub[..|sub| - 1]);
      ObservedNotAhead(w, sub[..|sub| - 1]);
      AdvanceMonotone(mid, last.logFile, last.logPos);
      NotAheadTransitive(w, mid, Observed(w, sub));
    }
  }

  /**
   * One submitted event: `executor.submit(process_binlogevent, ...)`, its job
   * run at once so that the queues grow by the event's records, then the two
   * guarded updates of the resume position.
   */
  method Dispatch(ghost job: Job, p: Pulled, start: int, end: int, filter: OpFilter, wm: Watermark,
                  direct: RecordQueue, replace: RecordQueue, sparse: RecordQueue,
                  ghost sub: seq<Pulled>, ghost base: Queues, ghost w0: Mark)
    requires IsProcessJob(job) && UpdateLookupsSucceed(p.event)
    requires direct != replace && direct != sparse && replace != sparse
    requires (direct.items, replace.items, sparse.items) == Extended(base, WindowRecords(job, sub, start, end, filter))
    requires wm.Current() == Observed(w0, sub)
    modifies wm, direct, replace, sparse
    ensures (direct.items, replace.items, sparse.items) == Extended(base, WindowRecords(job, sub + [p], start, end, filter))
    ensures wm.Current() == Observed(w0, sub + [p])
  {
    assert (sub + [p])[..|sub|] == sub;
    ProcessBinlogEvent(p.event, start, end, filter, direct, replace, sparse);
    ExtendedAppend(base, WindowRecords(job, sub, start, end, filter), EventRecords(p.event, start, end, filter));
    wm.Observe(p.logFile, p.logPos);
  }

  /**
   * The loop over the decoder's events for one window: events stamped
   * before it are skipped, the first one stamped after it ends the window,
   * and every other one is dispatched.
   */
  method ScanWindow(ghost job: Job, events: seq<Pulled>, start: int, end: int, filter: OpFilter, wm: Watermark,
                    direct: RecordQueue, replace: RecordQueue, sparse: RecordQueue)
    returns (ghost sub: seq<Pulled>)
    requires IsProcessJob(job) && LookupsSucceedAll(events)
    requires direct != replace && direct != sparse && replace != sparse
    modifies wm, direct, replace, sparse
    ensures sub == Submitted(events, start, end)
    ensures (direct.items, replace.items, sparse.items)
         == Extended(old((direct.items, replace.items, sparse.items)), WindowRecords(job, sub, start, end, filter))
    ensures wm.Current() == Observed(old(wm.Current()), sub)
  {
    ghost var base := (direct.items, replace.items, sparse.items);
    var i := 0;
    sub := [];
    assert base.0 + [] == base.0 && base.1 + [] == base.1 && base.2 + [] == base.2;
    while i < |events|
      invariant 0 <= i <= |events|
      invariant Scan(events, start, end, i) == (sub, false)
      invariant (direct.items, replace.items, sparse.items) == Extended(base, WindowRecords(job, sub, start, end, filter))
      invariant wm.Current() == Observed(old(wm.Current()), sub)
    {
      var p := events[i];
      if p.event.timestamp < start {
        i := i + 1;
      } else if p.event.timestamp > end {
        assert Scan(events, start, end, i + 1) == (sub, true);
        ScanStopped(events, start, end, i + 1, |events|);
        break;
      } else {
        LookupsSucceedAt(events, i);
        Dispatch(job, p, start, end, filter, wm, direct, replace, sparse, sub, base, old(wm.Current()));
        sub := sub + [p];
        i := i + 1;
      }
    }
  }

  // ---------------------------------------------------------------------
  // The whole run

  /** Every record of `rs` is stamped between `lo` and `hi`. */
  predicate TimesWithin(rs: seq<Record>, lo: int, hi: int) {
    forall x :: x in rs ==> lo <= x.eventTime <= hi
  }

  /** The three sorted lists the run ends with. */
  datatype Output = Output(direct: seq<Record>, replace: seq<Record>, sparse: seq<Record>)

  /**
   * The resume position and the records produced once the first `k`
   * windows are scanned, each window reading the decoder reopened at the
   * position the windows before it left.
   */
  ghost function Progress(job: Job, decoder: Decoder, filter: OpFilter, start: int, end: int, workers: int,
                          origin: Mark, k: nat): (Mark, seq<Record>)
    requires k <= workers
  {
    if k == 0 then (origin, [])
    else
      var prev := Progress(job, decoder, filter, start, end, workers, origin, k - 1);
      var w := Window(start, end, workers, k - 1);
      var sub := Submitted(decoder(prev.0.file, prev.0.pos), w.0, w.1);
      (Observed(prev.0, sub), prev.1 + WindowRecords(job, sub, w.0, w.1, filter))
  }

  /**
   * What the run produces: nothing when the worker count is refused;
   * otherwise each queue's records, sorted by time.
   */
  ghost function RunOutput(decoder: Decoder, filter: OpFilter, start: int, end: int, workers: int, origin: Mark)
    : Option<Output>
  {
    if workers <= 0 then None
    else
      var all := Progress(ProcessJob, decoder, filter, start, end, workers, origin, workers).1;
      Some(Output(SortByTime(Route(all, Direct)), SortByTime(Route(all, ReplaceFull)), SortByTime(Route(all, ReplaceSparse))))
  }

  /** Window `i` as `main` computes it: `i` intervals after the start, the last one stretched to the end. */
  method WindowBounds(start: int, end: int, workers: int, interval: int, i: nat) returns (taskStart: int, taskEnd: int)
    requires i < workers && interval == (end - start) / workers
    ensures (taskStart, taskEnd) == Window(start, end, workers, i)
  {
    taskStart := start + i * interval;
    taskEnd := taskStart + interval;
    if i == workers - 1 {
      taskEnd := end;
    }
  }

  /** Scanning window `i` from the resume position the earlier windows left is the next step of `Progress`. */
  lemma ProgressStep(job: Job, decoder: Decoder, filter: OpFilter, start: int, end: int, workers: int, origin: Mark,
                     i: nat, base: Queues, sub: seq<Pulled>, q: Queues, m: Mark)
    requires i < workers
    requires var prev := Progress(job, decoder, filter, start, end, workers, origin, i);
             var w := Window(start, end, workers, i);
             sub == Submitted(decoder(prev.0.file, prev.0.pos), w.0, w.1) &&
             q == Extended(Extended(base, prev.1), WindowRecords(job, sub, w.0, w.1, filter)) &&
             m == Observed(prev.0, sub)
    ensures q == Extended(base, Progress(job, decoder, filter, start, end, workers, origin, i + 1).1)
    ensures m == Progress(job, decoder, filter, start, end, workers, origin, i + 1).0
  {
    var w := Window(start, end, workers, i);
    ExtendedAppend(base, Progress(job, decoder, filter, start, end, workers, origin, i).1,
                   WindowRecords(job, sub, w.0, w.1, filter));
  }

  /**
   * One pass of the window loop of `main`: compute window `i`, scan the
   * decoder's events for it, then reopen the decoder at the resume position.
   */
  method RunWindow(ghost job: Job, decoder: Decoder, filter: OpFilter, start: int, end: int, workers: int,
                   interval: int, i: nat, stream: seq<Pulled>, wm: Watermark,
                   direct: RecordQueue, replace: RecordQueue, sparse: RecordQueue,
                   ghost origin: Mark, ghost base: Queues)
    returns (next: seq<Pulled>)
    requires IsProcessJob(job) && DecoderLookupsSucceed(decoder)
    requires i < workers && interval == (end - start) / workers
    requires direct != replace && direct != sparse && replace != sparse
    requires wm.Current() == Progress(job, decoder, filter, start, end, workers, origin, i).0
    requires stream == decoder(wm.file, wm.pos)
    requires (direct.items, replace.items, sparse.items)
          == Extended(base, Progress(job, decoder, filter, start, end, workers, origin, i).1)
    modifies wm, direct, replace, sparse
    ensures wm.Current() == Progress(job, decoder, filter, start, end, workers, origin, i + 1).0
    ensures next == decoder(wm.file, wm.pos)
    ensures (direct.items, replace.items, sparse.items)
         == Extended(base, Progress(job, decoder, filter, start, end, workers, origin, i + 1).1)
  {
    var taskStart, taskEnd := WindowBounds(start, end, workers, interval, i);
    ghost var sub := ScanWindow(job, stream, taskStart, taskEnd, filter, wm, direct, replace, sparse);
    ProgressStep(job, decoder, filter, start, end, workers, origin, i, base, sub,
                 (direct.items, replace.items, sparse.items), wm.Current());
    next := decoder(wm.file, wm.pos);
  }

  /**
   * The window loop of `main` and the final drain and sort. The decoder is
   * opened at `(binlog_file, binlog_pos)` and reopened after every window at
   * the resume position reached.
   */
  method Run(decoder: Decoder, filter: OpFilter, start: int, end: int, workers: int,
             binlogFile: string, binlogPos: int)
    returns (r: Option<Output>)
    requires DecoderLookupsSucceed(decoder)
    ensures r == RunOutput(decoder, filter, start, end, workers, Mark(binlogFile, binlogPos))
  {
    if workers <= 0 {
      return None;
    }
    var interval := (end - start) / workers;
    var direct := new RecordQueue();
    var replace := new RecordQueue();
    var sparse := new RecordQueue();
    var wm := new Watermark(binlogFile, binlogPos);
    var stream := decoder(binlogFile, binlogPos);
    ghost var job: Job := ProcessJob;
    ProcessJobIsProcessJob();
    ghost var origin := Mark(binlogFile, binlogPos);
    ghost var empty: Queues := (direct.items, replace.items, sparse.items);
    assert empty.0 + [] == empty.0 && empty.1 + [] == empty.1 && empty.2 + [] == empty.2;
    for i := 0 to workers
      invariant wm.Current() == Progress(job, decoder, filter, start, end, workers, origin, i).0
      invariant stream == decoder(wm.file, wm.pos)
      invariant (direct.items, replace.items, sparse.items)
             == Extended(empty, Progress(job, decoder, filter, start, end, workers, origin, i).1)
    {
      stream := RunWindow(job, decoder, filter, start, end, workers, interval, i, stream, wm,
                          direct, replace, sparse, origin, empty);
    }
    ghost var all := Progress(job, decoder, filter, start, end, workers, origin, workers).1;
    assert [] + Route(all, Direct) == Route(all, Direct);
    assert [] + Route(all, ReplaceFull) == Route(all, ReplaceFull);
    assert [] + Route(all, ReplaceSparse) == Route(all, ReplaceSparse);
    var sortedDirect, sortedReplace, sortedSparse := Aggregate(direct, replace, sparse);
    r := Some(Output(sortedDirect, sortedReplace, sortedSparse));
  }

  // ---------------------------------------------------------------------
  // Properties of the run

  /** Each window's records are stamped inside the window. */
  lemma {:induction false} WindowRecordsWithin(job: Job, sub: seq<Pulled>, lo: int, hi: int, filter: OpFilter)
    requires IsProcessJob(job) && LookupsSucceedAll(sub)
    ensures TimesWithin(WindowRecords(job, sub, lo, hi, filter), lo, hi)
  {
    if sub != [] {
      var e := sub[|sub| - 1].event;
      WindowRecordsWithin(job, sub[..|sub| - 1], lo, hi, filter);
      assert job(e, lo, hi, filter) == EventRecords(e, lo, hi, filter);
    }
  }

  /** Each window gives the two REPLACE queues the same number of records. */
  lemma {:induction false} WindowRecordsBalanced(job: Job, sub: seq<Pulled>, lo: int, hi: int, filter: OpFilter)
    requires IsProcessJob(job) && LookupsSucceedAll(sub)
    ensures |Route(WindowRecords(job, sub, lo, hi, filter), ReplaceFull)|
         == |Route(WindowRecords(job, sub, lo, hi, filter), ReplaceSparse)|
  {
    if sub != [] {
      var init := sub[..|sub| - 1];
      var e := sub[|sub| - 1].event;
      WindowRecordsBalanced(job, init, lo, hi, filter);
      EventRecordsShape(e, lo, hi, filter);
      RouteAppend(WindowRecords(job, init, lo, hi, filter), EventRecords(e, lo, hi, filter), ReplaceFull);
      RouteAppend(WindowRecords(job, init, lo, hi, filter), EventRecords(e, lo, hi, filter), ReplaceSparse);
    }
  }

  /** The resume position never moves back from one window to a later one. */
  lemma {:induction false} ProgressNotAhead(job: Job, decoder: Decoder, filter: OpFilter, start: int, end: int,
                                            workers: int, origin: Mark, m: nat, k: nat)
    requires m <= k <= workers
    ensures NotAhead(Progress(job, decoder, filter, start, end, workers, origin, m).0,
                     Progress(job, decoder, filter, start, end, workers, origin, k).0)
  {
    if m < k {
      ProgressNotAhead(job, decoder, filter, start, end, workers, origin, m, k - 1);
      var prev := Progress(job, decoder, filter, start, end, workers, origin, k - 1);
      var w := Window(start, end, workers, k - 1);
      ObservedNotAhead(prev.0, Submitted(decoder(prev.0.file, prev.0.pos), w.0, w.1));
      NotAheadTransitive(Progress(job, decoder, filter, start, end, workers, origin, m).0, prev.0,
                         Progress(job, decoder, filter, start, end, workers, origin, k).0);
    }
  }

  lemma {:induction false} ProgressBalanced(job: Job, decoder: Decoder, filter: OpFilter, start: int, end: int,
                                            workers: int, origin: Mark, k: nat)
    requires k <= workers && IsProcessJob(job) && DecoderLookupsSucceed(decoder)
    ensures var all := Progress(job, decoder, filter, start, end, workers, origin, k).1;
            |Route(all, ReplaceFull)| == |Route(all, ReplaceSparse)|
  {
    if k > 0 {
      ProgressBalanced(job, decoder, filter, start, end, workers, origin, k - 1);
      var prev := Progress(job, decoder, filter, start, end, workers, origin, k - 1);
      var w := Window(start, end, workers, k - 1);
      var events := decoder(prev.0.file, prev.0.pos);
      var sub := Submitted(events, w.0, w.1);
      ScanLookupsSucceed(events, w.0, w.1, |events|);
      WindowRecordsBalanced(job, sub, w.0, w.1, filter);
      RouteAppend(prev.1, WindowRecords(job, sub, w.0, w.1, filter), ReplaceFull);
      RouteAppend(prev.1, WindowRecords(job, sub, w.0, w.1, filter), ReplaceSparse);
    }
  }

  lemma {:induction false} ProgressWithin(job: Job, decoder: Decoder, filter: OpFilter, start: int, end: int,
                                          workers: int, origin: Mark, k: nat)
    requires k <= workers && IsProcessJob(job) && DecoderLookupsSucceed(decoder) && start <= end
    ensures TimesWithin(Progress(job, decoder, filter, start, end, workers, origin, k).1, start, end)
  {
    if k > 0 {
      ProgressWithin(job, decoder, filter, start, end, workers, origin, k - 1);
      var prev := Progress(job, decoder, filter, start, end, workers, origin, k - 1);
      var w := Window(start, end, workers, k - 1);
      var events := decoder(prev.0.file, prev.0.pos);
      ScanLookupsSucceed(events, w.0, w.1, |events|);
      WindowRecordsWithin(job, Submitted(events, w.0, w.1), w.0, w.1, filter);
      PartitionCovers(start, end, workers);
      assert Partition(start, end, workers).value[k - 1] == w;
    }
  }

  /** Sorting by time keeps exactly the records it is given. */
  lemma SortedWithin(rs: seq<Record>, lo: int, hi: int)
    requires TimesWithin(rs, lo, hi)
    ensures TimesWithin(SortByTime(rs), lo, hi)
  {
    SortByTimeCorrect(rs);
    forall x | x in SortByTime(rs) ensures lo <= x.eventTime <= hi {
      assert x in multiset(SortByTime(rs));
    }
  }

  /**
   * The three lists the run ends with are ordered by time, hold exactly the
   * records their queues received, and keep the queue order among records
   * with the same time.
   */
  lemma RunOutputSorted(decoder: Decoder, filter: OpFilter, start: int, end: int, workers: int, origin: Mark)
    requires workers > 0
    ensures var out := RunOutput(decoder, filter, start, end, workers, origin).value;
            var all := Progress(ProcessJob, decoder, filter, start, end, workers, origin, workers).1;
            SortedByTime(out.direct) && SortedByTime(out.replace) && SortedByTime(out.sparse) &&
            multiset(out.direct) == multiset(Route(all, Direct)) &&
            multiset(out.replace) == multiset(Route(all, ReplaceFull)) &&
            multiset(out.sparse) == multiset(Route(all, ReplaceSparse)) &&
            (forall t :: WithTime(out.direct, t) == WithTime(Route(all, Direct), t)) &&
            (forall t :: WithTime(out.replace, t) == WithTime(Route(all, ReplaceFull), t)) &&
            (forall t :: WithTime(out.sparse, t) == WithTime(Route(all, ReplaceSparse), t))
  {
    var all := Progress(ProcessJob, decoder, filter, start, end, workers, origin, workers).1;
    SortByTimeCorrect(Route(all, Direct));
    SortByTimeCorrect(Route(all, ReplaceFull));
    SortByTimeCorrect(Route(all, ReplaceSparse));
  }

  /**
   * Only update rows reach the two REPLACE queues, one record each, so the
   * REPLACE list and the REPLACE-without-null list have the same length.
   */
  lemma RunReplaceListsAgree(decoder: Decoder, filter: OpFilter, start: int, end: int, workers: int, origin: Mark)
    requires DecoderLookupsSucceed(decoder) && workers > 0
    ensures var out := RunOutput(decoder, filter, start, end, workers, origin).value;
            |out.replace| == |out.sparse|
  {
    var all := Progress(ProcessJob, decoder, filter, start, end, workers, origin, workers).1;
    ProcessJobIsProcessJob();
    ProgressBalanced(ProcessJob, decoder, filter, start, end, workers, origin, workers);
    SortByTimeCorrect(Route(all, ReplaceFull));
    SortByTimeCorrect(Route(all, ReplaceSparse));
    assert |multiset(SortByTime(Route(all, ReplaceFull)))| == |multiset(Route(all, ReplaceFull))|;
    assert |multiset(SortByTime(Route(all, ReplaceSparse)))| == |multiset(Route(all, ReplaceSparse))|;
  }

  /** For a range that is not reversed, every record the run outputs is stamped inside the range. */
  lemma RunTimesInRange(decoder: Decoder, filter: OpFilter, start: int, end: int, workers: int, origin: Mark)
    requires DecoderLookupsSucceed(decoder) && workers > 0 && start <= end
    ensures var out := RunOutput(decoder, filter, start, end, workers, origin).value;
            TimesWithin(out.direct, start, end) && TimesWithin(out.replace, start, end) &&
            TimesWithin(out.sparse, start, end)
  {
    var all := Progress(ProcessJob, decoder, filter, start, end, workers, origin, workers).1;
    ProcessJobIsProcessJob();
    ProgressWithin(ProcessJob, decoder, filter, start, end, workers, origin, workers);
    RouteMembers(all, Direct);
    RouteMembers(all, ReplaceFull);
    RouteMembers(all, ReplaceSparse);
    SortedWithin(Route(all, Direct), start, end);
    SortedWithin(Route(all, ReplaceFull), start, end);
    SortedWithin(Route(all, ReplaceSparse), start, end);
  }
}
