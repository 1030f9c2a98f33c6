/** `ProcessWidgetBatchJob`: select widgets and fan out one `ProcessWidgetJob` each. */
module ProcessWidgetBatchJob {
  import opened Common
  import opened Widgets
  import opened Infra
  import ProcessWidgetJob

  /** `$tries` and `$timeout` (seconds). */
  const Tries: nat := 2
  const Timeout: nat := 300

  /** The sweep selects at most this many widgets. */
  const SweepLimit: nat := 50

  /** A live widget that has never been processed. */
  predicate Unprocessed(w: Widget) {
    !Trashed(w) && w.processedAt.None?
  }

  /** A live widget whose key is one of `ids`. */
  predicate Requested(w: Widget, ids: seq<nat>) {
    !Trashed(w) && w.id in ids
  }

  /** The selection query of `handle`. With no ids it is the sweep, the first 50
      unprocessed rows in key order; with ids it is every live row whose key is listed,
      processed or not, unknown keys contributing nothing. */
  function Select(rows: seq<Widget>, widgetIds: seq<nat>): (r: seq<Widget>)
    ensures widgetIds == [] ==>
              && |r| <= SweepLimit && |r| <= |Filter(rows, Unprocessed)|
              && (forall i :: 0 <= i < |r| ==> r[i] in rows && Unprocessed(r[i]))
              && r == Filter(rows, Unprocessed)[..|r|]
              && (|Filter(rows, Unprocessed)| <= SweepLimit ==>
                    forall i :: 0 <= i < |rows| && Unprocessed(rows[i]) ==> rows[i] in r)
              && (|Filter(rows, Unprocessed)| >= SweepLimit ==> |r| == SweepLimit)
    ensures widgetIds != [] ==>
              && (forall i :: 0 <= i < |r| ==> r[i] in rows && !Trashed(r[i]) && r[i].id in widgetIds)
              && (forall i :: 0 <= i < |rows| && !Trashed(rows[i]) && rows[i].id in widgetIds ==> rows[i] in r)
  {
    if widgetIds == [] then Take(Filter(rows, Unprocessed), SweepLimit)
    else Filter(rows, (w: Widget) => Requested(w, widgetIds))
  }

  /** As written, processing does not take a row out of the sweep: when the sweep takes
      every candidate, a row processed by `handle` as written is selected again by the
      next sweep, and so is queued for processing once more. */
  lemma {:induction false} SweepReselectsAsWritten(rows: seq<Widget>, i: nat, now: int)
    requires i < |rows| && Unprocessed(rows[i])
    requires |Filter(rows, Unprocessed)| <= SweepLimit
    ensures var after := rows[i := ProcessWidgetJob.ProcessedAsWritten(rows[i], now)];
            after[i] in Select(after, [])
  {
    var x := ProcessWidgetJob.ProcessedAsWritten(rows[i], now);
    var after := rows[i := x];
    assert Unprocessed(x);
    CountUpdate(rows, i, x, Unprocessed);
    FilterCount(rows, Unprocessed);
    FilterCount(after, Unprocessed);
  }

  /** With the stamp stored, a processed row never comes back in a sweep. */
  lemma SweepSkipsProcessed(rows: seq<Widget>, i: nat, now: int)
    requires i < |rows|
    ensures var after := rows[i := ProcessWidgetJob.Processed(rows[i], now)];
            after[i] !in Select(after, [])
  {
  }

  /** The descriptors the fan-out enqueues for `selected`, one per widget, in order. */
  function FanOut(selected: seq<Widget>): (jobs: seq<Pending>)
    ensures |jobs| == |selected|
    ensures forall k :: 0 <= k < |selected| ==>
              jobs[k] == Pending(ProcessWidget(selected[k].id), None, 3, 60)
  {
    seq(|selected|, k requires 0 <= k < |selected| =>
      Pending(ProcessWidget(selected[k].id), None, ProcessWidgetJob.Tries, ProcessWidgetJob.Timeout))
  }

  /** The constructor's payload, `$widgetIds = []`. */
  method Dispatch(queue: JobQueue, widgetIds: seq<nat>)
    modifies queue
    ensures queue.jobs == old(queue.jobs) + [Pending(ProcessBatch(widgetIds), None, 2, 300)]
  {
    queue.Push(Pending(ProcessBatch(widgetIds), None, Tries, Timeout));
  }

  /** `handle`. `queryOk` is whether the selection query succeeds; a failure is re-thrown
      before anything is enqueued. The job reads the table and never writes it. Returns the
      outcome and `$processedCount`. */
  method Handle(table: WidgetTable, queue: JobQueue, widgetIds: seq<nat>, queryOk: bool)
    returns (r: Outcome, processedCount: nat)
    modifies queue
    ensures !queryOk ==> r == Failed(StorageFailure) && processedCount == 0 && queue.jobs == old(queue.jobs)
    ensures queryOk ==>
      && r == Done
      && processedCount == |Select(table.rows, widgetIds)|
      && queue.jobs == old(queue.jobs) + FanOut(Select(table.rows, widgetIds))
  {
    if !queryOk {
      return Failed(StorageFailure), 0;
    }
    var widgets: seq<Widget>;
    if widgetIds == [] {
      widgets := Take(Filter(table.rows, Unprocessed), SweepLimit);
    } else {
      widgets := Filter(table.rows, (w: Widget) => Requested(w, widgetIds));
    }
    processedCount := 0;
    for k := 0 to |widgets|
      invariant processedCount == k
      invariant queue.jobs == old(queue.jobs) + FanOut(widgets[..k])
    {
      ProcessWidgetJob.Dispatch(queue, widgets[k].id);
      processedCount := processedCount + 1;
      assert FanOut(widgets[..k + 1]) == FanOut(widgets[..k]) + [FanOut(widgets[..k + 1])[k]];
    }
    assert widgets[..|widgets|] == widgets;
    r := Done;
  }

  /** The sweep skips processed and trashed widgets; an explicit id list reprocesses a
      widget whatever its `processed_at`. */
  lemma SelectExamples()
    ensures var done := Widget(1, "a", None, None, 0, StatusActive, None, Some(5), None, 0, 0, None);
            var todo := Widget(2, "b", None, None, 0, StatusActive, None, None, None, 0, 0, None);
            var gone := Widget(3, "c", None, None, 0, StatusActive, None, None, None, 0, 0, Some(9));
            && Select([done, todo, gone], []) == [todo]
            && Select([done, todo, gone], [1, 3, 42]) == [done]
  {
    var done := Widget(1, "a", None, None, 0, StatusActive, None, Some(5), None, 0, 0, None);
    var todo := Widget(2, "b", None, None, 0, StatusActive, None, None, None, 0, 0, None);
    var gone := Widget(3, "c", None, None, 0, StatusActive, None, None, None, 0, 0, Some(9));
    var rows := [done, todo, gone];
    assert rows[1..] == [todo, gone] && rows[1..][1..] == [gone] && [gone][1..] == [];
    assert !Unprocessed(done) && Unprocessed(todo) && !Unprocessed(gone);
    assert Filter([gone], Unprocessed) == [];
    assert Filter([todo, gone], Unprocessed) == [todo] + Filter([gone], Unprocessed);
    assert Filter(rows, Unprocessed) == Filter([todo, gone], Unprocessed);
    var p := (w: Widget) => Requested(w, [1, 3, 42]);
    assert p(done) && !p(todo) && !p(gone);
    assert Filter(rows, p) == [done] + Filter([todo, gone], p);
  }
}
