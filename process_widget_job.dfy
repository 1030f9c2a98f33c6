/** `ProcessWidgetJob`: recompute a widget's statistics and store them under
    `metadata.processing`, stamping `processed_at`. */
module ProcessWidgetJob {
  import opened Common
  import opened Widgets
  import opened Infra

  /** `$tries` and `$timeout` (seconds). */
  const Tries: nat := 3
  const Timeout: nat := 60

  /** A widget is high-value when its total exceeds 1000.00, i.e. 100000 cents. */
  const HighValueThreshold: int := 100000
  const ProcessingVersion: int := 1
  const ProcessingKey: string := "processing"

  datatype ProcessingData = ProcessingData(totalValue: int, isHighValue: bool)

  /** `calculateProcessingData`: price times quantity, a null operand counting as 0,
      and the strict high-value test. */
  function CalculateProcessingData(price: Option<int>, quantity: Option<int>): (d: ProcessingData)
    ensures price.None? || quantity.None? ==> d == ProcessingData(0, false)
    ensures price.Some? && quantity.Some? ==> d.totalValue == price.value * quantity.value
    ensures d.isHighValue <==> d.totalValue > 100000
    ensures d.isHighValue ==> price.Some? && quantity.Some?
  {
    var totalValue := OrElse(price, 0) * OrElse(quantity, 0);
    ProcessingData(totalValue, totalValue > HighValueThreshold)
  }

  /** 150.00 x 10 is high-value, 25.00 x 10 is not, and a total of exactly 1000.00 is not
      either: the threshold is exclusive. A missing price counts as 0. */
  lemma CalculateProcessingDataExamples()
    ensures CalculateProcessingData(Some(15000), Some(10)) == ProcessingData(150000, true)
    ensures CalculateProcessingData(Some(2500), Some(10)) == ProcessingData(25000, false)
    ensures CalculateProcessingData(Some(10000), Some(10)) == ProcessingData(100000, false)
    ensures CalculateProcessingData(Some(10001), Some(10)) == ProcessingData(100010, true)
    ensures CalculateProcessingData(None, Some(10)) == ProcessingData(0, false)
  {
  }

  /** With a non-negative price, more units never turn a high-value widget into an
      ordinary one. */
  lemma HighValueMonotone(price: int, q1: int, q2: int)
    requires price >= 0 && q1 <= q2
    requires CalculateProcessingData(Some(price), Some(q1)).isHighValue
    ensures CalculateProcessingData(Some(price), Some(q2)).isHighValue
  {
    assert price * q1 <= price * q2 by {
      assert price * (q2 - q1) >= 0;
      assert price * q2 == price * q1 + price * (q2 - q1);
    }
  }

  /** The object stored under `metadata.processing`. */
  function ProcessingEntry(data: ProcessingData, now: int): Json {
    JObj(map[
      "processed_at" := JTime(now),
      "total_value" := JCents(data.totalValue),
      "is_high_value" := JBool(data.isHighValue),
      "processing_version" := JInt(ProcessingVersion)])
  }

  /** `$metadata = $widget->metadata ?? []; $metadata['processing'] = ...`. */
  function WithProcessing(metadata: Option<Metadata>, entry: Json): (m: Metadata)
    ensures ProcessingKey in m && m[ProcessingKey] == entry
    ensures m.Keys == OrElse(metadata, map[]).Keys + {ProcessingKey}
    ensures forall k :: k in OrElse(metadata, map[]) && k != ProcessingKey ==> m[k] == OrElse(metadata, map[])[k]
  {
    OrElse(metadata, map[])[ProcessingKey := entry]
  }

  /** A second `processing` entry replaces the first. */
  lemma WithProcessingTwice(metadata: Option<Metadata>, e1: Json, e2: Json)
    ensures WithProcessing(Some(WithProcessing(metadata, e1)), e2) == WithProcessing(metadata, e2)
  {
    var a := WithProcessing(Some(WithProcessing(metadata, e1)), e2);
    var b := WithProcessing(metadata, e2);
    assert a.Keys == b.Keys;
  }

  /** The entry a run at `now` stores for `w`. */
  function EntryFor(w: Widget, now: int): Json {
    ProcessingEntry(CalculateProcessingData(w.price, Some(w.quantity)), now)
  }

  /** The row after a successful run at `now`. */
  function Processed(w: Widget, now: int): (r: Widget)
    ensures r.processedAt == Some(now)
    ensures r.metadata.Some? && ProcessingKey in r.metadata.value
    ensures r.metadata.value[ProcessingKey] ==
      (var total := OrElse(w.price, 0) * w.quantity;
       JObj(map["processed_at" := JTime(now), "total_value" := JCents(total),
                "is_high_value" := JBool(total > 100000), "processing_version" := JInt(1)]))
    ensures w.metadata.Some? ==> forall k :: k in w.metadata.value && k != ProcessingKey ==>
              k in r.metadata.value && r.metadata.value[k] == w.metadata.value[k]
    ensures r.metadata.value.Keys == OrElse(w.metadata, map[]).Keys + {ProcessingKey}
    ensures r.updatedAt == w.updatedAt || r.updatedAt == now
    ensures r.(metadata := w.metadata, processedAt := w.processedAt, updatedAt := w.updatedAt) == w
  {
    Saved(w, w.(metadata := Some(WithProcessing(w.metadata, EntryFor(w, now))), processedAt := Some(now)), now)
  }

  /** The row after a run of `handle` as written. `update()` is `fill()` then `save()`,
      and `fill()` silently drops every key outside `$fillable`. `processed_at` is not
      fillable, so only the new metadata is stored and the stamp keeps its old value. */
  function ProcessedAsWritten(w: Widget, now: int): (r: Widget)
    ensures r.processedAt == w.processedAt
    ensures r.metadata == Processed(w, now).metadata
    ensures r.updatedAt == w.updatedAt || r.updatedAt == now
    ensures r.(metadata := w.metadata, updatedAt := w.updatedAt) == w
  {
    Saved(w, w.(metadata := Some(WithProcessing(w.metadata, EntryFor(w, now)))), now)
  }

  /** A widget whose metadata was null ends up with `processing` as its only key. */
  lemma ProcessedNullMetadata(w: Widget, now: int)
    requires w.metadata.None?
    ensures Processed(w, now).metadata.value.Keys == {ProcessingKey}
  {
  }

  /** Reprocessing replaces `metadata.processing` rather than adding to it: a second run
      leaves exactly the metadata a single run at the second instant would, and two runs
      of an unchanged widget agree on everything except the `processed_at` stamps. */
  lemma {:induction false} ProcessIdempotent(w: Widget, t1: int, t2: int)
    ensures Processed(Processed(w, t1), t2).metadata == Processed(w, t2).metadata
    ensures Processed(Processed(w, t1), t2).processedAt == Some(t2)
    ensures Processed(w, t1).metadata.value - {ProcessingKey} == Processed(w, t2).metadata.value - {ProcessingKey}
    ensures Processed(w, t1).metadata.value[ProcessingKey].fields - {"processed_at"} ==
            Processed(w, t2).metadata.value[ProcessingKey].fields - {"processed_at"}
  {
    var once := Processed(w, t1);
    assert once.metadata == Some(WithProcessing(w.metadata, EntryFor(w, t1)));
    assert EntryFor(once, t2) == EntryFor(w, t2);
    WithProcessingTwice(w.metadata, EntryFor(w, t1), EntryFor(w, t2));
    var m1 := once.metadata.value;
    var m2 := Processed(w, t2).metadata.value;
    assert m1 - {ProcessingKey} == m2 - {ProcessingKey};
  }

  /** The queued descriptor of `ProcessWidgetJob::dispatch($widget)`: immediate. */
  method Dispatch(queue: JobQueue, widgetId: nat)
    modifies queue
    ensures queue.jobs == old(queue.jobs) + [Pending(ProcessWidget(widgetId), None, 3, 60)]
  {
    queue.Push(Pending(ProcessWidget(widgetId), None, Tries, Timeout));
  }

  /** `handle`. The job re-reads the row by id (trashed rows included, as model
      restoration ignores global scopes); `writeOk` is whether the database accepts the
      update. Any failure is re-thrown, leaving the row as it was. */
  method Handle(table: WidgetTable, widgetId: nat, now: int, writeOk: bool) returns (r: Outcome)
    requires table.Valid()
    modifies table
    ensures table.Valid()
    ensures r == Failed(NotFound) <==> IndexOf(old(table.rows), widgetId).None?
    ensures r == Failed(StorageFailure) <==> IndexOf(old(table.rows), widgetId).Some? && !writeOk
    ensures r.Done? <==> IndexOf(old(table.rows), widgetId).Some? && writeOk
    ensures r.Done? ==>
      var i := IndexOf(old(table.rows), widgetId).value;
      table.rows == old(table.rows)[i := Processed(old(table.rows)[i], now)]
    ensures !r.Done? ==> table.rows == old(table.rows)
  {
    var found := IndexOf(table.rows, widgetId);
    if found.None? {
      return Failed(NotFound);
    }
    var i := found.value;
    var widget := table.rows[i];
    var processingData := CalculateProcessingData(widget.price, Some(widget.quantity));
    var metadata := OrElse(widget.metadata, map[]);
    metadata := metadata[ProcessingKey := ProcessingEntry(processingData, now)];
    if !writeOk {
      return Failed(StorageFailure);
    }
    table.rows := table.rows[i := Saved(widget, widget.(metadata := Some(metadata), processedAt := Some(now)), now)];
    r := Done;
  }
}
