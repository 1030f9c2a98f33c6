/** `GenerateDailyWidgetReportJob`: a read-only snapshot of the widgets table, counted per
    calendar day and per status, mailed to one administrator address. */
module GenerateDailyWidgetReportJob {
  import opened Common
  import opened Widgets
  import opened Infra

  /** `$tries` and `$timeout` (seconds). */
  const Tries: nat := 2
  const Timeout: nat := 120

  /** The recipient when neither the configuration nor the environment names one. */
  const FallbackAdmin: string := "admin@example.com"

  // Every query except `onlyTrashed()` runs under the soft-delete scope, so each of the
  // following conditions includes "not trashed" except `DeletedOn`.

  predicate Live(w: Widget) {
    !Trashed(w)
  }

  predicate LiveActive(w: Widget) {
    Live(w) && w.status == StatusActive
  }

  predicate LiveInactive(w: Widget) {
    Live(w) && w.status == StatusInactive
  }

  predicate LiveArchived(w: Widget) {
    Live(w) && w.status == StatusArchived
  }

  /** A live row whose status is outside the enum (the migration's column forbids it). */
  predicate LiveOther(w: Widget) {
    Live(w) && w.status !in Statuses
  }

  /** `whereDate('created_at', d)`. */
  function CreatedOn(d: int): Widget -> bool {
    (w: Widget) => Live(w) && Day(w.createdAt) == d
  }

  /** `whereDate('updated_at', d)->whereColumn('updated_at', '!=', 'created_at')`. */
  function UpdatedOn(d: int): Widget -> bool {
    (w: Widget) => Live(w) && Day(w.updatedAt) == d && w.updatedAt != w.createdAt
  }

  /** `onlyTrashed()->whereDate('deleted_at', d)`. */
  function DeletedOn(d: int): Widget -> bool {
    (w: Widget) => w.deletedAt.Some? && Day(w.deletedAt.value) == d
  }

  /** `whereDate('processed_at', d)`: a null stamp matches no day. */
  function ProcessedOn(d: int): Widget -> bool {
    (w: Widget) => Live(w) && w.processedAt.Some? && Day(w.processedAt.value) == d
  }

  /** `whereDate('email_sent_at', d)`. */
  function EmailedOn(d: int): Widget -> bool {
    (w: Widget) => Live(w) && w.emailSentAt.Some? && Day(w.emailSentAt.value) == d
  }

  /** `generateReportData` at instant `now`. Today is the day `now` falls on and yesterday
      the day of one day before today's midnight. Every live-row count is bounded by the
      live total, and the trashed rows counted as deleted today are disjoint from it. */
  function GenerateReportData(rows: seq<Widget>, now: int): (r: Report)
    ensures r.reportDate == Day(now)
    ensures r.today.created <= r.totals.total && r.today.updated <= r.totals.total
    ensures r.today.processed <= r.totals.total && r.today.emailsSent <= r.totals.total
    ensures r.yesterday.created <= r.totals.total && r.yesterday.updated <= r.totals.total
    ensures r.totals.active <= r.totals.total && r.totals.inactive <= r.totals.total
    ensures r.totals.archived <= r.totals.total
    ensures r.today.deleted + r.totals.total <= |rows|
  {
    var today := StartOfDay(now);
    var yesterday := today - SecondsPerDay;
    var d := Day(today);
    var y := Day(yesterday);
    CountMono(rows, CreatedOn(d), Live);
    CountMono(rows, UpdatedOn(d), Live);
    CountMono(rows, ProcessedOn(d), Live);
    CountMono(rows, EmailedOn(d), Live);
    CountMono(rows, CreatedOn(y), Live);
    CountMono(rows, UpdatedOn(y), Live);
    CountMono(rows, LiveActive, Live);
    CountMono(rows, LiveInactive, Live);
    CountMono(rows, LiveArchived, Live);
    DeletedAndLiveDisjoint(rows, d);
    Report(
      d,
      TodayCounts(
        Count(rows, CreatedOn(d)),
        Count(rows, UpdatedOn(d)),
        Count(rows, DeletedOn(d)),
        Count(rows, ProcessedOn(d)),
        Count(rows, EmailedOn(d))),
      DayCounts(Count(rows, CreatedOn(y)), Count(rows, UpdatedOn(y))),
      Totals(
        Count(rows, Live),
        Count(rows, LiveActive),
        Count(rows, LiveInactive),
        Count(rows, LiveArchived)))
  }

  // The same conditions stated with the window bounds written out: the stamp lies at or
  // after the window's first instant `lo` and before the next midnight.

  predicate InWindow(t: int, lo: int) {
    lo <= t < lo + SecondsPerDay
  }

  function CreatedIn(lo: int): Widget -> bool {
    (w: Widget) => !Trashed(w) && InWindow(w.createdAt, lo)
  }

  function UpdatedIn(lo: int): Widget -> bool {
    (w: Widget) => !Trashed(w) && InWindow(w.updatedAt, lo) && w.updatedAt != w.createdAt
  }

  function DeletedIn(lo: int): Widget -> bool {
    (w: Widget) => w.deletedAt.Some? && InWindow(w.deletedAt.value, lo)
  }

  function ProcessedIn(lo: int): Widget -> bool {
    (w: Widget) => !Trashed(w) && w.processedAt.Some? && InWindow(w.processedAt.value, lo)
  }

  function EmailedIn(lo: int): Widget -> bool {
    (w: Widget) => !Trashed(w) && w.emailSentAt.Some? && InWindow(w.emailSentAt.value, lo)
  }

  /** `whereDate(column, d)` selects the stamps of `d`'s midnight-to-midnight window. */
  lemma DayConditionsAreWindows(d: int)
    ensures forall w :: CreatedOn(d)(w) == CreatedIn(d * SecondsPerDay)(w)
    ensures forall w :: UpdatedOn(d)(w) == UpdatedIn(d * SecondsPerDay)(w)
    ensures forall w :: DeletedOn(d)(w) == DeletedIn(d * SecondsPerDay)(w)
    ensures forall w :: ProcessedOn(d)(w) == ProcessedIn(d * SecondsPerDay)(w)
    ensures forall w :: EmailedOn(d)(w) == EmailedIn(d * SecondsPerDay)(w)
  {
    forall t: int ensures (Day(t) == d) == InWindow(t, d * SecondsPerDay) {
      DayWindow(t, d);
    }
  }

  /** Every figure of the report, counted over the rows: today's figures over the window
      from today's midnight, yesterday's over the window from the midnight before, and the
      totals over the live rows by status. A row created one second before today's
      midnight counts for yesterday and not for today. */
  lemma ReportCounts(rows: seq<Widget>, now: int)
    ensures var r := GenerateReportData(rows, now);
            var lo := StartOfDay(now);
            && r.today.created == Count(rows, CreatedIn(lo))
            && r.today.updated == Count(rows, UpdatedIn(lo))
            && r.today.deleted == Count(rows, DeletedIn(lo))
            && r.today.processed == Count(rows, ProcessedIn(lo))
            && r.today.emailsSent == Count(rows, EmailedIn(lo))
            && r.yesterday.created == Count(rows, CreatedIn(lo - SecondsPerDay))
            && r.yesterday.updated == Count(rows, UpdatedIn(lo - SecondsPerDay))
            && r.totals.total == Count(rows, (w: Widget) => !Trashed(w))
            && r.totals.active == Count(rows, (w: Widget) => !Trashed(w) && w.status == "active")
            && r.totals.inactive == Count(rows, (w: Widget) => !Trashed(w) && w.status == "inactive")
            && r.totals.archived == Count(rows, (w: Widget) => !Trashed(w) && w.status == "archived")
  {
    var lo := StartOfDay(now);
    var d := Day(lo);
    var y := Day(lo - SecondsPerDay);
    assert d * SecondsPerDay == lo;
    PreviousDay(now);
    assert y * SecondsPerDay == lo - SecondsPerDay;
    DayConditionsAreWindows(d);
    DayConditionsAreWindows(y);
    CountAgree(rows, CreatedOn(d), CreatedIn(lo));
    CountAgree(rows, UpdatedOn(d), UpdatedIn(lo));
    CountAgree(rows, DeletedOn(d), DeletedIn(lo));
    CountAgree(rows, ProcessedOn(d), ProcessedIn(lo));
    CountAgree(rows, EmailedOn(d), EmailedIn(lo));
    CountAgree(rows, CreatedOn(y), CreatedIn(lo - SecondsPerDay));
    CountAgree(rows, UpdatedOn(y), UpdatedIn(lo - SecondsPerDay));
    CountAgree(rows, Live, (w: Widget) => !Trashed(w));
    CountAgree(rows, LiveActive, (w: Widget) => !Trashed(w) && w.status == "active");
    CountAgree(rows, LiveInactive, (w: Widget) => !Trashed(w) && w.status == "inactive");
    CountAgree(rows, LiveArchived, (w: Widget) => !Trashed(w) && w.status == "archived");
  }

  /** A live widget created one second before today's midnight is yesterday's creation. */
  lemma CreatedBeforeMidnight(now: int)
    ensures var w := Widget(1, "a", None, None, 0, StatusActive, None, None, None,
                            StartOfDay(now) - 1, StartOfDay(now) - 1, None);
            var r := GenerateReportData([w], now);
            r.today.created == 0 && r.yesterday.created == 1
  {
    var w := Widget(1, "a", None, None, 0, StatusActive, None, None, None,
                    StartOfDay(now) - 1, StartOfDay(now) - 1, None);
    ReportCounts([w], now);
    assert [w][1..] == [];
  }

  lemma {:induction false} DeletedAndLiveDisjoint(rows: seq<Widget>, d: int)
    ensures Count(rows, DeletedOn(d)) + Count(rows, Live) <= |rows|
  {
    if rows != [] {
      DeletedAndLiveDisjoint(rows[1..], d);
    }
  }

  /** Every live row has one of the three enum statuses or another one. */
  lemma {:induction false} TotalsDecompose(rows: seq<Widget>)
    ensures Count(rows, Live) ==
            Count(rows, LiveActive) + Count(rows, LiveInactive) + Count(rows, LiveArchived) + Count(rows, LiveOther)
  {
    if rows != [] {
      TotalsDecompose(rows[1..]);
      var w := rows[0];
      assert Count(rows, Live) == (if Live(w) then 1 else 0) + Count(rows[1..], Live);
      assert Count(rows, LiveActive) == (if LiveActive(w) then 1 else 0) + Count(rows[1..], LiveActive);
      assert Count(rows, LiveInactive) == (if LiveInactive(w) then 1 else 0) + Count(rows[1..], LiveInactive);
      assert Count(rows, LiveArchived) == (if LiveArchived(w) then 1 else 0) + Count(rows[1..], LiveArchived);
      assert Count(rows, LiveOther) == (if LiveOther(w) then 1 else 0) + Count(rows[1..], LiveOther);
    }
  }

  /** The three status totals add up to the live total exactly when every live row holds
      one of the enum statuses, as the `status` column guarantees. */
  lemma TotalsPartition(rows: seq<Widget>, now: int)
    ensures var t := GenerateReportData(rows, now).totals;
            t.total == t.active + t.inactive + t.archived <==>
            forall i :: 0 <= i < |rows| && !Trashed(rows[i]) ==> rows[i].status in Statuses
  {
    TotalsDecompose(rows);
    CountExtremes(rows, LiveOther);
    assert (forall i :: 0 <= i < |rows| ==> !LiveOther(rows[i])) <==>
           forall i :: 0 <= i < |rows| && !Trashed(rows[i]) ==> rows[i].status in Statuses;
  }

  /** Yesterday is the day before the report date, and a widget belongs to a day exactly
      when its stamp lies between that day's midnight and the next. */
  lemma ReportDays(rows: seq<Widget>, now: int, t: int)
    ensures Day(StartOfDay(now) - SecondsPerDay) == GenerateReportData(rows, now).reportDate - 1
    ensures Day(t) == Day(now) <==> StartOfDay(now) <= t < StartOfDay(now) + SecondsPerDay
  {
    PreviousDay(now);
    DayWindow(t, Day(now));
  }

  /** Soft-deleting a live widget at `now` moves it from the live total to today's
      deletions; no other row's contribution changes. */
  lemma SoftDeleteMovesToDeleted(rows: seq<Widget>, i: nat, now: int)
    requires i < |rows| && !Trashed(rows[i])
    ensures var before := GenerateReportData(rows, now);
            var after := GenerateReportData(rows[i := rows[i].(deletedAt := Some(now), updatedAt := now)], now);
            && after.totals.total + 1 == before.totals.total
            && after.today.deleted == before.today.deleted + 1
  {
    var x := rows[i].(deletedAt := Some(now), updatedAt := now);
    var d := Day(StartOfDay(now));
    CountUpdate(rows, i, x, Live);
    CountUpdate(rows, i, x, DeletedOn(d));
  }

  /** A widget created now and one created a day earlier: each day counts its own. */
  lemma TwoDaysScenario(now: int)
    ensures var w1 := Widget(1, "a", None, None, 0, StatusActive, None, None, None, now, now, None);
            var w2 := Widget(2, "b", None, None, 0, StatusActive, None, None, None,
                             now - SecondsPerDay, now - SecondsPerDay, None);
            var r := GenerateReportData([w1, w2], now);
            r.today.created == 1 && r.yesterday.created == 1 && r.totals.total == 2 &&
            r.today.updated == 0 && r.totals.active == 2
  {
    var w1 := Widget(1, "a", None, None, 0, StatusActive, None, None, None, now, now, None);
    var w2 := Widget(2, "b", None, None, 0, StatusActive, None, None, None,
                     now - SecondsPerDay, now - SecondsPerDay, None);
    var rows := [w1, w2];
    var d := Day(StartOfDay(now));
    assert Day(now - SecondsPerDay) == d - 1 by {
      DayWindow(now - SecondsPerDay, Day(now) - 1);
    }
    assert d - 1 == Day(StartOfDay(now) - SecondsPerDay) by {
      PreviousDay(now);
    }
    CountPair(w1, w2, CreatedOn(d));
    CountPair(w1, w2, CreatedOn(d - 1));
    CountPair(w1, w2, UpdatedOn(d));
    CountPair(w1, w2, Live);
    CountPair(w1, w2, LiveActive);
  }

  lemma CountPair(a: Widget, b: Widget, p: Widget -> bool)
    ensures Count([a, b], p) == (if p(a) then 1 else 0) + (if p(b) then 1 else 0)
  {
    assert [a, b][1..] == [b] && [b][1..] == [];
  }

  /** `config('mail.admin_email', env('MAIL_TARGET', 'admin@example.com'))`. */
  function AdminAddress(configured: Option<string>, mailTarget: Option<string>): (a: string)
    ensures configured.Some? ==> a == configured.value
    ensures configured.None? && mailTarget.Some? ==> a == mailTarget.value
    ensures configured.None? && mailTarget.None? ==> a == "admin@example.com"
  {
    OrElse(configured, OrElse(mailTarget, FallbackAdmin))
  }

  /** `GenerateDailyWidgetReportJob::dispatch()`. */
  method Dispatch(queue: JobQueue)
    modifies queue
    ensures queue.jobs == old(queue.jobs) + [Pending(GenerateDailyReport, None, 2, 120)]
  {
    queue.Push(Pending(GenerateDailyReport, None, Tries, Timeout));
  }

  /** `handle`. `queryOk` is whether the counting queries succeed and `sendOk` whether the
      transport accepts the mail; either failure is re-thrown. The job reads the table and
      never writes it, and delivers at most one mail. */
  method Handle(table: WidgetTable, outbox: MailOutbox, now: int, configured: Option<string>,
                mailTarget: Option<string>, queryOk: bool, sendOk: bool)
    returns (r: Outcome)
    modifies outbox
    ensures !queryOk ==> r == Failed(StorageFailure) && outbox.sent == old(outbox.sent)
    ensures queryOk && !sendOk ==> r == Failed(MailFailure) && outbox.sent == old(outbox.sent)
    ensures queryOk && sendOk ==>
      && r == Done
      && outbox.sent == old(outbox.sent) +
           [DailyReportMail(AdminAddress(configured, mailTarget), GenerateReportData(table.rows, now))]
  {
    if !queryOk {
      return Failed(StorageFailure);
    }
    var reportData := GenerateReportData(table.rows, now);
    var adminEmail := AdminAddress(configured, mailTarget);
    if !sendOk {
      return Failed(MailFailure);
    }
    outbox.Send(DailyReportMail(adminEmail, reportData));
    r := Done;
  }
}
