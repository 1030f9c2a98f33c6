/** The collaborators the pipeline works through: the `widgets` table, the job queue and
    the mail transport, each an object whose contents the program changes in place, plus
    the values they carry (task descriptors, mails, the daily report). */
module Infra {
  import opened Common
  import opened Widgets

  /** Which job class a queued task runs, with its payload. Jobs carry widget ids and
      re-read the row when they run. */
  datatype Task =
    | ProcessWidget(widgetId: nat)
    | SendFollowUp(widgetId: nat)
    | ProcessBatch(widgetIds: seq<nat>)
    | GenerateDailyReport

  /** A queued task: not to run before `notBefore`, with its job class's attempt budget
      (`$tries`) and per-attempt timeout in seconds (`$timeout`). */
  datatype Pending = Pending(task: Task, notBefore: Option<int>, tries: nat, timeout: nat)

  /** The snapshot the daily report job mails. `reportDate` is the report day's number
      (its `Y-m-d` rendering is not modelled). */
  datatype Report = Report(reportDate: int, today: TodayCounts, yesterday: DayCounts, totals: Totals)
  datatype TodayCounts = TodayCounts(created: nat, updated: nat, deleted: nat, processed: nat, emailsSent: nat)
  datatype DayCounts = DayCounts(created: nat, updated: nat)
  datatype Totals = Totals(total: nat, active: nat, inactive: nat, archived: nat)

  /** A delivered mail. The follow-up mail carries the widget it describes and is
      addressed to whatever value the metadata held. */
  datatype Mail =
    | FollowUpMail(address: Json, widget: Widget)
    | DailyReportMail(recipient: string, report: Report)
    | ContactSubmittedMail(target: Option<string>, submissionId: nat)

  /** Eloquent's `save()` of a changed copy `after` of `before`: nothing is written when no
      attribute changed; otherwise the changes are written and `updated_at` becomes `now`. */
  function Saved(before: Widget, after: Widget, now: int): (w: Widget)
    ensures w.(updatedAt := after.updatedAt) == after
    ensures w.updatedAt == now || (w == before && after == before)
  {
    if after == before then before else after.(updatedAt := now)
  }

  /** The `widgets` table. */
  class WidgetTable {
    var rows: seq<Widget>

    ghost predicate Valid()
      reads this
    {
      Dense(rows)
    }

    constructor ()
      ensures Valid() && rows == []
    {
      rows := [];
    }
  }

  /** The job queue, in dispatch order. */
  class JobQueue {
    var jobs: seq<Pending>

    constructor ()
      ensures jobs == []
    {
      jobs := [];
    }

    method Push(p: Pending)
      modifies this
      ensures jobs == old(jobs) + [p]
    {
      jobs := jobs + [p];
    }
  }

  /** The mail transport, as the list of mails it has accepted. */
  class MailOutbox {
    var sent: seq<Mail>

    constructor ()
      ensures sent == []
    {
      sent := [];
    }

    method Send(m: Mail)
      modifies this
      ensures sent == old(sent) + [m]
    {
      sent := sent + [m];
    }
  }
}
