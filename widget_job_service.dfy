/** `WidgetJobService`: the facade through which the rest of the program enqueues the four
    widget jobs. Each call appends exactly one descriptor to the queue and touches nothing
    else; in particular no widget changes. */
module WidgetJobService {
  import opened Common
  import opened Infra
  import ProcessWidgetJob
  import SendWidgetFollowUpEmailJob
  import ProcessWidgetBatchJob
  import GenerateDailyWidgetReportJob

  /** `dispatchProcessing`: run `ProcessWidgetJob` on the widget as soon as possible. */
  method DispatchProcessing(queue: JobQueue, widgetId: nat)
    modifies queue
    ensures queue.jobs == old(queue.jobs) + [Pending(ProcessWidget(widgetId), None, 3, 60)]
  {
    ProcessWidgetJob.Dispatch(queue, widgetId);
  }

  /** `dispatchFollowUp`: the follow-up mail, not before 24 hours from `now`. */
  method DispatchFollowUp(queue: JobQueue, widgetId: nat, now: int)
    modifies queue
    ensures queue.jobs == old(queue.jobs) + [Pending(SendFollowUp(widgetId), Some(now + 86400), 3, 30)]
  {
    SendWidgetFollowUpEmailJob.Dispatch(queue, widgetId, now);
  }

  /** `dispatchBatch($widgetIds ?? [])`: a null list means the sweep. */
  method DispatchBatch(queue: JobQueue, widgetIds: Option<seq<nat>>)
    modifies queue
    ensures queue.jobs == old(queue.jobs) + [Pending(ProcessBatch(OrElse(widgetIds, [])), None, 2, 300)]
    ensures widgetIds.None? ==> queue.jobs[|old(queue.jobs)|].task == ProcessBatch([])
  {
    ProcessWidgetBatchJob.Dispatch(queue, OrElse(widgetIds, []));
  }

  /** `dispatchDailyReport`. */
  method DispatchDailyReport(queue: JobQueue)
    modifies queue
    ensures queue.jobs == old(queue.jobs) + [Pending(GenerateDailyReport, None, 2, 120)]
  {
    GenerateDailyWidgetReportJob.Dispatch(queue);
  }
}
