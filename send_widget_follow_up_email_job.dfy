/** `SendWidgetFollowUpEmailJob`: a guarded one-shot follow-up mail to the address kept
    in a widget's metadata, stamping `email_sent_at` once it is sent. */
module SendWidgetFollowUpEmailJob {
  import opened Common
  import opened Widgets
  import opened Infra

  /** `$tries` and `$timeout` (seconds). */
  const Tries: nat := 3
  const Timeout: nat := 30

  /** The job is dispatched to run no earlier than 24 hours after dispatch. */
  const Delay: int := 24 * SecondsPerHour

  const EmailKey: string := "email"
  const ContactEmailKey: string := "contact_email"

  /** The `??` chain of `getEmailFromMetadata`: `$metadata['email'] ?? $metadata['contact_email']
      ?? null`, with null metadata read as an empty array. */
  function MetadataAddress(metadata: Option<Metadata>): (r: Option<Json>)
    ensures r.Some? ==> r.value != JNull
    ensures metadata.Some? && EmailKey in metadata.value && metadata.value[EmailKey] != JNull ==>
              r == Some(metadata.value[EmailKey])
    ensures metadata.Some? && (EmailKey !in metadata.value || metadata.value[EmailKey] == JNull) ==>
              (r.Some? <==> ContactEmailKey in metadata.value && metadata.value[ContactEmailKey] != JNull) &&
              (r.Some? ==> r == Some(metadata.value[ContactEmailKey]))
    ensures metadata.None? ==> r.None?
  {
    var m := OrElse(metadata, map[]);
    match Lookup(m, EmailKey)
    case Some(e) => Some(e)
    case None => Lookup(m, ContactEmailKey)
  }

  /** A value PHP's weak-mode `?string` return converts to a string. A JSON list or object
      is a PHP array after the `array` cast, and returning it raises a TypeError. */
  predicate Scalar(j: Json) {
    !j.JArr? && !j.JObj?
  }

  /** `getEmailFromMetadata(): ?string`. A scalar is passed on as the address (its string
      rendering is as truthy as the value itself); a list or an object fails with a
      TypeError, which is not an `\Exception` and so escapes the `catch` of `handle`. */
  function EmailFromMetadata(metadata: Option<Metadata>): (r: Result<Option<Json>>)
    ensures r.Err? <==> MetadataAddress(metadata).Some? && !Scalar(MetadataAddress(metadata).value)
    ensures r.Err? ==> r.failure == TypeFailure
    ensures r.Ok? ==> r.value == MetadataAddress(metadata)
    ensures r.Ok? && r.value.Some? ==> Scalar(r.value.value) && r.value.value != JNull
  {
    match MetadataAddress(metadata)
    case None => Ok(None)
    case Some(e) => if Scalar(e) then Ok(Some(e)) else Err(TypeFailure)
  }

  /** What `handle` decides to do with a widget. */
  datatype Decision = NotAString | NoAddress | AlreadySent | SendTo(address: Json)

  /** The start of `handle`, in its order: the address lookup (which may throw), then
      the two early returns, first a falsy address, then an `email_sent_at` already set. */
  function Decide(w: Widget): (d: Decision)
    ensures d.NotAString? <==> EmailFromMetadata(w.metadata).Err?
    ensures d.NoAddress? <==>
              && EmailFromMetadata(w.metadata).Ok?
              && (EmailFromMetadata(w.metadata).value.None? || !Truthy(EmailFromMetadata(w.metadata).value.value))
    ensures d.AlreadySent? <==> !d.NotAString? && !d.NoAddress? && w.emailSentAt.Some?
    ensures d.SendTo? ==>
              && w.emailSentAt.None? && Truthy(d.address) && Scalar(d.address)
              && MetadataAddress(w.metadata) == Some(d.address)
  {
    match EmailFromMetadata(w.metadata)
    case Err(_) => NotAString
    case Ok(email) =>
      if email.None? || !Truthy(email.value) then NoAddress
      else if w.emailSentAt.Some? then AlreadySent
      else SendTo(email.value)
  }

  /** The row, the mails delivered and the outcome of one run. */
  datatype RunResult = RunResult(widget: Widget, mails: seq<Mail>, outcome: Outcome)

  /** One run of `handle` on the re-read row. `sendOk` is whether the transport accepts the
      mail and `writeOk` whether the database accepts the stamp; either failure is
      re-thrown. The send comes first, so a failed stamp leaves a delivered mail behind. */
  function Run(w: Widget, now: int, sendOk: bool, writeOk: bool): (res: RunResult)
    ensures |res.mails| <= 1
    ensures res.mails != [] <==> Decide(w).SendTo? && sendOk
    ensures res.mails != [] ==> res.mails == [FollowUpMail(Decide(w).address, w)]
    ensures res.widget == w || res.widget == w.(emailSentAt := Some(now), updatedAt := now)
    ensures res.widget != w <==> Decide(w).SendTo? && sendOk && writeOk
    ensures res.outcome == Failed(MailFailure) <==> Decide(w).SendTo? && !sendOk
    ensures res.outcome == Failed(StorageFailure) <==> Decide(w).SendTo? && sendOk && !writeOk
    ensures res.outcome == Failed(TypeFailure) <==> Decide(w).NotAString?
    ensures res.outcome.Done? || res.outcome == Failed(MailFailure) || res.outcome == Failed(StorageFailure) ||
            res.outcome == Failed(TypeFailure)
  {
    match Decide(w)
    case NotAString => RunResult(w, [], Failed(TypeFailure))
    case NoAddress => RunResult(w, [], Done)
    case AlreadySent => RunResult(w, [], Done)
    case SendTo(address) =>
      if !sendOk then RunResult(w, [], Failed(MailFailure))
      else if !writeOk then RunResult(w, [FollowUpMail(address, w)], Failed(StorageFailure))
      else RunResult(Saved(w, w.(emailSentAt := Some(now)), now), [FollowUpMail(address, w)], Done)
  }

  /** One run of `handle` as written. `update(['email_sent_at' => now()])` goes through
      `fill()`, which silently drops `email_sent_at` because it is not in `$fillable`; the
      model is then clean, so `save()` sends no query and cannot fail. The mail still
      goes out, but the stamp is never stored. */
  function RunAsWritten(w: Widget, now: int, sendOk: bool): (res: RunResult)
    ensures res.widget == w
    ensures res.mails == Run(w, now, sendOk, true).mails
    ensures res.outcome == Run(w, now, sendOk, true).outcome
  {
    match Decide(w)
    case NotAString => RunResult(w, [], Failed(TypeFailure))
    case NoAddress => RunResult(w, [], Done)
    case AlreadySent => RunResult(w, [], Done)
    case SendTo(address) =>
      if !sendOk then RunResult(w, [], Failed(MailFailure))
      else RunResult(Saved(w, w, now), [FollowUpMail(address, w)], Done)
  }

  /** As written the already-sent guard never fires: every run of a job for a widget with a
      usable address delivers the mail again. */
  lemma GuardNeverFiresAsWritten(w: Widget, t1: int, t2: int)
    requires Decide(w).SendTo?
    ensures var first := RunAsWritten(w, t1, true);
            var second := RunAsWritten(first.widget, t2, true);
            |first.mails| + |second.mails| == 2 && second.widget.emailSentAt.None?
  {
  }

  /** Once set, `email_sent_at` is terminal: a run sends nothing and changes nothing. It
      ends normally unless the address is a list or an object. */
  lemma AlreadySentIsTerminal(w: Widget, now: int, sendOk: bool, writeOk: bool)
    requires w.emailSentAt.Some?
    ensures Run(w, now, sendOk, writeOk).widget == w && Run(w, now, sendOk, writeOk).mails == []
    ensures Run(w, now, sendOk, writeOk).outcome ==
            if EmailFromMetadata(w.metadata).Err? then Failed(TypeFailure) else Done
  {
  }

  /** An address that is a JSON list or object fails the attempt before anything happens:
      no mail, no write, whatever the transport and the database would do. */
  lemma ListOrObjectAddressFails(w: Widget, now: int, sendOk: bool, writeOk: bool)
    requires MetadataAddress(w.metadata).Some?
    requires MetadataAddress(w.metadata).value.JArr? || MetadataAddress(w.metadata).value.JObj?
    ensures Run(w, now, sendOk, writeOk) == RunResult(w, [], Failed(TypeFailure))
  {
  }

  /** The job never clears or moves an `email_sent_at` stamp, and a run that delivered a
      mail and stored its stamp leaves the widget stamped. */
  lemma StampNeverCleared(w: Widget, now: int, sendOk: bool, writeOk: bool)
    ensures w.emailSentAt.Some? ==> Run(w, now, sendOk, writeOk).widget.emailSentAt == w.emailSentAt
    ensures Run(w, now, sendOk, writeOk).widget.emailSentAt.None? ==> w.emailSentAt.None?
  {
  }

  /** The address check comes before the already-sent check: without a usable address the
      run is a silent skip whatever `email_sent_at` holds. */
  lemma MissingAddressCheckedFirst(w: Widget, stamp: Option<int>)
    requires Decide(w).NoAddress?
    ensures Decide(w.(emailSentAt := stamp)).NoAddress?
  {
  }

  /** Two successive runs on the same widget deliver at most one mail, provided the first
      run's stamp reached the database. */
  lemma AtMostOneMail(w: Widget, t1: int, t2: int, send1: bool, send2: bool, write2: bool)
    ensures var first := Run(w, t1, send1, true);
            var second := Run(first.widget, t2, send2, write2);
            |first.mails| + |second.mails| <= 1
  {
    var first := Run(w, t1, send1, true);
    if first.mails != [] {
      assert first.widget.emailSentAt == Some(t1);
      AlreadySentIsTerminal(first.widget, t2, send2, write2);
    }
  }

  function SampleWidget(metadata: Option<Metadata>, emailSentAt: Option<int>): Widget {
    Widget(1, "Test Widget", None, Some(2999), 0, StatusActive, metadata, None, emailSentAt, 0, 0, None)
  }

  /** The guarantee is at-least-once, not exactly-once: when the stamp is lost after the
      mail went out, the retry sends the mail again. */
  lemma LostStampResends()
    ensures var w := SampleWidget(Some(map[EmailKey := JStr("test@example.com")]), None);
            var first := Run(w, 100, true, false);
            var second := Run(first.widget, 200, true, true);
            |first.mails| + |second.mails| == 2
  {
    var w := SampleWidget(Some(map[EmailKey := JStr("test@example.com")]), None);
    assert Decide(w) == SendTo(JStr("test@example.com"));
  }

  /** The address found in `email` wins, `contact_email` is the fallback, a null `email`
      falls through to it, but an empty or "0" `email` shadows it and skips the mail. */
  lemma AddressResolutionExamples()
    ensures Decide(SampleWidget(Some(map[EmailKey := JStr("a@x.com"), ContactEmailKey := JStr("b@x.com")]), None))
            == SendTo(JStr("a@x.com"))
    ensures Decide(SampleWidget(Some(map[ContactEmailKey := JStr("contact@example.com")]), None))
            == SendTo(JStr("contact@example.com"))
    ensures Decide(SampleWidget(Some(map[EmailKey := JNull, ContactEmailKey := JStr("b@x.com")]), None))
            == SendTo(JStr("b@x.com"))
    ensures Decide(SampleWidget(Some(map[EmailKey := JStr(""), ContactEmailKey := JStr("b@x.com")]), None))
            == NoAddress
    ensures Decide(SampleWidget(Some(map["color" := JStr("blue")]), None)) == NoAddress
    ensures Decide(SampleWidget(None, None)) == NoAddress
  {
    var m := map[EmailKey := JStr(""), ContactEmailKey := JStr("b@x.com")];
    assert Lookup(m, EmailKey) == Some(JStr(""));
    assert !Truthy(JStr(""));
  }

  /** A list under `email` fails the run, and so does an empty object under `email`: it is
      not null, so `??` picks it over a usable `contact_email`. */
  lemma NonStringAddressExamples(now: int, sendOk: bool, writeOk: bool)
    ensures var w := SampleWidget(Some(map[EmailKey := JArr([JStr("a@b.c")])]), None);
            Run(w, now, sendOk, writeOk) == RunResult(w, [], Failed(TypeFailure))
    ensures var w := SampleWidget(Some(map[EmailKey := JObj(map[]), ContactEmailKey := JStr("x@y.z")]), None);
            Run(w, now, sendOk, writeOk) == RunResult(w, [], Failed(TypeFailure))
  {
    var m := map[EmailKey := JObj(map[]), ContactEmailKey := JStr("x@y.z")];
    assert Lookup(m, EmailKey) == Some(JObj(map[]));
  }

  /** `SendWidgetFollowUpEmailJob::dispatch($widget)->delay(now()->addHours(24))`. */
  method Dispatch(queue: JobQueue, widgetId: nat, now: int)
    modifies queue
    ensures queue.jobs == old(queue.jobs) + [Pending(SendFollowUp(widgetId), Some(now + 86400), 3, 30)]
  {
    queue.Push(Pending(SendFollowUp(widgetId), Some(now + Delay), Tries, Timeout));
  }

  /** `handle` on the row with key `widgetId` (trashed rows included, as model restoration
      ignores global scopes). */
  method Handle(table: WidgetTable, outbox: MailOutbox, widgetId: nat, now: int, sendOk: bool, writeOk: bool)
    returns (r: Outcome)
    requires table.Valid()
    modifies table, outbox
    ensures table.Valid()
    ensures IndexOf(old(table.rows), widgetId).None? ==>
      r == Failed(NotFound) && table.rows == old(table.rows) && outbox.sent == old(outbox.sent)
    ensures IndexOf(old(table.rows), widgetId).Some? ==>
      var i := IndexOf(old(table.rows), widgetId).value;
      var res := Run(old(table.rows)[i], now, sendOk, writeOk);
      && table.rows == old(table.rows)[i := res.widget]
      && outbox.sent == old(outbox.sent) + res.mails
      && r == res.outcome
  {
    var found := IndexOf(table.rows, widgetId);
    if found.None? {
      return Failed(NotFound);
    }
    var i := found.value;
    var widget := table.rows[i];
    var lookup := EmailFromMetadata(widget.metadata);
    if lookup.Err? {
      return Failed(TypeFailure);
    }
    var email := lookup.value;
    if email.None? || !Truthy(email.value) {
      return Done;
    }
    if widget.emailSentAt.Some? {
      return Done;
    }
    if !sendOk {
      return Failed(MailFailure);
    }
    outbox.Send(FollowUpMail(email.value, widget));
    if !writeOk {
      return Failed(StorageFailure);
    }
    table.rows := table.rows[i := Saved(widget, widget.(emailSentAt := Some(now)), now)];
    r := Done;
  }
}
