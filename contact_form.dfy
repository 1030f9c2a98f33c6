/** The Livewire `ContactForm` component: five text properties bound to the page, a
    honeypot, validation, one stored submission and a best-effort notification mail. */
module ContactForm {
  import opened Common
  import opened Infra

  const MaxLineLength: nat := 255
  const MaxMessageLength: nat := 5000

  /** The four validated properties. */
  const FormFields: set<string> := {"name", "email", "subject", "message"}

  /** A stored `contact_submissions` row: the key, the four fields, and `meta` holding the
      client's address and user agent (each null when the request has none). */
  datatype Submission = Submission(
    id: nat,
    name: string,
    email: string,
    subject: string,
    message: string,
    meta: Metadata,
    createdAt: int)

  /** `required|string|max:n` on a string property: `required` refuses a string that trims
      to nothing. */
  predicate TextInvalid(s: string, max: nat) {
    IsBlank(s) || |s| > max
  }

  /** The property errors of `validate()`. `isEmail` is the `email` rule, whose address
      grammar is a parameter of the model. */
  function Errors(name: string, email: string, subject: string, message: string, isEmail: string -> bool)
    : (errors: set<string>)
    ensures errors <= FormFields
    ensures "name" in errors <==> IsBlank(name) || |name| > 255
    ensures "email" in errors <==> IsBlank(email) || |email| > 255 || !isEmail(email)
    ensures "subject" in errors <==> IsBlank(subject) || |subject| > 255
    ensures "message" in errors <==> IsBlank(message) || |message| > 5000
  {
    (if TextInvalid(name, MaxLineLength) then {"name"} else {}) +
    (if TextInvalid(email, MaxLineLength) || !isEmail(email) then {"email"} else {}) +
    (if TextInvalid(subject, MaxLineLength) then {"subject"} else {}) +
    (if TextInvalid(message, MaxMessageLength) then {"message"} else {})
  }

  /** A form that passes validation has four non-empty fields within their limits. */
  lemma ValidFormBounds(name: string, email: string, subject: string, message: string, isEmail: string -> bool)
    requires Errors(name, email, subject, message, isEmail) == {}
    ensures 0 < |name| <= 255 && 0 < |email| <= 255 && 0 < |subject| <= 255 && 0 < |message| <= 5000
    ensures isEmail(email)
  {
    assert "name" !in Errors(name, email, subject, message, isEmail);
    assert "email" !in Errors(name, email, subject, message, isEmail);
    assert "subject" !in Errors(name, email, subject, message, isEmail);
    assert "message" !in Errors(name, email, subject, message, isEmail);
  }

  /** The reset form fails every rule, so submitting twice in a row stores one row. */
  lemma ResetFormIsInvalid(isEmail: string -> bool)
    ensures Errors("", "", "", "", isEmail) == FormFields
  {
  }

  /** Empty name, subject and message and a malformed address: all four properties fail. */
  lemma InvalidFormExample(isEmail: string -> bool)
    requires !isEmail("invalid-email")
    ensures Errors("", "invalid-email", "", "", isEmail) == FormFields
  {
  }

  /** The example form from the feature tests passes, given the address is well formed. */
  lemma ValidFormExample(isEmail: string -> bool)
    requires isEmail("john@example.com")
    ensures Errors("John Doe", "john@example.com", "Test Subject", "This is a test message.", isEmail) == {}
  {
    assert !IsBlank("John Doe") by { assert !IsTrimmed("John Doe"[0]); }
    assert !IsBlank("john@example.com") by { assert !IsTrimmed("john@example.com"[0]); }
    assert !IsBlank("Test Subject") by { assert !IsTrimmed("Test Subject"[0]); }
    assert !IsBlank("This is a test message.") by { assert !IsTrimmed("This is a test message."[0]); }
  }

  /** `!empty($this->website)`: the honeypot caught a bot. PHP's `empty` also holds for
      `"0"`, so that value lets the submission through. */
  predicate Trapped(website: string) {
    !PhpEmpty(website)
  }

  lemma TrappedExamples()
    ensures Trapped("spam-bot-filled-this")
    ensures !Trapped("") && !Trapped("0")
  {
  }

  /** `request()->ip()` or `userAgent()`: absent becomes JSON null. */
  function Client(v: Option<string>): (j: Json)
    ensures v.Some? ==> j == JStr(v.value)
    ensures v.None? ==> j == JNull
  {
    if v.Some? then JStr(v.value) else JNull
  }

  /** The `meta` array, exactly the two keys. */
  function Meta(ip: Option<string>, userAgent: Option<string>): (m: Metadata)
    ensures m.Keys == {"ip_address", "user_agent"}
    ensures m["ip_address"] == Client(ip) && m["user_agent"] == Client(userAgent)
  {
    map["ip_address" := Client(ip), "user_agent" := Client(userAgent)]
  }

  /** The `contact_submissions` table in key order; keys are 1, 2, 3, ... */
  class SubmissionTable {
    var rows: seq<Submission>

    ghost predicate Valid()
      reads this
    {
      forall i :: 0 <= i < |rows| ==> rows[i].id == i + 1
    }

    constructor ()
      ensures Valid() && rows == []
    {
      rows := [];
    }

    /** `ContactSubmission::create`: the next key and `created_at` `now`; returns the row. */
    method Create(name: string, email: string, subject: string, message: string, meta: Metadata, now: int)
      returns (s: Submission)
      requires Valid()
      modifies this
      ensures Valid()
      ensures s == Submission(|old(rows)| + 1, name, email, subject, message, meta, now)
      ensures rows == old(rows) + [s]
    {
      s := Submission(|rows| + 1, name, email, subject, message, meta, now);
      rows := rows + [s];
    }
  }

  /** What `submit` did. */
  datatype SubmitResult =
    | Ignored                    // the honeypot was filled: an early return
    | Invalid(errors: set<string>) // validation failed: the error bag is shown
    | StoreFailed                 // the insert threw; the exception propagates
    | Submitted(submissionId: nat)

  /** The component's public properties. */
  class Component {
    var name: string
    var email: string
    var subject: string
    var message: string
    var website: string
    var success: bool

    /** Mount: every property empty and no success banner. */
    constructor ()
      ensures name == "" && email == "" && subject == "" && message == "" && website == ""
      ensures !success
    {
      name, email, subject, message, website := "", "", "", "", "";
      success := false;
    }

    /** `submit()`. `isEmail` is the `email` rule; `ip` and `userAgent` come from the request;
        `now` is the clock; `storeOk` is whether the insert succeeds; `mailOk` is whether
        the mail to `mailTarget` (the `MAIL_TARGET` setting) is sent. A mail failure is
        logged and does not fail the submission. */
    method Submit(table: SubmissionTable, outbox: MailOutbox, isEmail: string -> bool,
                  ip: Option<string>, userAgent: Option<string>, mailTarget: Option<string>,
                  now: int, storeOk: bool, mailOk: bool)
      returns (r: SubmitResult)
      requires table.Valid()
      modifies this, table, outbox
      ensures table.Valid()
      ensures Trapped(old(website)) ==>
        r == Ignored && unchanged(this) && table.rows == old(table.rows) && outbox.sent == old(outbox.sent)
      ensures !Trapped(old(website)) && Errors(old(name), old(email), old(subject), old(message), isEmail) != {} ==>
        && r == Invalid(Errors(old(name), old(email), old(subject), old(message), isEmail))
        && unchanged(this) && table.rows == old(table.rows) && outbox.sent == old(outbox.sent)
      ensures !Trapped(old(website)) && Errors(old(name), old(email), old(subject), old(message), isEmail) == {} &&
              !storeOk ==>
        r == StoreFailed && unchanged(this) && table.rows == old(table.rows) && outbox.sent == old(outbox.sent)
      ensures !Trapped(old(website)) && Errors(old(name), old(email), old(subject), old(message), isEmail) == {} &&
              storeOk ==>
        var s := Submission(|old(table.rows)| + 1, old(name), old(email), old(subject), old(message),
                            Meta(ip, userAgent), now);
        && r == Submitted(s.id)
        && table.rows == old(table.rows) + [s]
        && outbox.sent == old(outbox.sent) + (if mailOk then [ContactSubmittedMail(mailTarget, s.id)] else [])
        && name == "" && email == "" && subject == "" && message == "" && website == ""
        && success
    {
      if Trapped(website) {
        return Ignored;
      }
      var errors := Errors(name, email, subject, message, isEmail);
      if errors != {} {
        return Invalid(errors);
      }
      if !storeOk {
        return StoreFailed;
      }
      var submission := table.Create(name, email, subject, message, Meta(ip, userAgent), now);
      if mailOk {
        outbox.Send(ContactSubmittedMail(mailTarget, submission.id));
      }
      name, email, subject, message, website := "", "", "", "", "";
      success := true;
      r := Submitted(submission.id);
    }
  }
}
