/** The three email jobs the services enqueue (email.service.ts). A job
    carries the name under which it is queued and a payload naming the
    recipient, the subject, the template and the template's context. The
    event date in the context is kept as the instant it renders. */
module Email {
  import opened Common

  datatype EmailKind = RegistrationConfirmation | EventReminder | RegistrationCancellation

  datatype EmailContext = EmailContext(eventName: string, eventDate: Time)

  datatype EmailPayload = EmailPayload(to: string, subject: string, template: string, context: EmailContext)

  datatype EmailJob = EmailJob(name: string, data: EmailPayload)

  /** The job name, which is also the template name, of each kind. */
  function TemplateName(kind: EmailKind): (name: string)
    ensures KindOfTemplate(name) == Some(kind)
  {
    match kind
    case RegistrationConfirmation => "registration-confirmation"
    case EventReminder => "event-reminder"
    case RegistrationCancellation =>
      assert "registration-cancellation"[14] != "registration-confirmation"[14];
      "registration-cancellation"
  }

  /** The kind a job name stands for, if any. */
  function KindOfTemplate(name: string): Option<EmailKind> {
    if name == "registration-confirmation" then Some(RegistrationConfirmation)
    else if name == "event-reminder" then Some(EventReminder)
    else if name == "registration-cancellation" then Some(RegistrationCancellation)
    else None
  }

  /** Template names and kinds are in one-to-one correspondence: the three
      names are distinct, and reading a name back gives its kind. */
  lemma TemplateNameRoundTrip(kind: EmailKind, name: string)
    ensures KindOfTemplate(TemplateName(kind)) == Some(kind)
    ensures KindOfTemplate(name) == Some(kind) <==> name == TemplateName(kind)
  {
    assert "registration-confirmation"[13] == 'c' && "registration-cancellation"[13] == 'c';
    assert "registration-confirmation"[14] == 'o' && "registration-cancellation"[14] == 'a';
    assert "event-reminder"[0] == 'e' && "registration-confirmation"[0] == 'r';
  }

  /** The subject line of each kind for an event called `eventName`. */
  function Subject(kind: EmailKind, eventName: string): (s: string)
    ensures |s| >= |SubjectPrefix(kind)| + |eventName|
    ensures s[..|SubjectPrefix(kind)|] == SubjectPrefix(kind)
    ensures s[|SubjectPrefix(kind)|..|SubjectPrefix(kind)| + |eventName|] == eventName
    ensures s[|SubjectPrefix(kind)| + |eventName|..] == if kind == EventReminder then " Tomorrow" else ""
  {
    match kind
    case RegistrationConfirmation => "Registration Confirmed: " + eventName
    case EventReminder => "Reminder: " + eventName + " Tomorrow"
    case RegistrationCancellation => "Registration Cancelled: " + eventName
  }

  /** The text before the event name in each kind's subject line. */
  function SubjectPrefix(kind: EmailKind): string {
    match kind
    case RegistrationConfirmation => "Registration Confirmed: "
    case EventReminder => "Reminder: "
    case RegistrationCancellation => "Registration Cancelled: "
  }

  /** The characters of a subject line that tell the kinds apart. */
  lemma SubjectMarks(kind: EmailKind, eventName: string)
    ensures |Subject(kind, eventName)| > 14
    ensures Subject(kind, eventName)[2] == if kind == EventReminder then 'm' else 'g'
    ensures kind != EventReminder ==>
      Subject(kind, eventName)[14] == if kind == RegistrationConfirmation then 'o' else 'a'
  {
  }

  /** A subject line names its kind and its event unambiguously. */
  lemma SubjectDeterminesKindAndEvent(k1: EmailKind, n1: string, k2: EmailKind, n2: string)
    requires Subject(k1, n1) == Subject(k2, n2)
    ensures k1 == k2 && n1 == n2
  {
    var s := Subject(k1, n1);
    SubjectMarks(k1, n1);
    SubjectMarks(k2, n2);
    var prefix := if k1 == RegistrationConfirmation then "Registration Confirmed: "
                  else if k1 == RegistrationCancellation then "Registration Cancelled: "
                  else "Reminder: ";
    var suffix := if k1 == EventReminder then " Tomorrow" else "";
    assert s == prefix + n1 + suffix && s == prefix + n2 + suffix;
    assert n1 == s[|prefix|..|s| - |suffix|] == n2;
  }

  /** The job a send method enqueues. */
  function BuildJob(kind: EmailKind, to: string, eventName: string, eventDate: Time): (job: EmailJob)
    ensures job.name == job.data.template
    ensures KindOfTemplate(job.name) == Some(kind)
    ensures job.data.to == to
    ensures job.data.context.eventName == eventName && job.data.context.eventDate == eventDate
    ensures job.data.subject == Subject(kind, eventName)
  {
    TemplateNameRoundTrip(kind, TemplateName(kind));
    EmailJob(TemplateName(kind),
      EmailPayload(to, Subject(kind, eventName), TemplateName(kind), EmailContext(eventName, eventDate)))
  }

  /** A job determines every argument it was built from. */
  lemma BuildJobInjective(k1: EmailKind, to1: string, n1: string, d1: Time,
                          k2: EmailKind, to2: string, n2: string, d2: Time)
    requires BuildJob(k1, to1, n1, d1) == BuildJob(k2, to2, n2, d2)
    ensures k1 == k2 && to1 == to2 && n1 == n2 && d1 == d2
  {
    assert KindOfTemplate(BuildJob(k1, to1, n1, d1).name) == Some(k2);
  }

  /** The email queue: every job added so far, oldest first. */
  class EmailService {
    var queue: seq<EmailJob>

    constructor ()
      ensures queue == []
    {
      queue := [];
    }

    method SendRegistrationConfirmation(email: string, eventName: string, eventDate: Time)
      modifies this
      ensures queue == old(queue) + [BuildJob(RegistrationConfirmation, email, eventName, eventDate)]
    {
      queue := queue + [BuildJob(RegistrationConfirmation, email, eventName, eventDate)];
    }

    method SendEventReminder(email: string, eventName: string, eventDate: Time)
      modifies this
      ensures queue == old(queue) + [BuildJob(EventReminder, email, eventName, eventDate)]
    {
      queue := queue + [BuildJob(EventReminder, email, eventName, eventDate)];
    }

    method SendRegistrationCancellation(email: string, eventName: string, eventDate: Time)
      modifies this
      ensures queue == old(queue) + [BuildJob(RegistrationCancellation, email, eventName, eventDate)]
    {
      queue := queue + [BuildJob(RegistrationCancellation, email, eventName, eventDate)];
    }
  }
}
