/**
 * `send_emails_generator`: one campaign run. It opens a session with the mail
 * relay, authenticates, sends one message per recipient in input order and
 * streams log, progress and completion events as it goes.
 *
 * The relay is an oracle: `Relay` fixes in advance how connecting, logging in,
 * each submission and closing the session turn out. A Python `yield` is an
 * event appended to the stream; the stream the generator produces is
 * `Run(campaign, relay)`.
 */
module Dispatch {
  import opened Strings
  import opened Validation
  import opened Message

  const SmtpServer: string := "smtp.gmail.com"
  const SmtpPort: nat := 587

  /** Text a relay includes when it refuses the account password. */
  const CredentialsRejected: string := "Username and Password not accepted"

  datatype Level = Info | Success | Error

  /** One record of the event stream (one NDJSON line in the source). */
  datatype Event =
    | Log(message: string, level: Level)
    | Progress(progress: int, total: int, sent: int, failed: int, pending: int)
    | Complete(sent: int, failed: int)

  /** Everything the run is given by the web layer. */
  datatype Campaign = Campaign(
    senderEmail: string, senderName: string, password: string,
    subject: string, body: string, recipients: seq<string>,
    cvData: seq<byte>, cvFilename: string)

  /** An exception escaping a relay call, classified as the three outer
      `except` clauses classify it. `text` is the exception's `str()`. */
  datatype Failure =
    | AuthenticationError(text: string)  // smtplib.SMTPAuthenticationError
    | SmtpError(text: string)            // any other smtplib.SMTPException
    | OtherError(text: string)           // any other Exception (socket errors, ...)

  /** How one relay call turns out. */
  datatype Step = Done | Raised(failure: Failure)

  /** How building and submitting one recipient's message turns out: accepted
      by the relay, or an exception with its text (a build error included). */
  datatype Submission = Accepted | Rejected(reason: string)

  /** The relay oracle. `connect` covers opening the session and STARTTLS,
      `quit` the closing of the session after the last recipient. */
  datatype Relay = Relay(connect: Step, login: Step, submissions: seq<Submission>, quit: Step)

  /** The oracle answers once per recipient position. */
  predicate Answers(campaign: Campaign, relay: Relay)
  {
    |relay.submissions| == |campaign.recipients|
  }

  // The log lines the run emits.

  const StartLog: Event := Log("Starting email campaign...", Info)
  const ConnectingLog: Event := Log("Connecting to SMTP server (" + SmtpServer + ")...", Info)
  const AuthenticatingLog: Event := Log("Authenticating...", Info)
  const AuthenticatedLog: Event := Log("Successfully authenticated", Success)
  const AppPasswordHint: Event :=
    Log("Authentication failed! For Gmail, you need to use an App Password, not your regular password.", Error)
  const AppPasswordLink: Event :=
    Log("Please go to https://myaccount.google.com/apppasswords to generate one.", Error)

  function AuthFailedLog(text: string): Event
  {
    Log("Authentication failed: " + text, Error)
  }

  function SendingLog(total: nat): Event
  {
    Log("Starting to send emails to " + NatToString(total) + " recipients", Info)
  }

  function CompletedLog(sent: nat, failed: nat): Event
  {
    Log("Campaign completed! Sent: " + NatToString(sent) + ", Failed: " + NatToString(failed), Success)
  }

  /** The events of the outer `except` clauses for a failure that ends the run. */
  function HandlerEvents(failure: Failure): seq<Event>
  {
    match failure
    case AuthenticationError(text) =>
      if Contains(text, CredentialsRejected) then [AppPasswordHint, AppPasswordLink]
      else [AuthFailedLog(text)]
    case SmtpError(text) => [Log("SMTP error: " + text, Error)]
    case OtherError(text) => [Log("Unexpected error: " + text, Error)]
  }

  /** The one outcome log of a recipient. */
  function OutcomeLog(recipient: string, submission: Submission): Event
  {
    if !ValidateEmail(recipient) then Log("Invalid email: " + recipient, Error)
    else match submission
      case Accepted => Log("Email sent to: " + recipient, Success)
      case Rejected(reason) => Log("Failed to send to " + recipient + ": " + reason, Error)
  }

  /** A recipient counts as sent exactly when its address passes the check and
      the relay accepts its message. */
  predicate Delivered(recipient: string, submission: Submission)
  {
    ValidateEmail(recipient) && submission.Accepted?
  }

  /** `sent` after the first `k` recipients. */
  function SentCount(campaign: Campaign, relay: Relay, k: nat): nat
    requires Answers(campaign, relay) && k <= |campaign.recipients|
  {
    if k == 0 then 0
    else
      var step := if Delivered(campaign.recipients[k - 1], relay.submissions[k - 1]) then 1 else 0;
      SentCount(campaign, relay, k - 1) + step
  }

  /** `failed` after the first `k` recipients. */
  function FailedCount(campaign: Campaign, relay: Relay, k: nat): nat
    requires Answers(campaign, relay) && k <= |campaign.recipients|
  {
    if k == 0 then 0
    else
      var step := if Delivered(campaign.recipients[k - 1], relay.submissions[k - 1]) then 0 else 1;
      FailedCount(campaign, relay, k - 1) + step
  }

  /** `int((i / total) * 100)`, taken here as exact integer division. */
  function Percent(i: nat, total: nat): int
    requires 0 < total
  {
    (i * 100) / total
  }

  /** The progress event after the `i`-th recipient (1-based). */
  function ProgressAfter(campaign: Campaign, relay: Relay, i: nat): Event
    requires Answers(campaign, relay) && 1 <= i <= |campaign.recipients|
  {
    var total := |campaign.recipients|;
    var sent := SentCount(campaign, relay, i);
    var failed := FailedCount(campaign, relay, i);
    Progress(Percent(i, total), total, sent, failed, total - sent - failed)
  }

  /** The events of the first `k` recipients: per recipient its outcome log,
      then its progress event. */
  function LoopEvents(campaign: Campaign, relay: Relay, k: nat): seq<Event>
    requires Answers(campaign, relay) && k <= |campaign.recipients|
  {
    if k == 0 then []
    else
      var outcome := OutcomeLog(campaign.recipients[k - 1], relay.submissions[k - 1]);
      LoopEvents(campaign, relay, k - 1) + [outcome, ProgressAfter(campaign, relay, k)]
  }

  /** The events after a successful login: the two opening logs of the loop
      phase, then per-recipient events, then the closing events or the
      handler's events when closing the session fails. */
  function AuthenticatedEvents(campaign: Campaign, relay: Relay): seq<Event>
    requires Answers(campaign, relay)
  {
    var total := |campaign.recipients|;
    [AuthenticatedLog, SendingLog(total)] + LoopEvents(campaign, relay, total) +
    match relay.quit
    case Raised(failure) => HandlerEvents(failure)
    case Done =>
      var sent := SentCount(campaign, relay, total);
      var failed := FailedCount(campaign, relay, total);
      [CompletedLog(sent, failed), Complete(sent, failed)]
  }

  /** The whole event stream of one run. */
  function Run(campaign: Campaign, relay: Relay): seq<Event>
    requires Answers(campaign, relay)
  {
    [StartLog, ConnectingLog] +
    match relay.connect
    case Raised(failure) => HandlerEvents(failure)
    case Done =>
      [AuthenticatingLog] +
      match relay.login
      case Raised(failure) => [AuthFailedLog(failure.text)] + HandlerEvents(failure)
      case Done => AuthenticatedEvents(campaign, relay)
  }

  /**
   * The generator itself, step by step: counters `sent` and `failed`, a
   * sequential loop over the recipients, and the events appended in the order
   * they are yielded. The stream it builds is exactly `Run`.
   */
  method SendEmailsGenerator(campaign: Campaign, relay: Relay) returns (events: seq<Event>)
    requires Answers(campaign, relay)
    ensures events == Run(campaign, relay)
  {
    var total := |campaign.recipients|;
    events := [StartLog, ConnectingLog];
    if relay.connect.Raised? {
      events := events + HandlerEvents(relay.connect.failure);
      return;
    }
    events := events + [AuthenticatingLog];
    if relay.login.Raised? {
      var failure := relay.login.failure;
      events := events + [AuthFailedLog(failure.text)] + HandlerEvents(failure);
      return;
    }
    events := events + [AuthenticatedLog, SendingLog(total)];
    var loopEvents, sent, failed := SendToRecipients(campaign, relay);
    events := events + loopEvents;
    if relay.quit.Raised? {
      events := events + HandlerEvents(relay.quit.failure);
    } else {
      events := events + [CompletedLog(sent, failed), Complete(sent, failed)];
    }
  }

  /**
   * The `for` loop of the generator: every recipient in input order, its
   * outcome log, then its progress event; the counters at the end are the
   * final `sent` and `failed`.
   */
  method SendToRecipients(campaign: Campaign, relay: Relay)
    returns (events: seq<Event>, sent: nat, failed: nat)
    requires Answers(campaign, relay)
    ensures events == LoopEvents(campaign, relay, |campaign.recipients|)
    ensures sent == SentCount(campaign, relay, |campaign.recipients|)
    ensures failed == FailedCount(campaign, relay, |campaign.recipients|)
  {
    var recipients := campaign.recipients;
    var total := |recipients|;
    sent, failed, events := 0, 0, [];
    var i := 0;
    while i < total
      invariant 0 <= i <= total
      invariant sent == SentCount(campaign, relay, i)
      invariant failed == FailedCount(campaign, relay, i)
      invariant events == LoopEvents(campaign, relay, i)
    {
      var recipient := recipients[i];
      if !ValidateEmail(recipient) {
        failed := failed + 1;
        events := events + [Log("Invalid email: " + recipient, Error)];
      } else {
        var msg := CreateMessageWithAttachment(campaign.senderEmail, campaign.senderName,
                                               recipient, campaign.subject, campaign.body,
                                               campaign.cvData, campaign.cvFilename);
        // `server.sendmail(...)`: the relay's verdict on this message.
        match relay.submissions[i]
        case Accepted =>
          sent := sent + 1;
          events := events + [Log("Email sent to: " + recipient, Success)];
        case Rejected(reason) =>
          failed := failed + 1;
          events := events + [Log("Failed to send to " + recipient + ": " + reason, Error)];
      }
      i := i + 1;
      var pending := total - sent - failed;
      var progress := (i * 100) / total;
      events := events + [Progress(progress, total, sent, failed, pending)];
    }
  }
}
