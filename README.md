# Job application email sender — verified model of the sending core

The repository is a small Flask service. It sends one job application
(subject, body and a PDF résumé) to a list of recipients through Gmail's
SMTP relay, and streams its progress back to the browser as newline-delimited
JSON events. `app.py` and `backend/app.py` are identical copies, so one model
covers both. The table below cites `app.py`, and the same lines hold in
`backend/app.py`.

The model covers four things:

* **`validate_email` and `allowed_file`** (`validation.dfy`): the two input
  predicates, written with the Python string operations they use
  (`split`, `rsplit(sep, 1)`, `lower`, in `strings.dfy`). Each is tied to an
  independent character-level description of what it accepts.
* **`create_message_with_attachment`** (`message.dfy`): a `MimeMessage`
  object holding its top-level header list and its part list. It starts with
  the Content-Type and MIME-Version headers of a new `MIMEMultipart` and is
  then filled step by step, as the source fills its message. The From header
  is tied to a parser that reads the display name and the address back.
* **`send_emails_generator`** (`dispatch.dfy`): the generator becomes a
  method that appends events to a sequence. It keeps the `sent` and `failed`
  counters and runs a `while` loop over the recipients. It is proved equal to
  the specification function `Run`. The SMTP relay is an oracle (`Relay`)
  that fixes in advance how these calls turn out:
  * connecting (with STARTTLS);
  * logging in;
  * each message submission;
  * closing the session (`server.quit()`).

  Failures are classified as the three outer `except` clauses classify them.
* **What the event stream promises** (`dispatch_properties.dfy`):
  * every recipient raises exactly one counter;
  * `sent + failed == i` and `pending == total - i` at every progress event;
  * one outcome log and one progress event per recipient, in input order;
  * the percentage is 100 exactly at the last recipient;
  * `complete` only as the last event, with counters that account for every
    recipient;
  * the exact stream of the runs that abort at connect or login.

What the code does not do, though a reader might expect it:
* `validate_email` has no length limit and no pattern check.
* The display name is used as given: no trimming, no escaping.
* Subject and body are not truncated.
* An `SMTPAuthenticationError` whose text lacks "Username and Password not
  accepted" produces "Authentication failed: …" twice, once from the inner
  handler (app.py:119-125) and once from the outer one (app.py:213-218). A
  login that raises another `SMTPException` gives "Authentication failed: …"
  followed by "SMTP error: …".
* `smtplib.SMTP(smtp_server, smtp_port)` (app.py:102) is opened with no
  timeout, so a connect that hangs blocks the run forever. The relay oracle
  always answers, so the model does not show this.

## Model

| member | source | states |
|---|---|---|
| Strings.FirstIndex | app.py:38 | the first occurrence of a character: none before it, the character at it, and it is within the string exactly when the character occurs |
| Strings.Split | app.py:38 | `str.split` on one character: at least one part, two or more exactly when the separator occurs, no part contains the separator |
| Strings.SplitJoin | app.py:38 | joining the parts of a split with the separator gives the original string back |
| Strings.SplitAtFirst | app.py:38 | the first part is the text before the first separator, and later parts are the split of the text after it |
| Strings.RSplitOnce | app.py:33 | `rsplit(sep, 1)`: head + separator + tail is the original string, and the tail holds no separator, so the split is at the last one |
| Strings.Lower | app.py:33 | `lower()`: same length, each character lowered |
| Strings.ContainsIff | app.py:202 | the substring test holds exactly when the substring occurs at some offset |
| Strings.NatToString | app.py:129 | the f-string rendering of a counter is a non-empty run of decimal digits with no leading zero that reads back as the same number, which fixes the string |
| Validation.ValidateEmailIff | app.py:36-38 | `validate_email` holds exactly when there is an '@' and some dot follows the first '@' before any second '@' |
| Validation.SecondPart | app.py:38 | `email.split('@')[1]` is the text between the first '@' and the next '@' or the end |
| Validation.ValidEmailHasDot | app.py:36-38 | an accepted address has a dot after its first '@' and before any second one |
| Validation.DotInSegment | app.py:38 | a dot inside the segment after the first '@' is a dot of the address at the matching position |
| Validation.DotAfterFirstAt | app.py:36-38 | a dot after the first '@', with no '@' in between, makes the address accepted |
| Validation.ValidateEmailAccepts | app.py:36-38 | "a@b.com" is accepted |
| Validation.ValidateEmailRejectsNoAt | app.py:38 | "" and a string without '@' are rejected |
| Validation.ValidateEmailRejectsNoDot | app.py:38 | "a@b" is rejected, and so is "a.b@c", whose only dot is before the '@' |
| Validation.ValidateEmailRejectsSecondAt | app.py:38 | "a@b@c.com" is rejected because only the text up to the second '@' is inspected |
| Validation.AllowedFileIff | app.py:31-33 | `allowed_file` holds exactly when the name ends in '.' followed by p, d, f, each in either case |
| Validation.LowerIsPdf | app.py:33 | an extension lowers to "pdf" exactly when it is three characters from pP, dD, fF |
| Validation.LowerCharTo | app.py:33 | only a lower-case letter and its upper-case form lower to that letter |
| Validation.ExtensionSuffix | app.py:33 | for the text after the last dot, the name ends in ".pdf" (any case) exactly when that text is "pdf" (any case) |
| Validation.AllowedFileExamples | app.py:27-33 | "cv.pdf", "cv.PDF" and ".pdf" are accepted; "cv.pdf.exe" and "pdf" are rejected |
| Message.FromHeaderRoundTrip | app.py:47-50 | the display name and the address can both be read back from the From header, when the name holds no double quote |
| Message.FromHeaderQuoteCollision | app.py:47-48 | two different senders give the same From header when the display name holds a double quote, because quotes are not escaped |
| Message.MimeMessage.constructor | app.py:44 | a new multipart message has the headers Content-Type: multipart/mixed and MIME-Version: 1.0, and no parts |
| Message.MimeMessage.SetHeader | app.py:48-53 | assigning a header appends it after the existing ones and leaves the parts alone |
| Message.MimeMessage.Attach | app.py:56-68 | attaching appends the part after the existing ones and leaves the headers alone |
| Message.CreateMessageWithAttachment | app.py:41-72 | a fresh message whose headers are Content-Type: multipart/mixed, MIME-Version: 1.0, then From, To and Subject in that order (quoted name or bare address; recipient and subject unchanged), and whose parts are the UTF-8 plain-text body then the base64 octet-stream attachment with its file name |
| Dispatch.SendEmailsGenerator | app.py:75-230 | the events the generator yields are exactly `Run` of the campaign and the relay's answers |
| Dispatch.SendToRecipients | app.py:134-182 | the loop yields exactly the per-recipient events of `LoopEvents`, and ends with `sent` and `failed` equal to the counts over all recipients |
| DispatchProperties.CountsAppend | app.py:88-198 | counting progress and completion events distributes over concatenation |
| DispatchProperties.LogsCountNothing | app.py:88-131 | a stream of log lines has no progress and no completion event |
| DispatchProperties.HandlerEventsAreErrors | app.py:200-230 | a failure that ends the run yields one or two error logs and nothing else |
| DispatchProperties.OneCounterPerRecipient | app.py:134-166 | each recipient raises `sent` by one when delivered and `failed` by one otherwise, and leaves the other counter unchanged |
| DispatchProperties.CountersMonotone | app.py:134-166 | neither counter decreases, and between two points of the loop they grow together by the number of recipients processed |
| DispatchProperties.CountersAccount | app.py:134-169 | after `k` recipients, `sent + failed == k` |
| DispatchProperties.PercentBounds | app.py:170 | the progress percentage lies in 0..100 and is 100 exactly at the last recipient |
| DispatchProperties.PercentMonotone | app.py:170 | the percentage never goes down from one recipient to a later one |
| DispatchProperties.DivMonotone | app.py:170 | integer division by a positive number is monotone in the dividend |
| DispatchProperties.ProgressReport | app.py:168-179 | the progress event after recipient `i` reports the total, `sent + failed == i`, `pending == total - i >= 0`, and a percentage in 0..100 that is 100 exactly when `i == total` |
| DispatchProperties.LoopEventsShape | app.py:134-179 | the loop's events alternate: position `2j` is recipient `j`'s outcome log, `2j + 1` its progress event |
| DispatchProperties.LoopEventsCounts | app.py:134-179 | the loop emits exactly one progress event per recipient and no completion |
| DispatchProperties.PairCounts | app.py:138-179 | an outcome log followed by a progress event counts one progress and no completion |
| DispatchProperties.OutcomeLogReportsDelivery | app.py:136-166 | each recipient's outcome is a log line whose level is success exactly when the address is valid and the relay accepted the message |
| DispatchProperties.RecipientsInOrder | app.py:105-179 | an authenticated run starts with its five opening logs; then, for every recipient in input order, comes its outcome log and then its progress event, so a per-recipient failure never stops the loop |
| DispatchProperties.RunAroundLoop | app.py:105-230 | an authenticated run is the five opening logs, the loop's events, then the closing events: the handler's error logs when closing the session fails, else the completed log and `complete` with the final counters |
| DispatchProperties.RecipientInStream | app.py:134-179 | the `j`-th outcome and progress pair of the loop sits at positions `5 + 2j` and `6 + 2j` of the stream |
| DispatchProperties.CompletedRun | app.py:184-198 | a run that authenticates and closes its session has `7 + 2·total` events; it ends with "Campaign completed! Sent: s, Failed: f" and `complete(s, f)`, where `s + f == total` |
| DispatchProperties.RunProgressCount | app.py:100-230 | the stream holds `total` progress events when connect and login succeed, and none otherwise |
| DispatchProperties.RunCompleteCount | app.py:100-230 | the stream holds one completion event when connect, login and close succeed, and none otherwise |
| DispatchProperties.AuthenticatedCounts | app.py:114-198 | the part after a successful login holds `total` progress events, and one completion when the session closes cleanly |
| DispatchProperties.CompleteIsLast | app.py:188-198 | a completion event, wherever it occurs, is the last event of the stream |
| DispatchProperties.CompleteCountPositive | app.py:194-198 | a stream holding a completion event has a positive completion count |
| DispatchProperties.OnlyLastCompletes | app.py:184-198 | in a completed run no event before the last one is a completion |
| DispatchProperties.LoopHasNoComplete | app.py:134-182 | no event of the loop is a completion |
| DispatchProperties.AbortedRun | app.py:88-125 | a run that fails to connect or log in starts with the two opening logs and holds only log lines (3 to 6), with no progress and no completion |
| DispatchProperties.ConnectFailedRun | app.py:88-230 | a run whose connect raises is exactly the two opening logs followed by that failure's handler events |
| DispatchProperties.LoginFailedRun | app.py:105-230 | a run whose login raises is exactly the three opening logs, "Authentication failed: text", then that failure's handler events |
| DispatchProperties.AuthenticationRefused | app.py:119-125 | a refused login yields the exact stream: the opening logs, "Authentication failed: text", then the two App Password hints when the text carries "Username and Password not accepted", else the same failure line again |
| DispatchProperties.OneInvalidOneSent | app.py:134-179 | with recipients "bad" and "a@b.com", both accepted by the relay, the progress events are 50% (0 sent, 1 failed, 1 pending) and 100% (1, 1, 0) |

## Left out

- SMTP I/O: `smtplib.SMTP`, `starttls`, `login`, `sendmail` and `quit` (app.py:102-113, 151, 185) are network calls. The `Relay` oracle decides their outcomes, and the exception text is a parameter.
- MIME construction beyond headers and parts: base64 encoding (app.py:62) and `msg.as_string()` (app.py:151) are library code. An exception while building or submitting one recipient's message is a `Rejected` submission with its text.
- Message.MimeMessage.constructor: the `boundary` parameter that serialisation adds to the Content-Type header is not modelled.
- Message.CreateMessageWithAttachment: each part's own headers are fields of `Part`, not header lists. These are the text part's Content-Type, MIME-Version and Content-Transfer-Encoding, and the attachment's Content-Type, MIME-Version, the Content-Transfer-Encoding that `encode_base64` adds, and Content-Disposition.
- Event serialisation: `json.dumps` and the NDJSON framing (app.py:88-230) are library code. Events are an `Event` datatype.
- Pacing: the 0.5 s `time.sleep` after every recipient, the last one included (app.py:182), is wall-clock time and is omitted.
- Dispatch.Percent: `int((i / total) * 100)` (app.py:170) is floating point. The model uses exact integer division `(i * 100) / total`. The float result can be one lower, e.g. `i = 29, total = 100` gives 28, not 29. PercentBounds and ProgressReport hold for the exact value.
- Session closing on failure paths: the source closes the session only on the success path (app.py:185), so no close-on-every-path property is stated.
- Strings.Lower: covers ASCII letters only. Python's Unicode case mapping of other characters is not modelled.
- Non-string recipients are not modelled (`recipients` is a `seq<string>`). The recipient list is decoded from JSON without checking element types (app.py:244), and in every case below the recipient counts as failed:
  - a number, None or a bool makes `'@' in recipient` raise a TypeError, which gives "Failed to send to …" (app.py:160-166);
  - a list or dict with no `'@'` among its elements or keys is rejected as "Invalid email: …" (app.py:136-142);
  - a list or dict with an `'@'` among its elements or keys raises an AttributeError on `.split` (app.py:38), which gives "Failed to send to …" (app.py:160-166).
- Cancellation: a client disconnect closing the generator mid-stream (`GeneratorExit`) is not modelled.
- The Flask routes `send_emails`, `test_email` and `health_check`, `secure_filename`, the upload size limit and the startup block (app.py:28, 233-330) are request parsing and HTTP, outside the sending core.
