/**
 * What the event stream of a campaign run promises its consumer: counter
 * bookkeeping, one outcome log and one progress event per recipient in input
 * order, `complete` only as the last event, and the shape of the aborted runs.
 */
module DispatchProperties {
  import opened Strings
  import opened Validation
  import opened Dispatch

  /** Number of progress events in a stream. */
  function ProgressCount(events: seq<Event>): nat
  {
    if events == [] then 0
    else (if events[0].Progress? then 1 else 0) + ProgressCount(events[1..])
  }

  /** Number of completion events in a stream. */
  function CompleteCount(events: seq<Event>): nat
  {
    if events == [] then 0
    else (if events[0].Complete? then 1 else 0) + CompleteCount(events[1..])
  }

  /** Counting events distributes over concatenation of streams. */
  lemma {:induction false} CountsAppend(a: seq<Event>, b: seq<Event>)
    ensures ProgressCount(a + b) == ProgressCount(a) + ProgressCount(b)
    ensures CompleteCount(a + b) == CompleteCount(a) + CompleteCount(b)
  {
    if a == [] {
      assert a + b == b;
    } else {
      assert (a + b)[0] == a[0];
      assert (a + b)[1..] == a[1..] + b;
      CountsAppend(a[1..], b);
    }
  }

  /** A stream of log lines holds no progress and no completion event. */
  lemma {:induction false} LogsCountNothing(events: seq<Event>)
    requires forall k :: 0 <= k < |events| ==> events[k].Log?
    ensures ProgressCount(events) == 0 && CompleteCount(events) == 0
  {
    if events != [] {
      LogsCountNothing(events[1..]);
    }
  }

  /** The handler of a failure that ends the run emits one or two error logs. */
  lemma HandlerEventsAreErrors(failure: Failure)
    ensures 1 <= |HandlerEvents(failure)| <= 2
    ensures forall k :: 0 <= k < |HandlerEvents(failure)| ==>
      HandlerEvents(failure)[k].Log? && HandlerEvents(failure)[k].level == Error
    ensures ProgressCount(HandlerEvents(failure)) == 0 && CompleteCount(HandlerEvents(failure)) == 0
  {
    LogsCountNothing(HandlerEvents(failure));
  }

  /** Each recipient raises exactly one of the two counters, by one: `sent`
      when it was delivered, `failed` otherwise. */
  lemma OneCounterPerRecipient(campaign: Campaign, relay: Relay, k: nat)
    requires Answers(campaign, relay) && k < |campaign.recipients|
    ensures Delivered(campaign.recipients[k], relay.submissions[k]) ==>
      SentCount(campaign, relay, k + 1) == SentCount(campaign, relay, k) + 1 &&
      FailedCount(campaign, relay, k + 1) == FailedCount(campaign, relay, k)
    ensures !Delivered(campaign.recipients[k], relay.submissions[k]) ==>
      SentCount(campaign, relay, k + 1) == SentCount(campaign, relay, k) &&
      FailedCount(campaign, relay, k + 1) == FailedCount(campaign, relay, k) + 1
  {
  }

  /** Neither counter ever goes down, and between two points of the loop they
      grow together by exactly the number of recipients processed. */
  lemma {:induction false} CountersMonotone(campaign: Campaign, relay: Relay, j: nat, k: nat)
    requires Answers(campaign, relay) && j <= k <= |campaign.recipients|
    ensures SentCount(campaign, relay, j) <= SentCount(campaign, relay, k)
    ensures FailedCount(campaign, relay, j) <= FailedCount(campaign, relay, k)
    ensures (SentCount(campaign, relay, k) - SentCount(campaign, relay, j)) +
            (FailedCount(campaign, relay, k) - FailedCount(campaign, relay, j)) == k - j
    decreases k - j
  {
    if j < k {
      CountersMonotone(campaign, relay, j, k - 1);
    }
  }

  /** After `k` recipients, `sent + failed == k`: every recipient is accounted for once. */
  lemma CountersAccount(campaign: Campaign, relay: Relay, k: nat)
    requires Answers(campaign, relay) && k <= |campaign.recipients|
    ensures SentCount(campaign, relay, k) + FailedCount(campaign, relay, k) == k
  {
    CountersMonotone(campaign, relay, 0, k);
  }

  /** The percentage lies in 0..100 and is 100 exactly at the last recipient. */
  lemma PercentBounds(i: nat, total: nat)
    requires 1 <= i <= total
    ensures 0 <= Percent(i, total) <= 100
    ensures Percent(i, total) == 100 <==> i == total
  {
    assert i * 100 <= total * 100;
    if i == total {
      assert i * 100 == total * 100;
    } else {
      assert i * 100 < total * 100;
    }
  }

  /** The percentage never goes down from one recipient to a later one. */
  lemma PercentMonotone(i: nat, j: nat, total: nat)
    requires i <= j && 0 < total
    ensures Percent(i, total) <= Percent(j, total)
  {
    DivMonotone(i * 100, j * 100, total);
  }

  /** Integer division by a positive number is monotone in the dividend. */
  lemma DivMonotone(x: nat, y: nat, d: nat)
    requires x <= y && 0 < d
    ensures x / d <= y / d
  {
    var qx, qy := x / d, y / d;
    assert qx * d <= x by { assert x == qx * d + x % d; }
    assert y < (qy + 1) * d by { assert y == qy * d + y % d; }
  }

  /**
   * The progress event after the `i`-th recipient reports `sent + failed == i`
   * and `pending == total - sent - failed == total - i`, never negative, with
   * a percentage in 0..100 that reaches 100 exactly at the last recipient.
   */
  lemma ProgressReport(campaign: Campaign, relay: Relay, i: nat)
    requires Answers(campaign, relay) && 1 <= i <= |campaign.recipients|
    ensures ProgressAfter(campaign, relay, i).Progress?
    ensures ProgressAfter(campaign, relay, i).total == |campaign.recipients|
    ensures ProgressAfter(campaign, relay, i).sent + ProgressAfter(campaign, relay, i).failed == i
    ensures ProgressAfter(campaign, relay, i).pending ==
      ProgressAfter(campaign, relay, i).total - ProgressAfter(campaign, relay, i).sent -
      ProgressAfter(campaign, relay, i).failed
    ensures ProgressAfter(campaign, relay, i).pending == |campaign.recipients| - i >= 0
    ensures 0 <= ProgressAfter(campaign, relay, i).progress <= 100
    ensures ProgressAfter(campaign, relay, i).progress == 100 <==> i == |campaign.recipients|
  {
    CountersAccount(campaign, relay, i);
    PercentBounds(i, |campaign.recipients|);
  }

  /**
   * The loop's events, position by position: `2 * j` is the outcome log of
   * recipient `j` (0-based) and `2 * j + 1` its progress event; nothing else.
   */
  lemma {:induction false} LoopEventsShape(campaign: Campaign, relay: Relay, k: nat)
    requires Answers(campaign, relay) && k <= |campaign.recipients|
    ensures |LoopEvents(campaign, relay, k)| == 2 * k
    ensures forall j :: 0 <= j < k ==>
      LoopEvents(campaign, relay, k)[2 * j] ==
        OutcomeLog(campaign.recipients[j], relay.submissions[j])
    ensures forall j :: 0 <= j < k ==>
      LoopEvents(campaign, relay, k)[2 * j + 1] == ProgressAfter(campaign, relay, j + 1)
  {
    if k > 0 {
      LoopEventsShape(campaign, relay, k - 1);
    }
  }

  /** The loop emits exactly one progress event per recipient and no completion event. */
  lemma {:induction false} LoopEventsCounts(campaign: Campaign, relay: Relay, k: nat)
    requires Answers(campaign, relay) && k <= |campaign.recipients|
    ensures ProgressCount(LoopEvents(campaign, relay, k)) == k
    ensures CompleteCount(LoopEvents(campaign, relay, k)) == 0
  {
    if k > 0 {
      LoopEventsCounts(campaign, relay, k - 1);
      var outcome := OutcomeLog(campaign.recipients[k - 1], relay.submissions[k - 1]);
      var last := [outcome, ProgressAfter(campaign, relay, k)];
      assert LoopEvents(campaign, relay, k) == LoopEvents(campaign, relay, k - 1) + last;
      CountsAppend(LoopEvents(campaign, relay, k - 1), last);
      PairCounts(outcome, ProgressAfter(campaign, relay, k));
    }
  }

  /** The counts of a recipient's two events: its outcome log and its progress event. */
  lemma PairCounts(outcome: Event, progress: Event)
    requires outcome.Log? && progress.Progress?
    ensures ProgressCount([outcome, progress]) == 1
    ensures CompleteCount([outcome, progress]) == 0
  {
    assert [progress][1..] == [];
    assert ProgressCount([progress]) == 1 && CompleteCount([progress]) == 0;
    assert [outcome, progress][1..] == [progress];
  }

  /** The outcome log is a success line exactly when the recipient was delivered. */
  lemma OutcomeLogReportsDelivery(recipient: string, submission: Submission)
    ensures OutcomeLog(recipient, submission).Log?
    ensures OutcomeLog(recipient, submission).level == Success <==> Delivered(recipient, submission)
  {
  }

  /**
   * Once authenticated, the run emits the two opening logs, then for every
   * recipient in input order its outcome log followed by its progress event:
   * a per-recipient failure never stops the loop.
   */
  lemma RecipientsInOrder(campaign: Campaign, relay: Relay)
    requires Answers(campaign, relay) && relay.connect.Done? && relay.login.Done?
    ensures |Run(campaign, relay)| >= 5 + 2 * |campaign.recipients|
    ensures Run(campaign, relay)[..5] ==
      [StartLog, ConnectingLog, AuthenticatingLog, AuthenticatedLog, SendingLog(|campaign.recipients|)]
    ensures forall j :: 0 <= j < |campaign.recipients| ==>
      Run(campaign, relay)[5 + 2 * j] == OutcomeLog(campaign.recipients[j], relay.submissions[j]) &&
      Run(campaign, relay)[6 + 2 * j] == ProgressAfter(campaign, relay, j + 1)
  {
    var total := |campaign.recipients|;
    var loop := LoopEvents(campaign, relay, total);
    var head := [StartLog, ConnectingLog, AuthenticatingLog, AuthenticatedLog, SendingLog(total)];
    var tail := RunAroundLoop(campaign, relay);
    var run := Run(campaign, relay);
    LoopEventsShape(campaign, relay, total);
    forall j | 0 <= j < total
      ensures run[5 + 2 * j] == OutcomeLog(campaign.recipients[j], relay.submissions[j])
      ensures run[6 + 2 * j] == ProgressAfter(campaign, relay, j + 1)
    {
      RecipientInStream(run, head, loop, tail, j,
                        OutcomeLog(campaign.recipients[j], relay.submissions[j]),
                        ProgressAfter(campaign, relay, j + 1));
    }
    assert (head + loop + tail)[..5] == head;
  }

  /** An authenticated run is the five opening logs, the loop's events, and the
      closing events: the handler's when closing the session fails, else the
      completed log and `complete` with the final counters. */
  lemma RunAroundLoop(campaign: Campaign, relay: Relay) returns (tail: seq<Event>)
    requires Answers(campaign, relay) && relay.connect.Done? && relay.login.Done?
    ensures Run(campaign, relay) ==
      [StartLog, ConnectingLog, AuthenticatingLog, AuthenticatedLog, SendingLog(|campaign.recipients|)] +
      LoopEvents(campaign, relay, |campaign.recipients|) + tail
    ensures relay.quit.Raised? ==> tail == HandlerEvents(relay.quit.failure)
    ensures var sent := SentCount(campaign, relay, |campaign.recipients|);
      var failed := FailedCount(campaign, relay, |campaign.recipients|);
      relay.quit.Done? ==> tail == [CompletedLog(sent, failed), Complete(sent, failed)]
  {
    var total := |campaign.recipients|;
    var loop := LoopEvents(campaign, relay, total);
    tail := AuthenticatedEvents(campaign, relay)[2 + |loop|..];
    assert Run(campaign, relay) == [StartLog, ConnectingLog, AuthenticatingLog] +
      AuthenticatedEvents(campaign, relay);
    assert AuthenticatedEvents(campaign, relay) ==
      [AuthenticatedLog, SendingLog(total)] + loop + tail;
  }

  /** The `j`-th pair of the loop's events, seen in the whole stream. */
  lemma RecipientInStream(run: seq<Event>, head: seq<Event>, loop: seq<Event>, tail: seq<Event>,
                          j: nat, outcome: Event, progress: Event)
    requires run == head + loop + tail && |head| == 5 && 2 * j + 1 < |loop|
    requires loop[2 * j] == outcome && loop[2 * j + 1] == progress
    ensures run[5 + 2 * j] == outcome && run[6 + 2 * j] == progress
  {
  }

  /**
   * A run that authenticates and closes its session cleanly ends with the
   * "Campaign completed!" log and then `complete`, carrying the final
   * counters, which account for every recipient.
   */
  lemma CompletedRun(campaign: Campaign, relay: Relay)
    requires Answers(campaign, relay)
    requires relay.connect.Done? && relay.login.Done? && relay.quit.Done?
    ensures |Run(campaign, relay)| == 7 + 2 * |campaign.recipients|
    ensures var total := |campaign.recipients|;
      var n := |Run(campaign, relay)|;
      var sent := SentCount(campaign, relay, total);
      var failed := FailedCount(campaign, relay, total);
      Run(campaign, relay)[n - 2] == CompletedLog(sent, failed) &&
      Run(campaign, relay)[n - 1] == Complete(sent, failed) &&
      sent + failed == total
  {
    var total := |campaign.recipients|;
    LoopEventsShape(campaign, relay, total);
    CountersAccount(campaign, relay, total);
  }

  /** Progress events appear exactly when the run authenticates, one per recipient. */
  lemma RunProgressCount(campaign: Campaign, relay: Relay)
    requires Answers(campaign, relay)
    ensures ProgressCount(Run(campaign, relay)) ==
      if relay.connect.Done? && relay.login.Done? then |campaign.recipients| else 0
    ensures relay.connect.Done? && relay.login.Done? ==>
      ProgressCount(AuthenticatedEvents(campaign, relay)) == |campaign.recipients|
  {
    var opening := [StartLog, ConnectingLog];
    LogsCountNothing(opening);
    match relay.connect
    case Raised(f) =>
      HandlerEventsAreErrors(f);
      CountsAppend(opening, HandlerEvents(f));
    case Done =>
      var rest := Run(campaign, relay)[2..];
      assert Run(campaign, relay) == opening + rest;
      CountsAppend(opening, rest);
      LogsCountNothing([AuthenticatingLog]);
      match relay.login
      case Raised(f) =>
        HandlerEventsAreErrors(f);
        LogsCountNothing([AuthFailedLog(f.text)]);
        CountsAppend([AuthFailedLog(f.text)], HandlerEvents(f));
        CountsAppend([AuthenticatingLog], [AuthFailedLog(f.text)] + HandlerEvents(f));
      case Done =>
        AuthenticatedCounts(campaign, relay);
        CountsAppend([AuthenticatingLog], AuthenticatedEvents(campaign, relay));
  }

  /** Completion appears exactly once when connect, login and close all succeed,
      and not at all otherwise. */
  lemma RunCompleteCount(campaign: Campaign, relay: Relay)
    requires Answers(campaign, relay)
    ensures CompleteCount(Run(campaign, relay)) ==
      if relay.connect.Done? && relay.login.Done? && relay.quit.Done? then 1 else 0
  {
    var opening := [StartLog, ConnectingLog];
    LogsCountNothing(opening);
    match relay.connect
    case Raised(f) =>
      HandlerEventsAreErrors(f);
      CountsAppend(opening, HandlerEvents(f));
    case Done =>
      var rest := Run(campaign, relay)[2..];
      assert Run(campaign, relay) == opening + rest;
      CountsAppend(opening, rest);
      LogsCountNothing([AuthenticatingLog]);
      match relay.login
      case Raised(f) =>
        HandlerEventsAreErrors(f);
        LogsCountNothing([AuthFailedLog(f.text)]);
        CountsAppend([AuthFailedLog(f.text)], HandlerEvents(f));
        CountsAppend([AuthenticatingLog], [AuthFailedLog(f.text)] + HandlerEvents(f));
      case Done =>
        AuthenticatedCounts(campaign, relay);
        CountsAppend([AuthenticatingLog], AuthenticatedEvents(campaign, relay));
  }

  /** The counts of the authenticated part of a run. */
  lemma AuthenticatedCounts(campaign: Campaign, relay: Relay)
    requires Answers(campaign, relay)
    ensures ProgressCount(AuthenticatedEvents(campaign, relay)) == |campaign.recipients|
    ensures CompleteCount(AuthenticatedEvents(campaign, relay)) == if relay.quit.Done? then 1 else 0
  {
    var total := |campaign.recipients|;
    var opening := [AuthenticatedLog, SendingLog(total)];
    var loop := LoopEvents(campaign, relay, total);
    LogsCountNothing(opening);
    LoopEventsCounts(campaign, relay, total);
    CountsAppend(opening, loop);
    var closing := AuthenticatedEvents(campaign, relay)[2 + |loop|..];
    assert AuthenticatedEvents(campaign, relay) == opening + loop + closing;
    CountsAppend(opening + loop, closing);
    match relay.quit
    case Raised(f) =>
      assert closing == HandlerEvents(f);
      HandlerEventsAreErrors(f);
    case Done =>
      var sent := SentCount(campaign, relay, total);
      var failed := FailedCount(campaign, relay, total);
      assert closing == [CompletedLog(sent, failed), Complete(sent, failed)];
      var done := [Complete(sent, failed)];
      assert done[1..] == [];
      assert ProgressCount(done) == 0 && CompleteCount(done) == 1;
      assert closing[1..] == done;
  }

  /** A completion event, wherever it occurs, is the last event of the stream. */
  lemma CompleteIsLast(campaign: Campaign, relay: Relay)
    requires Answers(campaign, relay)
    ensures forall p :: 0 <= p < |Run(campaign, relay)| && Run(campaign, relay)[p].Complete? ==>
      p == |Run(campaign, relay)| - 1
  {
    var total := |campaign.recipients|;
    forall p | 0 <= p < |Run(campaign, relay)| && Run(campaign, relay)[p].Complete?
      ensures p == |Run(campaign, relay)| - 1
    {
      if relay.connect.Done? && relay.login.Done? && relay.quit.Done? {
        CompletedRun(campaign, relay);
        RecipientsInOrder(campaign, relay);
        OnlyLastCompletes(campaign, relay, p);
      } else {
        RunCompleteCount(campaign, relay);
        CompleteCountPositive(Run(campaign, relay), p);
      }
    }
  }

  /** Any completion event makes the completion count positive. */
  lemma {:induction false} CompleteCountPositive(events: seq<Event>, p: nat)
    requires p < |events| && events[p].Complete?
    ensures CompleteCount(events) > 0
  {
    if p > 0 {
      CompleteCountPositive(events[1..], p - 1);
    }
  }

  /** In a completed run no event before the last one is a completion. */
  lemma OnlyLastCompletes(campaign: Campaign, relay: Relay, p: nat)
    requires Answers(campaign, relay)
    requires relay.connect.Done? && relay.login.Done? && relay.quit.Done?
    requires p < |Run(campaign, relay)| && Run(campaign, relay)[p].Complete?
    ensures p == |Run(campaign, relay)| - 1
  {
    var total := |campaign.recipients|;
    var sent := SentCount(campaign, relay, total);
    var failed := FailedCount(campaign, relay, total);
    var head := [StartLog, ConnectingLog, AuthenticatingLog, AuthenticatedLog, SendingLog(total)];
    var loop := LoopEvents(campaign, relay, total);
    var closing := [CompletedLog(sent, failed), Complete(sent, failed)];
    assert Run(campaign, relay) == head + loop + closing;
    LoopHasNoComplete(campaign, relay, total);
    if |head| + |loop| <= p {
      assert Run(campaign, relay)[p] == closing[p - |head| - |loop|];
    }
  }

  /** No event of the loop is a completion. */
  lemma {:induction false} LoopHasNoComplete(campaign: Campaign, relay: Relay, k: nat)
    requires Answers(campaign, relay) && k <= |campaign.recipients|
    ensures forall q :: 0 <= q < |LoopEvents(campaign, relay, k)| ==>
      !LoopEvents(campaign, relay, k)[q].Complete?
  {
    if k > 0 {
      LoopHasNoComplete(campaign, relay, k - 1);
    }
  }

  /**
   * A run that fails to connect or to log in begins with the two opening logs,
   * consists only of log lines (at most six), and carries no progress and no
   * completion event.
   */
  lemma AbortedRun(campaign: Campaign, relay: Relay)
    requires Answers(campaign, relay)
    requires relay.connect.Raised? || relay.login.Raised?
    ensures 3 <= |Run(campaign, relay)| <= 6
    ensures Run(campaign, relay)[..2] == [StartLog, ConnectingLog]
    ensures forall p :: 0 <= p < |Run(campaign, relay)| ==> Run(campaign, relay)[p].Log?
    ensures ProgressCount(Run(campaign, relay)) == 0 && CompleteCount(Run(campaign, relay)) == 0
  {
    RunProgressCount(campaign, relay);
    RunCompleteCount(campaign, relay);
    match relay.connect
    case Raised(f) => HandlerEventsAreErrors(f);
    case Done => HandlerEventsAreErrors(relay.login.failure);
  }

  /** A run whose connect raises: the two opening logs, then the handler's events. */
  lemma ConnectFailedRun(campaign: Campaign, relay: Relay, failure: Failure)
    requires Answers(campaign, relay) && relay.connect == Raised(failure)
    ensures Run(campaign, relay) == [StartLog, ConnectingLog] + HandlerEvents(failure)
  {
  }

  /** A run whose login raises: the three opening logs, the inner handler's
      failure line, then the outer handler's events. */
  lemma LoginFailedRun(campaign: Campaign, relay: Relay, failure: Failure)
    requires Answers(campaign, relay) && relay.connect.Done? && relay.login == Raised(failure)
    ensures Run(campaign, relay) ==
      [StartLog, ConnectingLog, AuthenticatingLog, AuthFailedLog(failure.text)] + HandlerEvents(failure)
  {
  }

  /**
   * A login refused by the relay: the "Authentication failed: ..." log, then
   * either the two App Password hints (when the refusal carries the
   * credentials-rejected text) or the same failure line a second time.
   */
  lemma AuthenticationRefused(campaign: Campaign, relay: Relay, text: string)
    requires Answers(campaign, relay)
    requires relay.connect.Done? && relay.login == Raised(AuthenticationError(text))
    ensures Run(campaign, relay) ==
      [StartLog, ConnectingLog, AuthenticatingLog, AuthFailedLog(text)] +
      (if Contains(text, CredentialsRejected) then [AppPasswordHint, AppPasswordLink]
       else [AuthFailedLog(text)])
    ensures ProgressCount(Run(campaign, relay)) == 0 && CompleteCount(Run(campaign, relay)) == 0
  {
    AbortedRun(campaign, relay);
  }

  /**
   * A two-recipient campaign whose first address is malformed: the first
   * recipient fails, the second is sent, the progress events report 50% and
   * 100%, and the final counters are one sent and one failed (which `CompletedRun`
   * puts into the last two events).
   */
  lemma OneInvalidOneSent(campaign: Campaign, relay: Relay)
    requires campaign.recipients == ["bad", "a@b.com"]
    requires relay == Relay(Done, Done, [Accepted, Accepted], Done)
    ensures Answers(campaign, relay)
    ensures ProgressAfter(campaign, relay, 1) == Progress(50, 2, 0, 1, 1)
    ensures ProgressAfter(campaign, relay, 2) == Progress(100, 2, 1, 1, 0)
    ensures SentCount(campaign, relay, 2) == 1 && FailedCount(campaign, relay, 2) == 1
  {
    ValidateEmailAccepts();
    assert !ValidateEmail("bad");
    assert SentCount(campaign, relay, 1) == 0 && FailedCount(campaign, relay, 1) == 1;
  }
}
