/**
 What the answers of the lockless Send and Receive mean to their callers, in every interleaving:
 what was handed over between the start of a call and its answer.
 */
module LocklessAnswers {
  import opened LocklessQueue
  import opened LocklessSchedules
  import opened QueueStatuses
  import opened MachineWords
  import opened Sequences

  /** A run with its events: each event leads from the state of its number to the next. */
  ghost predicate IsTrace(c: Config, run: seq<State>, events: seq<Event>) {
    && |run| == |events| + 1 && Init(c, run[0])
    && forall k: nat | k < |events| :: Leads(c, run[k], events[k], run[k + 1])
  }

  ghost predicate Leads(c: Config, s: State, e: Event, t: State) {
    TypeOk(c, s) && Enabled(c, s, e) && t == Apply(c, s, e)
  }

  ghost predicate HasTrace(c: Config, run: seq<State>) {
    exists events: seq<Event> :: IsTrace(c, run, events)
  }

  lemma TraceIsRun(c: Config, run: seq<State>, events: seq<Event>)
    requires IsTrace(c, run, events)
    ensures IsRun(c, run)
  {
    forall k: nat | k + 1 < |run|
      ensures Next(c, run[k], run[k + 1])
    {
      assert Leads(c, run[k], events[k], run[k + 1]);
    }
  }

  lemma LongerTrace(c: Config, run: seq<State>, events: seq<Event>, e: Event, t: State)
    requires IsTrace(c, run, events) && Leads(c, run[|run| - 1], e, t)
    ensures IsTrace(c, run + [t], events + [e])
  {
    var r, es := run + [t], events + [e];
    forall k: nat | k < |es|
      ensures Leads(c, r[k], es[k], r[k + 1])
    {
      if k < |events| {
        assert Leads(c, run[k], events[k], run[k + 1]);
      }
    }
  }

  lemma {:induction false} RunHasTrace(c: Config, run: seq<State>)
    requires IsRun(c, run)
    ensures HasTrace(c, run)
  {
    if |run| == 1 {
      assert IsTrace(c, run, []);
    } else {
      var prev, s, t := run[..|run| - 1], run[|run| - 2], run[|run| - 1];
      RunPrefix(c, run);
      RunHasTrace(c, prev);
      var events: seq<Event> :| IsTrace(c, prev, events);
      var e :| Enabled(c, s, e) && t == Apply(c, s, e);
      LongerTrace(c, prev, events, e, t);
      LastOf(run);
    }
  }

  /** The runs of the queue are exactly those that events lead through. */
  lemma RunsAreTraces(c: Config, run: seq<State>)
    ensures IsRun(c, run) <==> HasTrace(c, run)
  {
    if IsRun(c, run) {
      RunHasTrace(c, run);
    } else if HasTrace(c, run) {
      var events: seq<Event> :| IsTrace(c, run, events);
      TraceIsRun(c, run, events);
    }
  }

  // ---------------------------------------------------------------------------
  // Receive
  // ---------------------------------------------------------------------------

  /** Event number a starts a call of Receive, which is answered by the event before state number b. */
  ghost predicate IsReceive(run: seq<State>, events: seq<Event>, a: nat, b: nat) {
    && a < b < |run| == |events| + 1
    && events[a].StartReceive?
    && run[b].receiver.Waiting?
    && forall k: nat | a < k < b :: !run[k].receiver.Waiting?
  }

  /** Nothing is behind the dummy, or it is not linked yet. */
  ghost predicate LooksEmpty(s: State) {
    s.first == To(s.last) || (s.first.To? && NextIs(s, s.first.node, Null))
  }

  /** A call of Receive under way has delivered nothing yet. */
  ghost predicate Receiving(c: Config, s: State, capacity: nat, before: seq<Delivery>) {
    !s.receiver.Waiting? && s.received == before && capacity >= c.msgsize
  }

  /** What a call of Receive answers, and what it has appended to the deliveries. */
  ghost predicate HonestReceive(c: Config, before: seq<Delivery>, capacity: nat, answer: Status, after: seq<Delivery>) {
    && (answer == SizeMismatch <==> capacity < c.msgsize)
    && (answer == QueueOk <==> |after| == |before| + 1)
    && (answer == QueueOk ==> after[..|before|] == before)
    && (answer != QueueOk ==> after == before)
    && answer != QueueFull
  }

  lemma ReceiveStarts(c: Config, s: State, e: Event, t: State)
    requires Leads(c, s, e, t) && e.StartReceive?
    ensures t.receiver.Waiting? ==>
              t.receiver.result == SizeMismatch && HonestReceive(c, s.received, e.capacity, SizeMismatch, t.received)
    ensures !t.receiver.Waiting? ==> Receiving(c, t, e.capacity, s.received)
  {
  }

  lemma SendersDeliverNothing(c: Config, s: State, e: Event, t: State)
    requires Leads(c, s, e, t) && (e.StartSend? || e.SenderMove?)
    ensures t.receiver == s.receiver && t.received == s.received
  {
  }

  lemma ReceiverSteps(c: Config, s: State, t: State, capacity: nat, before: seq<Delivery>)
    requires Leads(c, s, ReceiverMove, t) && Receiving(c, s, capacity, before)
    ensures !t.receiver.Waiting? ==> Receiving(c, t, capacity, before)
    ensures t.receiver.Waiting? ==>
              && HonestReceive(c, before, capacity, t.receiver.result, t.received)
              && (t.receiver.result == NoMoreMsgs ==> LooksEmpty(s))
  {
    assert t == ReceiverStep(c, s);
  }

  lemma ReceiveContinues(c: Config, s: State, e: Event, t: State, capacity: nat, before: seq<Delivery>)
    requires Leads(c, s, e, t) && Receiving(c, s, capacity, before)
    ensures !t.receiver.Waiting? ==> Receiving(c, t, capacity, before)
    ensures t.receiver.Waiting? ==>
              && HonestReceive(c, before, capacity, t.receiver.result, t.received)
              && (t.receiver.result == NoMoreMsgs ==> LooksEmpty(s))
  {
    if e.ReceiverMove? {
      ReceiverSteps(c, s, t, capacity, before);
    } else {
      SendersDeliverNothing(c, s, e, t);
    }
  }

  lemma {:induction false} WhileReceiving(c: Config, run: seq<State>, events: seq<Event>, a: nat, b: nat, k: nat)
    requires IsTrace(c, run, events) && IsReceive(run, events, a, b) && a < k < b
    ensures Receiving(c, run[k], events[a].capacity, run[a].received)
  {
    if k == a + 1 {
      ReceiveStarts(c, run[a], events[a], run[a + 1]);
    } else {
      WhileReceiving(c, run, events, a, b, k - 1);
      ReceiveContinues(c, run[k - 1], events[k - 1], run[k - 1 + 1], events[a].capacity, run[a].received);
    }
  }

  /**
   Receive answers "ok" exactly if it has delivered one message since it began, a size mismatch exactly
   for too small a buffer, and "no more messages" only after it has seen an empty or unlinked queue.
   */
  lemma ReceiveAnswers(c: Config, run: seq<State>, events: seq<Event>, a: nat, b: nat)
    requires IsTrace(c, run, events) && IsReceive(run, events, a, b)
    ensures HonestReceive(c, run[a].received, events[a].capacity, run[b].receiver.result, run[b].received)
    ensures run[b].receiver.result == NoMoreMsgs ==> LooksEmpty(run[b - 1])
  {
    if b == a + 1 {
      ReceiveStarts(c, run[a], events[a], run[a + 1]);
    } else {
      WhileReceiving(c, run, events, a, b, b - 1);
      ReceiveContinues(c, run[b - 1], events[b - 1], run[b - 1 + 1], events[a].capacity, run[a].received);
    }
  }

  // ---------------------------------------------------------------------------
  // Send
  // ---------------------------------------------------------------------------

  ghost predicate IdleAt(s: State, i: nat) {
    i < |s.senders| && s.senders[i].pc.Idle?
  }

  ghost predicate BusyAt(s: State, i: nat) {
    i < |s.senders| && !s.senders[i].pc.Idle?
  }

  /** Event number a starts a call of Send by sender i, which is answered by the event before state number b. */
  ghost predicate IsSend(run: seq<State>, events: seq<Event>, i: nat, a: nat, b: nat) {
    && a < b < |run| == |events| + 1
    && events[a].StartSend? && events[a].i == i
    && IdleAt(run[b], i)
    && forall k: nat | a < k < b :: BusyAt(run[k], i)
  }

  ghost predicate Moves(e: Event, i: nat) {
    e == SenderMove(i) || (e.StartSend? && e.i == i)
  }

  /** What a step appends to the published messages. */
  ghost function News(s: State, t: State): seq<Message> {
    if |s.published| <= |t.published| then t.published[|s.published|..] else []
  }

  lemma NewsOf(s: State, t: State, own: seq<Message>)
    requires t.published == s.published + own
    ensures News(s, t) == own
  {
  }

  /** Where sender i stands after a step, with this answer if the call is over. */
  ghost predicate Proceeds(s: State, t: State, i: nat, own: seq<Message>)
    requires i < |s.senders| && i < |t.senders|
  {
    var p, q := s.senders[i].pc, t.senders[i].pc;
    && t.senders[i].msg == s.senders[i].msg
    && own == (if !p.LinkNext? && q.LinkNext? then [s.senders[i].msg] else [])
    && (p.LinkNext? ==> q.LinkNext? || q == Idle(QueueOk))
    && (!p.LinkNext? && q.Idle? ==> q == Idle(QueueFull) && s.freeHead == Null)
  }

  lemma OwnStep(c: Config, s: State, t: State, i: nat) returns (own: seq<Message>)
    requires Leads(c, s, SenderMove(i), t)
    ensures i < |t.senders| && t.published == s.published + own && Proceeds(s, t, i, own)
  {
    own := if t.senders[i].pc.LinkNext? && !s.senders[i].pc.LinkNext? then [s.senders[i].msg] else [];
    assert t == SenderStep(c, s, i);
  }

  lemma OtherSender(c: Config, s: State, j: nat, i: nat)
    requires TypeOk(c, s) && Enabled(c, s, SenderMove(j)) && j != i && i < |s.senders|
    ensures i < |SenderStep(c, s, j).senders| && SenderStep(c, s, j).senders[i] == s.senders[i]
  {
  }

  lemma OtherReceiver(c: Config, s: State)
    requires TypeOk(c, s) && Enabled(c, s, ReceiverMove)
    ensures ReceiverStep(c, s).senders == s.senders
  {
  }

  lemma OtherStep(c: Config, s: State, e: Event, t: State, i: nat)
    requires Leads(c, s, e, t) && BusyAt(s, i) && e != SenderMove(i)
    ensures !Moves(e, i) && i < |t.senders| && t.senders[i] == s.senders[i]
  {
    match e
    case SenderMove(j) => OtherSender(c, s, j, i);
    case ReceiverMove => OtherReceiver(c, s);
    case _ =>
  }

  lemma SendingStep(c: Config, s: State, e: Event, t: State, i: nat) returns (own: seq<Message>)
    requires Leads(c, s, e, t) && BusyAt(s, i)
    ensures i < |t.senders| && own == (if Moves(e, i) then News(s, t) else [])
    ensures Proceeds(s, t, i, own)
  {
    if e == SenderMove(i) {
      own := OwnStep(c, s, t, i);
      NewsOf(s, t, own);
    } else {
      OtherStep(c, s, e, t, i);
      own := [];
    }
  }

  lemma StartingStep(c: Config, s: State, e: Event, t: State)
    requires Leads(c, s, e, t) && e.StartSend?
    ensures e.i < |t.senders| && News(s, t) == []
    ensures if |e.msg| > c.msgsize then t.senders[e.i].pc == Idle(SizeMismatch)
            else t.senders[e.i] == Sender(PopHead, e.msg)
  {
  }

  /** What sender i publishes in one step. */
  ghost function OwnNews(s: State, e: Event, t: State, i: nat): seq<Message> {
    if Moves(e, i) then News(s, t) else []
  }

  /** A call of Send under way. */
  ghost predicate Sending(c: Config, s: State, i: nat, msg: Message) {
    BusyAt(s, i) && s.senders[i].msg == msg && |msg| <= c.msgsize
  }

  ghost predicate Linking(s: State, i: nat) {
    i < |s.senders| && s.senders[i].pc.LinkNext?
  }

  lemma Starts(c: Config, s: State, e: Event, t: State)
    requires Leads(c, s, e, t) && e.StartSend?
    ensures OwnNews(s, e, t, e.i) == [] && !Linking(t, e.i)
    ensures BusyAt(t, e.i) ==> Sending(c, t, e.i, e.msg)
    ensures IdleAt(t, e.i) ==> t.senders[e.i].pc.result == SizeMismatch && |e.msg| > c.msgsize
  {
    StartingStep(c, s, e, t);
  }

  lemma Continues(c: Config, s: State, e: Event, t: State, i: nat, msg: Message)
    requires Leads(c, s, e, t) && Sending(c, s, i, msg)
    ensures OwnNews(s, e, t, i) == if !Linking(s, i) && Linking(t, i) then [msg] else []
    ensures BusyAt(t, i) ==> Sending(c, t, i, msg) && (Linking(s, i) ==> Linking(t, i))
    ensures IdleAt(t, i) ==>
              && t.senders[i].pc.result == (if Linking(s, i) then QueueOk else QueueFull)
              && (t.senders[i].pc.result == QueueFull ==> s.freeHead == Null)
  {
    var own := SendingStep(c, s, e, t, i);
  }

  /** In step m sender i publishes nothing. */
  ghost predicate Silent(run: seq<State>, events: seq<Event>, i: nat, m: nat) {
    m < |events| < |run| ==> OwnNews(run[m], events[m], run[m + 1], i) == []
  }

  /** In step m sender i publishes this message. */
  ghost predicate Publishes(run: seq<State>, events: seq<Event>, i: nat, m: nat, msg: Message) {
    m < |events| < |run| && OwnNews(run[m], events[m], run[m + 1], i) == [msg]
  }

  ghost predicate PublishesNothing(run: seq<State>, events: seq<Event>, i: nat, a: nat, b: nat) {
    forall m: nat | a <= m < b :: Silent(run, events, i, m)
  }

  /** From step a on and before state b, sender i publishes this message once and nothing else. */
  ghost predicate PublishesOnce(run: seq<State>, events: seq<Event>, i: nat, a: nat, b: nat, msg: Message) {
    exists m: nat :: a <= m < b && Publishes(run, events, i, m, msg)
                     && PublishesNothing(run, events, i, a, m) && PublishesNothing(run, events, i, m + 1, b)
  }

  /** Sender i publishes its message exactly up to the state in which it has that behind it. */
  ghost predicate Accounts(run: seq<State>, events: seq<Event>, i: nat, a: nat, k: nat, msg: Message, done: bool) {
    if done then PublishesOnce(run, events, i, a, k, msg) else PublishesNothing(run, events, i, a, k)
  }

  lemma OneMoreStep(run: seq<State>, events: seq<Event>, i: nat, a: nat, k: nat, msg: Message, done: bool, now: bool)
    requires Accounts(run, events, i, a, k, msg, done) && a <= k < |events| < |run|
    requires OwnNews(run[k], events[k], run[k + 1], i) == if now then [msg] else []
    requires !(done && now)
    ensures Accounts(run, events, i, a, k + 1, msg, done || now)
  {
    if now {
      assert Publishes(run, events, i, k, msg);
    } else {
      assert Silent(run, events, i, k);
    }
  }

  lemma {:induction false} WhileSending(c: Config, run: seq<State>, events: seq<Event>, i: nat, a: nat, b: nat, k: nat)
    requires IsTrace(c, run, events) && IsSend(run, events, i, a, b) && a < k < b
    ensures Sending(c, run[k], i, events[a].msg)
    ensures Accounts(run, events, i, a, k, events[a].msg, Linking(run[k], i))
  {
    var msg := events[a].msg;
    if k == a + 1 {
      Starts(c, run[a], events[a], run[k]);
      OneMoreStep(run, events, i, a, a, msg, false, false);
    } else {
      var j := k - 1;
      WhileSending(c, run, events, i, a, b, j);
      Continues(c, run[j], events[j], run[j + 1], i, msg);
      OneMoreStep(run, events, i, a, j, msg, Linking(run[j], i), !Linking(run[j], i) && Linking(run[k], i));
    }
  }

  /** What a call of Send answers, and what it has published. */
  ghost predicate HonestSend(c: Config, run: seq<State>, events: seq<Event>, i: nat, a: nat, b: nat, answer: Status)
    requires a < |events| && events[a].StartSend?
  {
    var msg := events[a].msg;
    && (answer == SizeMismatch <==> |msg| > c.msgsize)
    && (answer == QueueOk <==> PublishesOnce(run, events, i, a, b, msg))
    && (answer != QueueOk <==> PublishesNothing(run, events, i, a, b))
    && answer != NoMoreMsgs
  }

  lemma OnceIsNotNothing(run: seq<State>, events: seq<Event>, i: nat, a: nat, b: nat, msg: Message)
    requires PublishesOnce(run, events, i, a, b, msg)
    ensures !PublishesNothing(run, events, i, a, b)
  {
    var m: nat :| a <= m < b && Publishes(run, events, i, m, msg);
    assert !Silent(run, events, i, m);
  }

  /**
   Send answers "ok" exactly if it has published its message, once, since it began, and otherwise has
   published nothing; a size mismatch exactly for a message that is too large; and "queue full" only after
   it has seen the free list empty.
   */
  lemma SendAnswers(c: Config, run: seq<State>, events: seq<Event>, i: nat, a: nat, b: nat)
    requires IsTrace(c, run, events) && IsSend(run, events, i, a, b)
    ensures HonestSend(c, run, events, i, a, b, run[b].senders[i].pc.result)
    ensures run[b].senders[i].pc.result == QueueFull ==> run[b - 1].freeHead == Null
  {
    var msg := events[a].msg;
    if b == a + 1 {
      Starts(c, run[a], events[a], run[b]);
      OneMoreStep(run, events, i, a, a, msg, false, false);
    } else {
      var j := b - 1;
      WhileSending(c, run, events, i, a, b, j);
      Continues(c, run[j], events[j], run[j + 1], i, msg);
      OneMoreStep(run, events, i, a, j, msg, Linking(run[j], i), false);
    }
    if PublishesOnce(run, events, i, a, b, msg) {
      OnceIsNotNothing(run, events, i, a, b, msg);
    }
  }
}
