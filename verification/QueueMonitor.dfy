/**
 The lock and the two condition variables around a buffer queue, as a step system over any
 number of threads.  Each call is a send or a receive, blocking or not; each step is one
 lock, test-and-act, signal or unlock of one thread, or a spurious wakeup.
 */
module QueueMonitor {
  import opened QueueStatuses

  datatype Call = Send(size: nat, blocks: bool) | Receive(capacity: nat, blocks: bool)

  /** Where a thread is; `woken` marks a blocking call that has slept and been woken since. */
  datatype Thread =
    | Outside
    | AtLock(call: Call, woken: bool)
    | Inside(call: Call, woken: bool)
    | Asleep(call: Call)
    | Signalling(call: Call)
    | Leaving(call: Call, answer: Status)

  datatype Lock = Free | HeldBy(t: nat)

  /** The sizes of the waiting messages are all that the protocol looks at. */
  datatype State = State(threads: seq<Thread>, lock: Lock, waiting: multiset<nat>)

  /** `room` is the least capacity that blocking receivers bring along. */
  datatype Config = Config(depth: nat, msgSize: nat, threads: nat, room: nat)

  datatype Event =
    | Enter(t: nat, call: Call)
    | Acquire(t: nat)
    | Act(t: nat, n: nat)
    | Signal(t: nat, w: nat)
    | Release(t: nat)
    | Spurious(t: nat)

  ghost predicate Legit(c: Config, call: Call) {
    match call
    case Send(size, _) => size <= c.msgSize
    case Receive(capacity, blocks) => blocks ==> c.room <= capacity
  }

  /** Asleep until a message arrives (receivers) or until one is taken (senders). */
  ghost predicate Sleeps(th: Thread, receivers: bool) {
    th.Asleep? && th.call.Receive? == receivers
  }

  ghost predicate SomeSleeps(threads: seq<Thread>, receivers: bool) {
    exists i: nat :: i < |threads| && Sleeps(threads[i], receivers)
  }

  // ---------------------------------------------------------------------------
  // Steps
  // ---------------------------------------------------------------------------

  ghost predicate Enabled(c: Config, s: State, e: Event) {
    && e.t < |s.threads|
    && var th := s.threads[e.t];
       match e
       case Enter(_, call) => th.Outside? && Legit(c, call)
       case Acquire(_) => th.AtLock? && s.lock.Free?
       case Act(_, n) => th.Inside? && (th.call.Receive? && s.waiting != multiset{} ==> n in s.waiting)
       case Signal(t, w) =>
         && th.Signalling?
         && if SomeSleeps(s.threads, th.call.Send?) then w < |s.threads| && Sleeps(s.threads[w], th.call.Send?)
            else w == t
       case Release(_) => th.Leaving?
       case Spurious(_) => th.Asleep?
  }

  ghost function Put(s: State, t: nat, th: Thread): State
    requires t < |s.threads|
  {
    s.(threads := s.threads[t := th])
  }

  /** The locked section up to the signal; the queue offers a message of size n. */
  ghost function Acted(c: Config, s: State, t: nat, n: nat): State
    requires t < |s.threads| && s.threads[t].Inside?
  {
    var call := s.threads[t].call;
    match call
    case Send(size, blocks) =>
      if |s.waiting| != c.depth then Put(s, t, Signalling(call)).(waiting := s.waiting + multiset{size})
      else if blocks then Put(s, t, Asleep(call)).(lock := Free)
      else Put(s, t, Leaving(call, QueueFull))
    case Receive(capacity, blocks) =>
      if s.waiting != multiset{} then
        if n <= capacity then Put(s, t, Signalling(call)).(waiting := s.waiting - multiset{n})
        else Put(s, t, Leaving(call, SizeMismatch))
      else if blocks then Put(s, t, Asleep(call)).(lock := Free)
      else Put(s, t, Leaving(call, NoMoreMsgs))
  }

  ghost function Step(c: Config, s: State, e: Event): State
    requires Enabled(c, s, e)
  {
    match e
    case Enter(t, call) => Put(s, t, AtLock(call, false))
    case Acquire(t) => Put(s, t, Inside(s.threads[t].call, s.threads[t].woken)).(lock := HeldBy(t))
    case Act(t, n) => Acted(c, s, t, n)
    case Signal(t, w) =>
      var left := Put(s, t, Leaving(s.threads[t].call, QueueOk));
      if w == t then left else Put(left, w, AtLock(s.threads[w].call, true))
    case Release(t) => Put(s, t, Outside).(lock := Free)
    case Spurious(t) => Put(s, t, AtLock(s.threads[t].call, true))
  }

  ghost function Idle(n: nat): (r: seq<Thread>)
    ensures |r| == n && forall i: nat | i < n :: r[i] == Outside
  {
    seq(n, _ => Outside)
  }

  ghost function Start(c: Config): State {
    State(Idle(c.threads), Free, multiset{})
  }

  /** The state after these events, from the start; they must be enabled one after the other. */
  ghost predicate IsRun(c: Config, run: seq<Event>)
    decreases |run|, 0
  {
    run != [] ==>
      var before := run[..|run| - 1];
      IsRun(c, before) && Enabled(c, After(c, before), run[|run| - 1])
  }

  ghost function After(c: Config, run: seq<Event>): State
    requires IsRun(c, run)
    decreases |run|, 1
  {
    if run == [] then Start(c) else Step(c, After(c, run[..|run| - 1]), run[|run| - 1])
  }

  // ---------------------------------------------------------------------------
  // What every step keeps
  // ---------------------------------------------------------------------------

  ghost predicate Holds(th: Thread) {
    th.Inside? || th.Signalling? || th.Leaving?
  }

  /** The lock admits one thread. */
  ghost predicate Exclusive(s: State) {
    && (s.lock.HeldBy? ==> s.lock.t < |s.threads|)
    && forall i: nat {:trigger Holds(s.threads[i])} | i < |s.threads| :: Holds(s.threads[i]) <==> s.lock == HeldBy(i)
  }

  ghost predicate FairCall(c: Config, th: Thread) {
    && (!th.Outside? ==> Legit(c, th.call))
    && (th.Asleep? ==> th.call.blocks)
    && ((th.AtLock? || th.Inside?) && th.woken ==> th.call.blocks)
  }

  ghost predicate Fair(c: Config, s: State) {
    && |s.threads| == c.threads && |s.waiting| <= c.depth
    && (forall n | n in s.waiting :: n <= c.msgSize)
    && forall i: nat {:trigger FairCall(c, s.threads[i])} | i < |s.threads| :: FairCall(c, s.threads[i])
  }

  ghost predicate Sound(c: Config, s: State) {
    Exclusive(s) && Fair(c, s)
  }

  /** Moving one thread keeps the lock exclusive if the thread takes, keeps or gives up the lock properly. */
  lemma ExclusivePut(s: State, t: nat, th: Thread, lock: Lock)
    requires Exclusive(s) && t < |s.threads|
    requires s.lock == Free || s.lock == HeldBy(t) || lock == s.lock
    requires lock == s.lock || lock == Free || lock == HeldBy(t)
    requires Holds(th) <==> lock == HeldBy(t)
    ensures Exclusive(Put(s, t, th).(lock := lock))
  {
    var after := Put(s, t, th).(lock := lock);
    forall i: nat | i < |s.threads|
      ensures Holds(after.threads[i]) <==> lock == HeldBy(i)
    {
      assert Holds(s.threads[i]) <==> s.lock == HeldBy(i);
    }
  }

  lemma ExclusiveSignal(c: Config, s: State, e: Event)
    requires e.Signal? && Exclusive(s) && Enabled(c, s, e)
    ensures Exclusive(Step(c, s, e))
  {
    var th := s.threads[e.t];
    assert Holds(th) <==> s.lock == HeldBy(e.t);
    ExclusivePut(s, e.t, Leaving(th.call, QueueOk), s.lock);
    if e.w != e.t {
      assert Holds(s.threads[e.w]) <==> s.lock == HeldBy(e.w);
      ExclusivePut(Put(s, e.t, Leaving(th.call, QueueOk)), e.w, AtLock(s.threads[e.w].call, true), s.lock);
    }
  }

  lemma ExclusiveAct(c: Config, s: State, e: Event)
    requires e.Act? && Exclusive(s) && Enabled(c, s, e)
    ensures Exclusive(Step(c, s, e))
  {
    var after := Step(c, s, e);
    assert Holds(s.threads[e.t]) <==> s.lock == HeldBy(e.t);
    ExclusivePut(s, e.t, after.threads[e.t], after.lock);
    assert after.threads == Put(s, e.t, after.threads[e.t]).threads;
  }

  lemma ExclusiveStep(c: Config, s: State, e: Event)
    requires Exclusive(s) && Enabled(c, s, e)
    ensures Exclusive(Step(c, s, e))
  {
    assert Holds(s.threads[e.t]) <==> s.lock == HeldBy(e.t);
    match e
    case Enter(t, call) => ExclusivePut(s, t, AtLock(call, false), s.lock);
    case Acquire(t) => ExclusivePut(s, t, Inside(s.threads[t].call, s.threads[t].woken), HeldBy(t));
    case Act(_, _) => ExclusiveAct(c, s, e);
    case Signal(_, _) => ExclusiveSignal(c, s, e);
    case Release(t) => ExclusivePut(s, t, Outside, Free);
    case Spurious(t) => ExclusivePut(s, t, AtLock(s.threads[t].call, true), s.lock);
  }

  /** Taking out or adding one size. */
  lemma WaitingChanges(waiting: multiset<nat>, n: nat, bound: nat)
    requires forall m | m in waiting :: m <= bound
    ensures n in waiting ==> |waiting - multiset{n}| == |waiting| - 1
    ensures |waiting + multiset{n}| == |waiting| + 1
    ensures forall m | m in waiting - multiset{n} :: m <= bound
    ensures n <= bound ==> forall m | m in waiting + multiset{n} :: m <= bound
  {
  }

  lemma FairPut(c: Config, s: State, t: nat, th: Thread)
    requires Fair(c, s) && t < |s.threads| && FairCall(c, th)
    ensures Fair(c, Put(s, t, th))
  {
    var after := Put(s, t, th);
    forall i: nat | i < |s.threads|
      ensures FairCall(c, after.threads[i])
    {
      assert FairCall(c, s.threads[i]);
    }
  }

  lemma FairSignal(c: Config, s: State, e: Event)
    requires e.Signal? && Fair(c, s) && Enabled(c, s, e)
    ensures Fair(c, Step(c, s, e))
  {
    assert FairCall(c, s.threads[e.t]);
    FairPut(c, s, e.t, Leaving(s.threads[e.t].call, QueueOk));
    if e.w != e.t {
      assert FairCall(c, s.threads[e.w]);
      FairPut(c, Put(s, e.t, Leaving(s.threads[e.t].call, QueueOk)), e.w, AtLock(s.threads[e.w].call, true));
    }
  }

  lemma FairAct(c: Config, s: State, e: Event)
    requires e.Act? && Fair(c, s) && Enabled(c, s, e)
    ensures Fair(c, Step(c, s, e))
  {
    var th, after := s.threads[e.t], Step(c, s, e);
    assert FairCall(c, th);
    FairPut(c, s, e.t, after.threads[e.t]);
    WaitingChanges(s.waiting, if th.call.Send? then th.call.size else e.n, c.msgSize);
    assert after.threads == Put(s, e.t, after.threads[e.t]).threads;
  }

  lemma FairStep(c: Config, s: State, e: Event)
    requires Fair(c, s) && Enabled(c, s, e)
    ensures Fair(c, Step(c, s, e))
  {
    if e.Signal? {
      FairSignal(c, s, e);
    } else if e.Act? {
      FairAct(c, s, e);
    } else {
      assert FairCall(c, s.threads[e.t]);
      FairPut(c, s, e.t, Step(c, s, e).threads[e.t]);
    }
  }

  lemma {:induction false} RunsAreSound(c: Config, run: seq<Event>)
    requires IsRun(c, run)
    ensures Sound(c, After(c, run))
  {
    if run == [] {
    } else {
      var before := run[..|run| - 1];
      RunsAreSound(c, before);
      ExclusiveStep(c, After(c, before), run[|run| - 1]);
      FairStep(c, After(c, before), run[|run| - 1]);
    }
  }

  // ---------------------------------------------------------------------------
  // What a call has done when it leaves
  // ---------------------------------------------------------------------------

  /**
   What an observer notes down about the latest call of one thread: the sizes that its own steps have
   added to and taken from the waiting ones, what waited at its latest look at the queue, and how often
   it has looked.
   */
  datatype Record = Record(call: Call, added: multiset<nat>, taken: multiset<nat>, seen: multiset<nat>, looks: nat)

  const NOTHING := Record(Receive(0, false), multiset{}, multiset{}, multiset{}, 0)

  ghost function RecordOf(c: Config, run: seq<Event>, t: nat): Record
    requires IsRun(c, run)
  {
    if run == [] then NOTHING
    else
      var e := run[|run| - 1];
      var r := RecordOf(c, run[..|run| - 1], t);
      Noted(r, e, After(c, run[..|run| - 1]).waiting, After(c, run).waiting, t)
  }

  /** The record of thread t after an event. */
  ghost function Noted(r: Record, e: Event, before: multiset<nat>, after: multiset<nat>, t: nat): Record {
    if e.t != t then r
    else if e.Enter? then Record(e.call, multiset{}, multiset{}, multiset{}, 0)
    else
      Record(r.call, r.added + (after - before), r.taken + (before - after),
             if e.Act? then before else r.seen, if e.Act? then r.looks + 1 else r.looks)
  }

  /** The answer agrees with what the call has done to the queue and with what it has seen there. */
  ghost predicate Honest(c: Config, r: Record, answer: Status) {
    match r.call
    case Send(size, blocks) =>
      && r.taken == multiset{}
      && (if answer == QueueOk then r.added == multiset{size} && |r.seen| != c.depth
          else answer == QueueFull && !blocks && r.added == multiset{} && |r.seen| == c.depth)
    case Receive(capacity, blocks) =>
      && r.added == multiset{}
      && match answer
         case QueueOk => exists n | n in r.seen :: n <= capacity && r.taken == multiset{n}
         case SizeMismatch => r.taken == multiset{} && exists n | n in r.seen :: n > capacity
         case NoMoreMsgs => !blocks && r.taken == multiset{} && r.seen == multiset{}
         case QueueFull => false
  }

  ghost predicate Untouched(r: Record, call: Call) {
    r.call == call && r.added == multiset{} && r.taken == multiset{}
  }

  /** Where a thread stands, and what its call has done so far. */
  ghost predicate Recorded(c: Config, th: Thread, r: Record) {
    match th
    case Outside => true
    case AtLock(call, _) => Untouched(r, call) && (!call.blocks ==> r.looks == 0)
    case Inside(call, _) => Untouched(r, call) && (!call.blocks ==> r.looks == 0)
    case Asleep(call) => Untouched(r, call) && call.blocks
    case Signalling(call) => r.call == call && Honest(c, r, QueueOk) && (!call.blocks ==> r.looks == 1)
    case Leaving(call, answer) => r.call == call && Honest(c, r, answer) && (!call.blocks ==> r.looks == 1)
  }

  lemma NotedNothing(r: Record, e: Event, before: multiset<nat>)
    requires e.Act? && Untouched(r, r.call)
    ensures Noted(r, e, before, before, e.t) == Record(r.call, multiset{}, multiset{}, before, r.looks + 1)
  {
    assert before - before == multiset{};
  }

  lemma NotedAdded(r: Record, e: Event, before: multiset<nat>, after: multiset<nat>, n: nat)
    requires e.Act? && Untouched(r, r.call) && after == before + multiset{n}
    ensures Noted(r, e, before, after, e.t) == Record(r.call, multiset{n}, multiset{}, before, r.looks + 1)
  {
    assert after - before == multiset{n} && before - after == multiset{};
  }

  lemma NotedTaken(r: Record, e: Event, before: multiset<nat>, after: multiset<nat>, n: nat)
    requires e.Act? && Untouched(r, r.call) && n in before && after == before - multiset{n}
    ensures Noted(r, e, before, after, e.t) == Record(r.call, multiset{}, multiset{n}, before, r.looks + 1)
  {
    assert before - after == multiset{n} && after - before == multiset{};
  }

  /** What a look at a waiting message of size n means for a receive. */
  lemma Offered(c: Config, call: Call, seen: multiset<nat>, n: nat, looks: nat)
    requires call.Receive? && n in seen
    ensures n <= call.capacity ==> Honest(c, Record(call, multiset{}, multiset{n}, seen, looks), QueueOk)
    ensures n > call.capacity ==> Honest(c, Record(call, multiset{}, multiset{}, seen, looks), SizeMismatch)
  {
  }

  /** What the locked section does to the waiting sizes, and where it leaves the thread. */
  lemma ActedIs(c: Config, s: State, e: Event, after: State)
    requires e.Act? && Enabled(c, s, e) && after == Step(c, s, e)
    ensures var call, th := s.threads[e.t].call, after.threads[e.t];
            match call
            case Send(size, blocks) =>
              if |s.waiting| != c.depth then th == Signalling(call) && after.waiting == s.waiting + multiset{size}
              else th == (if blocks then Asleep(call) else Leaving(call, QueueFull)) && after.waiting == s.waiting
            case Receive(capacity, blocks) =>
              if s.waiting == multiset{}
              then th == (if blocks then Asleep(call) else Leaving(call, NoMoreMsgs)) && after.waiting == s.waiting
              else if e.n <= capacity
              then th == Signalling(call) && after.waiting == s.waiting - multiset{e.n}
              else th == Leaving(call, SizeMismatch) && after.waiting == s.waiting
  {
  }

  lemma RecordedAct(c: Config, s: State, e: Event, r: Record, th: Thread, waiting: multiset<nat>)
    requires e.Act? && Enabled(c, s, e) && Recorded(c, s.threads[e.t], r)
    requires th == Step(c, s, e).threads[e.t] && waiting == Step(c, s, e).waiting
    ensures Recorded(c, th, Noted(r, e, s.waiting, waiting, e.t))
  {
    var call := s.threads[e.t].call;
    ActedIs(c, s, e, Step(c, s, e));
    if waiting == s.waiting {
      NotedNothing(r, e, waiting);
    } else if call.Send? {
      NotedAdded(r, e, s.waiting, waiting, call.size);
    } else {
      NotedTaken(r, e, s.waiting, waiting, e.n);
    }
    if call.Receive? && s.waiting != multiset{} {
      Offered(c, call, s.waiting, e.n, r.looks + 1);
    }
  }

  /** Only the locked section changes what waits. */
  lemma QuietStep(c: Config, s: State, e: Event)
    requires Enabled(c, s, e) && !e.Act?
    ensures Step(c, s, e).waiting == s.waiting
  {
  }

  lemma RecordedStep(c: Config, s: State, e: Event, t: nat, r: Record)
    requires Enabled(c, s, e) && t < |s.threads| && Recorded(c, s.threads[t], r) && FairCall(c, s.threads[t])
    ensures t < |Step(c, s, e).threads|
    ensures Recorded(c, Step(c, s, e).threads[t], Noted(r, e, s.waiting, Step(c, s, e).waiting, t))
  {
    if e.Act? && e.t == t {
      RecordedAct(c, s, e, r, Step(c, s, e).threads[t], Step(c, s, e).waiting);
    } else if !e.Act? {
      QuietStep(c, s, e);
      assert s.waiting - s.waiting == multiset{};
    }
  }

  lemma {:induction false} RunsAreRecorded(c: Config, run: seq<Event>, t: nat)
    requires IsRun(c, run) && t < c.threads
    ensures t < |After(c, run).threads| && Recorded(c, After(c, run).threads[t], RecordOf(c, run, t))
  {
    if run == [] {
    } else {
      var before := run[..|run| - 1];
      RunsAreRecorded(c, before, t);
      RunsAreSound(c, before);
      assert FairCall(c, After(c, before).threads[t]);
      RecordedStep(c, After(c, before), run[|run| - 1], t, RecordOf(c, before, t));
    }
  }

  /**
   Every call answers for what it has done.  A blocking send leaves only when its message has been
   added; a blocking receive only with a message, or because one was larger than its buffer.  A
   non-blocking call looks once, and leaves empty-handed exactly if it has seen the queue full, empty,
   or offering too large a message.
   */
  lemma CallsAreHonest(c: Config, run: seq<Event>, t: nat)
    requires IsRun(c, run) && t < |After(c, run).threads| && After(c, run).threads[t].Leaving?
    ensures var th, r := After(c, run).threads[t], RecordOf(c, run, t);
            r.call == th.call && Honest(c, r, th.answer) && (!th.call.blocks ==> r.looks == 1)
  {
    RunsAreSound(c, run);
    RunsAreRecorded(c, run, t);
  }

  /** The sizes that senders have added, and those that receivers have taken. */
  ghost function Accepted(c: Config, run: seq<Event>): multiset<nat>
    requires IsRun(c, run)
  {
    if run == [] then multiset{}
    else
      var before := run[..|run| - 1];
      Accepted(c, before)
      + if MovedBy(c, run, false) then After(c, run).waiting - After(c, before).waiting else multiset{}
  }

  ghost function Taken(c: Config, run: seq<Event>): multiset<nat>
    requires IsRun(c, run)
  {
    if run == [] then multiset{}
    else
      var before := run[..|run| - 1];
      Taken(c, before)
      + if MovedBy(c, run, true) then After(c, before).waiting - After(c, run).waiting else multiset{}
  }

  /** The last step of the run is one of a receive, or of a send. */
  ghost predicate MovedBy(c: Config, run: seq<Event>, receives: bool)
    requires IsRun(c, run) && run != []
  {
    var th := After(c, run[..|run| - 1]).threads[run[|run| - 1].t];
    !th.Outside? && th.call.Receive? == receives
  }

  lemma ActChanges(c: Config, s: State, e: Event)
    requires Enabled(c, s, e)
    ensures var after := Step(c, s, e); var th := s.threads[e.t];
            || after.waiting == s.waiting
            || (!th.Outside? && th.call.Send? && after.waiting == s.waiting + (after.waiting - s.waiting))
            || (!th.Outside? && th.call.Receive? && s.waiting == after.waiting + (s.waiting - after.waiting))
  {
  }

  /** What was accepted has been taken or still waits. */
  lemma {:induction false} SizesAddUp(c: Config, run: seq<Event>)
    requires IsRun(c, run)
    ensures Accepted(c, run) == Taken(c, run) + After(c, run).waiting
  {
    if run == [] {
    } else {
      var before := run[..|run| - 1];
      SizesAddUp(c, before);
      ActChanges(c, After(c, before), run[|run| - 1]);
    }
  }

  // ---------------------------------------------------------------------------
  // Wakeups
  // ---------------------------------------------------------------------------

  /** A thread that has been woken on this side and has not acted yet, or one about to signal to this side. */
  ghost predicate Pledges(th: Thread, receivers: bool) {
    || ((th.AtLock? || th.Inside?) && th.woken && th.call.Receive? == receivers)
    || (th.Signalling? && th.call.Send? == receivers)
  }

  ghost function Pledged(threads: seq<Thread>, receivers: bool): nat {
    if threads == [] then 0
    else Pledged(threads[..|threads| - 1], receivers) + if Pledges(threads[|threads| - 1], receivers) then 1 else 0
  }

  lemma {:induction false} PledgedPut(threads: seq<Thread>, t: nat, th: Thread, receivers: bool)
    requires t < |threads|
    ensures Pledged(threads[t := th], receivers) + (if Pledges(threads[t], receivers) then 1 else 0)
         == Pledged(threads, receivers) + (if Pledges(th, receivers) then 1 else 0)
  {
    var init := threads[..|threads| - 1];
    if t < |threads| - 1 {
      PledgedPut(init, t, th, receivers);
      assert threads[t := th][..|threads| - 1] == init[t := th];
    } else {
      assert threads[t := th][..|threads| - 1] == init;
    }
  }

  /** What this side can proceed on: messages for receivers, free places for senders. */
  ghost function Supply(c: Config, s: State, receivers: bool): int {
    if receivers then |s.waiting| else c.depth - |s.waiting|
  }

  /** No lost wakeup: if anyone sleeps on this side, each thing to proceed on is pledged to a wakeup. */
  ghost predicate Covered(c: Config, s: State, receivers: bool) {
    SomeSleeps(s.threads, receivers) ==> Supply(c, s, receivers) <= Pledged(s.threads, receivers)
  }

  lemma SleepersPut(threads: seq<Thread>, t: nat, th: Thread, receivers: bool)
    requires t < |threads| && !Sleeps(th, receivers)
    ensures SomeSleeps(threads[t := th], receivers) ==> SomeSleeps(threads, receivers)
  {
    var after := threads[t := th];
    if SomeSleeps(after, receivers) {
      var i: nat :| i < |after| && Sleeps(after[i], receivers);
      assert Sleeps(threads[i], receivers);
    }
  }

  /** This act does not turn away a woken receiver. */
  ghost predicate Serves(s: State, e: Event) {
    && e.t < |s.threads|
    && var th := s.threads[e.t];
       e.Act? && th.Inside? && th.woken && th.call.Receive? && s.waiting != multiset{} ==> e.n <= th.call.capacity
  }

  lemma CoveredAct(c: Config, s: State, e: Event, receivers: bool)
    requires e.Act? && Enabled(c, s, e) && Fair(c, s) && Covered(c, s, receivers)
    requires receivers ==> Serves(s, e)
    ensures Covered(c, Step(c, s, e), receivers)
  {
    var th, after := s.threads[e.t], Step(c, s, e);
    var th' := after.threads[e.t];
    PledgedPut(s.threads, e.t, th', receivers);
    if !Sleeps(th', receivers) {
      SleepersPut(s.threads, e.t, th', receivers);
    }
    ActedIs(c, s, e, after);
    WaitingChanges(s.waiting, if th.call.Send? then th.call.size else e.n, c.msgSize);
    assert FairCall(c, th);
  }

  lemma CoveredSignal(c: Config, s: State, e: Event, receivers: bool)
    requires e.Signal? && Enabled(c, s, e) && Covered(c, s, receivers)
    ensures Covered(c, Step(c, s, e), receivers)
  {
    var th := s.threads[e.t];
    var left := s.threads[e.t := Leaving(th.call, QueueOk)];
    PledgedPut(s.threads, e.t, Leaving(th.call, QueueOk), receivers);
    SleepersPut(s.threads, e.t, Leaving(th.call, QueueOk), receivers);
    if e.w != e.t {
      var woken := AtLock(s.threads[e.w].call, true);
      PledgedPut(left, e.w, woken, receivers);
      SleepersPut(left, e.w, woken, receivers);
    }
  }

  lemma CoveredStep(c: Config, s: State, e: Event, receivers: bool)
    requires Enabled(c, s, e) && Fair(c, s) && Covered(c, s, receivers)
    requires receivers ==> Serves(s, e)
    ensures Covered(c, Step(c, s, e), receivers)
  {
    if e.Act? {
      CoveredAct(c, s, e, receivers);
    } else if e.Signal? {
      CoveredSignal(c, s, e, receivers);
    } else {
      var th' := Step(c, s, e).threads[e.t];
      PledgedPut(s.threads, e.t, th', receivers);
      SleepersPut(s.threads, e.t, th', receivers);
    }
  }

  /** Senders never miss a wakeup; receivers do not either if all blocking ones have room for any message. */
  lemma {:induction false} NoLostWakeup(c: Config, run: seq<Event>)
    requires IsRun(c, run)
    ensures Covered(c, After(c, run), false)
    ensures c.msgSize <= c.room ==> Covered(c, After(c, run), true)
  {
    if run == [] {
    } else {
      var before, e := run[..|run| - 1], run[|run| - 1];
      var s := After(c, before);
      NoLostWakeup(c, before);
      RunsAreSound(c, before);
      CoveredStep(c, s, e, false);
      if c.msgSize <= c.room {
        assert FairCall(c, s.threads[e.t]);
        CoveredStep(c, s, e, true);
      }
    }
  }

  // ---------------------------------------------------------------------------
  // Standing still
  // ---------------------------------------------------------------------------

  /** Every thread is outside or asleep: nothing happens without a new call or a spurious wakeup. */
  ghost predicate Still(s: State) {
    forall i: nat | i < |s.threads| :: s.threads[i].Outside? || s.threads[i].Asleep?
  }

  /** A step of the protocol itself. */
  ghost predicate Proceeds(e: Event) {
    !e.Enter? && !e.Spurious?
  }

  /** No deadlock: the protocol stops only when every thread has left or sleeps. */
  lemma StillOrProceeding(c: Config, run: seq<Event>)
    requires IsRun(c, run)
    ensures !Still(After(c, run)) <==> exists e :: Proceeds(e) && Enabled(c, After(c, run), e)
  {
    var s := After(c, run);
    RunsAreSound(c, run);
    if !Still(s) {
      var i: nat :| i < |s.threads| && !s.threads[i].Outside? && !s.threads[i].Asleep?;
      ProceedsAt(c, s, i);
    }
  }

  lemma SomeElement(m: multiset<nat>) returns (n: nat)
    ensures m != multiset{} ==> n in m
  {
    n := 0;
    if m != multiset{} {
      n :| n in m;
    }
  }

  lemma ProceedsAt(c: Config, s: State, i: nat)
    requires Exclusive(s) && i < |s.threads| && !s.threads[i].Outside? && !s.threads[i].Asleep?
    ensures exists e :: Proceeds(e) && Enabled(c, s, e)
  {
    var t := if s.lock.Free? then i else s.lock.t;
    assert Holds(s.threads[t]) <==> s.lock == HeldBy(t);
    match s.threads[t]
    case AtLock(_, _) => assert Enabled(c, s, Acquire(t));
    case Inside(_, _) =>
      var n := SomeElement(s.waiting);
      assert Enabled(c, s, Act(t, n));
    case Signalling(call) =>
      if SomeSleeps(s.threads, call.Send?) {
        var w: nat :| w < |s.threads| && Sleeps(s.threads[w], call.Send?);
        assert Enabled(c, s, Signal(t, w));
      } else {
        assert Enabled(c, s, Signal(t, t));
      }
    case Leaving(_, _) => assert Enabled(c, s, Release(t));
    case _ =>
  }

  lemma {:induction false} StillPledgesNothing(threads: seq<Thread>, receivers: bool)
    requires forall i: nat | i < |threads| :: threads[i].Outside? || threads[i].Asleep?
    ensures Pledged(threads, receivers) == 0
  {
    if threads == [] {
    } else {
      StillPledgesNothing(threads[..|threads| - 1], receivers);
    }
  }

  /** Whoever still sleeps when the protocol stands still has nothing to wake up for. */
  ghost predicate NobodyStranded(c: Config, s: State) {
    Still(s) ==>
      && (SomeSleeps(s.threads, true) ==> s.waiting == multiset{})
      && (SomeSleeps(s.threads, false) ==> |s.waiting| == c.depth)
  }

  /** Senders and receivers are never both asleep while nobody is woken and nobody is about to signal. */
  lemma NotBothAsleep(c: Config, run: seq<Event>)
    requires IsRun(c, run) && c.depth > 0 && c.msgSize <= c.room
    ensures var threads := After(c, run).threads;
            Pledged(threads, true) == 0 && Pledged(threads, false) == 0 ==>
              !(SomeSleeps(threads, true) && SomeSleeps(threads, false))
  {
    RunsAreSound(c, run);
    NoLostWakeup(c, run);
  }

  // ---------------------------------------------------------------------------
  // Receivers with too little room
  // ---------------------------------------------------------------------------

  /** Two threads: when a receiver sleeps, nothing waits, or the other thread is about to wake it. */
  ghost predicate Paired(s: State) {
    && |s.threads| <= 2
    && forall i: nat {:trigger Sleeps(s.threads[i], true)} | i < |s.threads| ::
         Sleeps(s.threads[i], true) ==>
           || s.waiting == multiset{}
           || (i < 2 && 1 - i < |s.threads| && s.threads[1 - i].Signalling? && s.threads[1 - i].call.Send?)
  }

  /** What a step may do to the thread it moves, while another receiver sleeps. */
  lemma PairedPut(s: State, t: nat, th: Thread, waiting: multiset<nat>)
    requires Paired(s) && t < |s.threads|
    requires Sleeps(th, true) ==> waiting == multiset{}
    requires waiting == s.waiting || waiting == multiset{} || (th.Signalling? && th.call.Send?)
    requires s.threads[t].Signalling? && s.threads[t].call.Send? ==>
               s.waiting == multiset{} || !SomeSleeps(s.threads, true)
    ensures Paired(Put(s, t, th).(waiting := waiting))
  {
    var after := Put(s, t, th).(waiting := waiting);
    forall i: nat | i < |after.threads| && Sleeps(after.threads[i], true)
      ensures || after.waiting == multiset{}
              || (i < 2 && 1 - i < |after.threads|
                  && after.threads[1 - i].Signalling? && after.threads[1 - i].call.Send?)
    {
      if i != t {
        assert Sleeps(s.threads[i], true) && t == 1 - i;
      }
    }
  }

  lemma PairedAct(c: Config, s: State, e: Event)
    requires e.Act? && Paired(s) && Enabled(c, s, e)
    ensures Paired(Step(c, s, e))
  {
    var th, after := s.threads[e.t], Step(c, s, e);
    if after.waiting == s.waiting || th.call.Send? {
      PairedPut(s, e.t, after.threads[e.t], after.waiting);
      assert after.threads == Put(s, e.t, after.threads[e.t]).threads;
    } else {
      forall i: nat | i < |after.threads|
        ensures !Sleeps(after.threads[i], true)
      {
        if i != e.t {
          assert Sleeps(s.threads[i], true) ==> e.t == 1 - i;
        }
      }
    }
  }

  lemma PairedSignal(c: Config, s: State, e: Event)
    requires e.Signal? && Paired(s) && Enabled(c, s, e)
    ensures Paired(Step(c, s, e))
  {
    var after := Step(c, s, e);
    forall i: nat | i < |after.threads| && Sleeps(after.threads[i], true)
      ensures after.waiting == multiset{}
    {
      assert i != e.t && Sleeps(s.threads[i], true) && e.t == 1 - i;
    }
  }

  lemma PairedStep(c: Config, s: State, e: Event)
    requires Paired(s) && Enabled(c, s, e)
    ensures Paired(Step(c, s, e))
  {
    if e.Act? {
      PairedAct(c, s, e);
    } else if e.Signal? {
      PairedSignal(c, s, e);
    } else {
      PairedPut(s, e.t, Step(c, s, e).threads[e.t], s.waiting);
    }
  }

  lemma {:induction false} PairsAreNotStranded(c: Config, run: seq<Event>)
    requires IsRun(c, run) && c.threads <= 2
    ensures Paired(After(c, run))
  {
    if run == [] {
    } else {
      PairsAreNotStranded(c, run[..|run| - 1]);
      PairedStep(c, After(c, run[..|run| - 1]), run[|run| - 1]);
    }
  }

  lemma Extend(c: Config, run: seq<Event>, e: Event)
    requires IsRun(c, run) && Enabled(c, After(c, run), e)
    ensures IsRun(c, run + [e]) && After(c, run + [e]) == Step(c, After(c, run), e)
  {
    assert (run + [e])[..|run|] == run;
  }

  /** Some run leads to this state. */
  ghost predicate Reachable(c: Config, s: State) {
    exists run :: IsRun(c, run) && After(c, run) == s
  }

  lemma Onward(c: Config, s: State, e: Event, after: State)
    requires Reachable(c, s) && Enabled(c, s, e) && after == Step(c, s, e)
    ensures Reachable(c, after)
  {
    var run :| IsRun(c, run) && After(c, run) == s;
    Extend(c, run, e);
  }

  /** Three threads and some idle ones. */
  ghost function Trio(x: Thread, y: Thread, z: Thread, rest: seq<Thread>, lock: Lock, waiting: multiset<nat>): State {
    State([x, y, z] + rest, lock, waiting)
  }

  lemma TrioPut(x: Thread, y: Thread, z: Thread, rest: seq<Thread>, th: Thread)
    ensures ([x, y, z] + rest)[0 := th] == [th, y, z] + rest
    ensures ([x, y, z] + rest)[1 := th] == [x, th, z] + rest
    ensures ([x, y, z] + rest)[2 := th] == [x, y, th] + rest
  {
  }

  /** Two receivers with too little room fall asleep on an empty queue. */
  lemma TwoFallAsleep(c: Config) returns (rest: seq<Thread>)
    requires c.depth > 0 && c.threads > 2
    ensures |rest| == c.threads - 3 && forall i: nat | i < |rest| :: rest[i] == Outside
    ensures var r := Receive(c.room, true); Reachable(c, Trio(Asleep(r), Asleep(r), Outside, rest, Free, multiset{}))
  {
    var r, none := Receive(c.room, true), multiset{};
    rest := Idle(c.threads - 3);
    var s0 := Trio(Outside, Outside, Outside, rest, Free, none);
    assert Start(c) == s0;
    assert IsRun(c, []) && After(c, []) == s0;
    var s1 := Trio(AtLock(r, false), Outside, Outside, rest, Free, none);
    TrioPut(Outside, Outside, Outside, rest, AtLock(r, false));
    Onward(c, s0, Enter(0, r), s1);
    var s2 := Trio(Inside(r, false), Outside, Outside, rest, HeldBy(0), none);
    TrioPut(AtLock(r, false), Outside, Outside, rest, Inside(r, false));
    Onward(c, s1, Acquire(0), s2);
    var s3 := Trio(Asleep(r), Outside, Outside, rest, Free, none);
    TrioPut(Inside(r, false), Outside, Outside, rest, Asleep(r));
    Onward(c, s2, Act(0, 0), s3);
    var s4 := Trio(Asleep(r), AtLock(r, false), Outside, rest, Free, none);
    TrioPut(Asleep(r), Outside, Outside, rest, AtLock(r, false));
    Onward(c, s3, Enter(1, r), s4);
    var s5 := Trio(Asleep(r), Inside(r, false), Outside, rest, HeldBy(1), none);
    TrioPut(Asleep(r), AtLock(r, false), Outside, rest, Inside(r, false));
    Onward(c, s4, Acquire(1), s5);
    TrioPut(Asleep(r), Inside(r, false), Outside, rest, Asleep(r));
    Onward(c, s5, Act(1, 0), Trio(Asleep(r), Asleep(r), Outside, rest, Free, none));
  }

  /** A sender leaves a message of the greatest size and wakes the first of two sleeping receivers. */
  lemma OneIsWoken(c: Config, r: Call, rest: seq<Thread>)
    requires c.depth > 0 && r == Receive(c.room, true)
    requires Reachable(c, Trio(Asleep(r), Asleep(r), Outside, rest, Free, multiset{}))
    ensures Reachable(c, Trio(AtLock(r, true), Asleep(r), Outside, rest, Free, multiset{c.msgSize}))
  {
    var m, full := Send(c.msgSize, false), multiset{c.msgSize};
    var s0 := Trio(Asleep(r), Asleep(r), Outside, rest, Free, multiset{});
    var s1 := Trio(Asleep(r), Asleep(r), AtLock(m, false), rest, Free, multiset{});
    TrioPut(Asleep(r), Asleep(r), Outside, rest, AtLock(m, false));
    Onward(c, s0, Enter(2, m), s1);
    var s2 := Trio(Asleep(r), Asleep(r), Inside(m, false), rest, HeldBy(2), multiset{});
    TrioPut(Asleep(r), Asleep(r), AtLock(m, false), rest, Inside(m, false));
    Onward(c, s1, Acquire(2), s2);
    var s3 := Trio(Asleep(r), Asleep(r), Signalling(m), rest, HeldBy(2), full);
    TrioPut(Asleep(r), Asleep(r), Inside(m, false), rest, Signalling(m));
    Onward(c, s2, Act(2, 0), s3);
    var s4 := Trio(AtLock(r, true), Asleep(r), Leaving(m, QueueOk), rest, HeldBy(2), full);
    TrioPut(Asleep(r), Asleep(r), Signalling(m), rest, Leaving(m, QueueOk));
    TrioPut(Asleep(r), Asleep(r), Leaving(m, QueueOk), rest, AtLock(r, true));
    assert Sleeps(s3.threads[0], true);
    Onward(c, s3, Signal(2, 0), s4);
    TrioPut(AtLock(r, true), Asleep(r), Leaving(m, QueueOk), rest, Outside);
    Onward(c, s4, Release(2), Trio(AtLock(r, true), Asleep(r), Outside, rest, Free, full));
  }

  /** The woken receiver is turned away and passes the wakeup on to nobody. */
  lemma WakeupIsLost(c: Config, r: Call, rest: seq<Thread>)
    requires r == Receive(c.room, true) && c.room < c.msgSize
    requires Reachable(c, Trio(AtLock(r, true), Asleep(r), Outside, rest, Free, multiset{c.msgSize}))
    ensures Reachable(c, Trio(Outside, Asleep(r), Outside, rest, Free, multiset{c.msgSize}))
  {
    var full := multiset{c.msgSize};
    var s0 := Trio(AtLock(r, true), Asleep(r), Outside, rest, Free, full);
    var s1 := Trio(Inside(r, true), Asleep(r), Outside, rest, HeldBy(0), full);
    TrioPut(AtLock(r, true), Asleep(r), Outside, rest, Inside(r, true));
    Onward(c, s0, Acquire(0), s1);
    var s2 := Trio(Leaving(r, SizeMismatch), Asleep(r), Outside, rest, HeldBy(0), full);
    TrioPut(Inside(r, true), Asleep(r), Outside, rest, Leaving(r, SizeMismatch));
    Onward(c, s1, Act(0, c.msgSize), s2);
    TrioPut(Leaving(r, SizeMismatch), Asleep(r), Outside, rest, Outside);
    Onward(c, s2, Release(0), Trio(Outside, Asleep(r), Outside, rest, Free, full));
  }

  /** A receiver sleeps beside a waiting message, and nobody is left to wake it. */
  lemma StrandedReceiver(c: Config) returns (s: State)
    requires c.depth > 0 && c.threads > 2 && c.room < c.msgSize
    ensures Reachable(c, s) && !NobodyStranded(c, s)
  {
    var r := Receive(c.room, true);
    var rest := TwoFallAsleep(c);
    OneIsWoken(c, r, rest);
    WakeupIsLost(c, r, rest);
    s := Trio(Outside, Asleep(r), Outside, rest, Free, multiset{c.msgSize});
    assert Sleeps(s.threads[1], true);
    assert forall i: nat | i < |s.threads| :: s.threads[i].Outside? || s.threads[i].Asleep?;
  }

  ghost predicate NeverStranded(c: Config) {
    forall s | Reachable(c, s) :: NobodyStranded(c, s)
  }

  /**
   The queue never leaves a thread asleep that could proceed exactly when it holds nothing, or
   has two users at most, or all its blocking receivers have room for every message.
   */
  lemma NeverStrandedIffRoom(c: Config)
    ensures NeverStranded(c) <==> c.depth == 0 || c.threads <= 2 || c.msgSize <= c.room
  {
    if c.depth == 0 || c.threads <= 2 || c.msgSize <= c.room {
      forall s | Reachable(c, s)
        ensures NobodyStranded(c, s)
      {
        var run :| IsRun(c, run) && After(c, run) == s;
        RunsAreSound(c, run);
        NoLostWakeup(c, run);
        if c.threads <= 2 {
          PairsAreNotStranded(c, run);
        }
        if Still(s) {
          StillPledgesNothing(s.threads, true);
          StillPledgesNothing(s.threads, false);
        }
      }
    } else {
      var s := StrandedReceiver(c);
    }
  }
}
