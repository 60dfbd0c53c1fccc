/**
 The duty server: client threads that process text commands and one thread that sends the
 duty to the motor controller, sharing two variables under one lock.  Every access to a
 shared variable, every lock, unlock and send is a step of its own.
 */
module DutyServer {
  const MAX_DUTY: real := 0.05

  function Clamp(v: real): (r: real)
    ensures -MAX_DUTY <= r <= MAX_DUTY
  {
    if v > MAX_DUTY then MAX_DUTY else if v < -MAX_DUTY then -MAX_DUTY else v
  }

  ghost function Distance(a: real, b: real): real {
    if a < b then b - a else a - b
  }

  /** The permitted duty nearest to v: every other duty within five percent either way is further off. */
  lemma ClampIsNearest(v: real, d: real)
    requires -0.05 <= d <= 0.05 && d != Clamp(v)
    ensures -0.05 <= Clamp(v) <= 0.05 && Distance(v, Clamp(v)) < Distance(v, d)
  {
  }

  datatype Value = Number(v: real) | Unreadable

  datatype Command = Enable | Disable | Stop | Duty(value: Value) | Other

  /** A client thread; `Halfway` is between the two writes of a disable or stop command. */
  datatype Client = Listening | Wanting(cmd: Command) | Inside(cmd: Command) | Halfway | Leaving

  /** The sender thread, from the lock to the send. */
  datatype Sender = Resting | Locked | SawEnabled(b: bool) | Sampled(duty: real) | Ready(duty: real)

  datatype Lock = Free | ByClient(i: nat) | BySender

  /**
   What an observer of commands and of the serial line notes down, and also, when the sender takes
   its sample, the duty that counts at that moment.
   */
  datatype Mark = On | Off | Asked(duty: real) | Counts(duty: real) | Sent(duty: real)

  datatype State = State(clients: seq<Client>, sender: Sender, lock: Lock, enabled: bool, lastDuty: real,
                         running: bool, log: seq<Mark>)

  ghost const START := State([], Resting, Free, false, 0.0, true, [])

  datatype Event =
    | Accept
    | Hear(i: nat, cmd: Command)
    | LockClient(i: nat)
    | Write(i: nat)
    | UnlockClient(i: nat)
    | LockSender
    | ReadEnabled
    | ReadDuty
    | UnlockSender
    | Send
    | Shutdown

  ghost predicate Enabled(s: State, e: Event) {
    match e
    case Accept => true
    case Hear(i, _) => i < |s.clients| && s.clients[i].Listening?
    case LockClient(i) => i < |s.clients| && s.clients[i].Wanting? && s.lock.Free?
    case Write(i) => i < |s.clients| && (s.clients[i].Inside? || s.clients[i].Halfway?)
    case UnlockClient(i) => i < |s.clients| && s.clients[i].Leaving?
    case LockSender => s.sender.Resting? && s.running && s.lock.Free?
    case ReadEnabled => s.sender.Locked?
    case ReadDuty => s.sender.SawEnabled?
    case UnlockSender => s.sender.Sampled?
    case Send => s.sender.Ready?
    case Shutdown => true
  }

  /** The duty that counts. */
  ghost function Effective(s: State): real {
    if s.enabled then Clamp(s.lastDuty) else 0.0
  }

  /** One write of a client that holds the lock. */
  ghost function Written(s: State, i: nat): State
    requires Enabled(s, Write(i))
  {
    var t := s.(clients := s.clients[i := Leaving]);
    match s.clients[i]
    case Halfway => t.(lastDuty := 0.0)
    case Inside(cmd) =>
      match cmd
      case Enable => t.(enabled := true, log := s.log + [On])
      case Disable => s.(clients := s.clients[i := Halfway], enabled := false, log := s.log + [Off])
      case Stop => s.(clients := s.clients[i := Halfway], enabled := false, log := s.log + [Off])
      case Duty(value) =>
        if !value.Number? then t
        else
          var noted := t.(log := s.log + [Asked(value.v)]);
          if s.enabled then noted.(lastDuty := Clamp(value.v)) else noted
      case Other => t
  }

  ghost function Step(s: State, e: Event): State
    requires Enabled(s, e)
  {
    match e
    case Accept => s.(clients := s.clients + [Listening])
    case Hear(i, cmd) => s.(clients := s.clients[i := Wanting(cmd)])
    case LockClient(i) => s.(clients := s.clients[i := Inside(s.clients[i].cmd)], lock := ByClient(i))
    case Write(i) => Written(s, i)
    case UnlockClient(i) => s.(clients := s.clients[i := Listening], lock := Free)
    case LockSender => s.(sender := Locked, lock := BySender)
    case ReadEnabled => s.(sender := SawEnabled(s.enabled))
    case ReadDuty =>
      s.(sender := Sampled(if s.sender.b then Clamp(s.lastDuty) else 0.0), log := s.log + [Counts(Effective(s))])
    case UnlockSender => s.(sender := Ready(s.sender.duty), lock := Free)
    case Send => s.(sender := Resting, log := s.log + [Sent(s.sender.duty)])
    case Shutdown => s.(running := false)
  }

  ghost predicate IsRun(s: State, run: seq<Event>)
    decreases |run|, 0
  {
    run != [] ==>
      IsRun(s, run[..|run| - 1]) && Enabled(After(s, run[..|run| - 1]), run[|run| - 1])
  }

  ghost function After(s: State, run: seq<Event>): State
    requires IsRun(s, run)
    decreases |run|, 1
  {
    if run == [] then s else Step(After(s, run[..|run| - 1]), run[|run| - 1])
  }

  // ---------------------------------------------------------------------------
  // What every step keeps
  // ---------------------------------------------------------------------------

  ghost predicate ClientHolds(c: Client) {
    c.Inside? || c.Halfway? || c.Leaving?
  }

  ghost predicate SenderHolds(x: Sender) {
    x.Locked? || x.SawEnabled? || x.Sampled?
  }

  ghost predicate Exclusive(s: State) {
    && (s.lock.ByClient? ==> s.lock.i < |s.clients|)
    && (SenderHolds(s.sender) <==> s.lock == BySender)
    && forall i: nat {:trigger ClientHolds(s.clients[i])} | i < |s.clients| ::
         ClientHolds(s.clients[i]) <==> s.lock == ByClient(i)
  }

  /** A disable or stop command is between its two writes. */
  ghost predicate MidWrite(s: State) {
    s.lock.ByClient? && s.lock.i < |s.clients| && s.clients[s.lock.i].Halfway?
  }

  ghost predicate Within(d: real) {
    -0.05 <= d <= 0.05
  }

  ghost predicate Safe(s: State) {
    && Within(s.lastDuty) && (!s.enabled ==> s.lastDuty == 0.0 || MidWrite(s))
    && (MidWrite(s) ==> !s.enabled)
    && (s.sender.SawEnabled? ==> s.sender.b == s.enabled)
    && (s.sender.Sampled? ==> s.sender.duty == Effective(s))
    && (s.sender.Ready? ==> Within(s.sender.duty))
    && forall k: nat | k < |s.log| :: s.log[k].Sent? ==> Within(s.log[k].duty)
  }

  lemma ExclusivePut(s: State, i: nat, c: Client, lock: Lock, t: State)
    requires Exclusive(s) && i < |s.clients| && t == s.(clients := s.clients[i := c], lock := lock)
    requires lock == s.lock || (lock == Free && s.lock == ByClient(i)) || (lock == ByClient(i) && s.lock == Free)
    requires ClientHolds(c) <==> lock == ByClient(i)
    ensures Exclusive(t)
  {
    forall j: nat | j < |t.clients|
      ensures ClientHolds(t.clients[j]) <==> t.lock == ByClient(j)
    {
      assert ClientHolds(s.clients[j]) <==> s.lock == ByClient(j);
    }
  }

  lemma ExclusiveFrame(s: State, t: State)
    requires Exclusive(s) && t.clients == s.clients && t.lock == s.lock
    requires SenderHolds(t.sender) <==> SenderHolds(s.sender)
    ensures Exclusive(t)
  {
    forall j: nat | j < |t.clients|
      ensures ClientHolds(t.clients[j]) <==> t.lock == ByClient(j)
    {
      assert ClientHolds(s.clients[j]) <==> s.lock == ByClient(j);
    }
  }

  lemma ExclusiveSender(s: State, t: State, x: Sender, lock: Lock)
    requires Exclusive(s) && t == s.(sender := x, lock := lock)
    requires !s.lock.ByClient? && !lock.ByClient? && (SenderHolds(x) <==> lock == BySender)
    ensures Exclusive(t)
  {
    forall j: nat | j < |t.clients|
      ensures ClientHolds(t.clients[j]) <==> t.lock == ByClient(j)
    {
      assert ClientHolds(s.clients[j]) <==> s.lock == ByClient(j);
    }
  }

  lemma ExclusiveWrite(s: State, i: nat)
    requires Exclusive(s) && Enabled(s, Write(i))
    ensures Exclusive(Written(s, i)) && s.lock == ByClient(i)
  {
    var t := Written(s, i);
    assert ClientHolds(s.clients[i]) <==> s.lock == ByClient(i);
    var u := s.(clients := s.clients[i := t.clients[i]]);
    ExclusivePut(s, i, t.clients[i], s.lock, u);
    ExclusiveFrame(u, t);
  }

  lemma ExclusiveAccept(s: State)
    requires Exclusive(s)
    ensures Exclusive(Step(s, Accept))
  {
    var t := Step(s, Accept);
    forall j: nat | j < |t.clients|
      ensures ClientHolds(t.clients[j]) <==> t.lock == ByClient(j)
    {
      if j < |s.clients| {
        assert ClientHolds(s.clients[j]) <==> s.lock == ByClient(j);
      }
    }
  }

  lemma ExclusiveStep(s: State, e: Event)
    requires Exclusive(s) && Enabled(s, e)
    ensures Exclusive(Step(s, e))
  {
    var t := Step(s, e);
    match e
    case Accept => ExclusiveAccept(s);
    case Hear(i, cmd) =>
      assert ClientHolds(s.clients[i]) <==> s.lock == ByClient(i);
      ExclusivePut(s, i, Wanting(cmd), s.lock, t);
    case LockClient(i) => ExclusivePut(s, i, t.clients[i], ByClient(i), t);
    case Write(i) => ExclusiveWrite(s, i);
    case UnlockClient(i) =>
      assert ClientHolds(s.clients[i]) <==> s.lock == ByClient(i);
      ExclusivePut(s, i, Listening, Free, t);
    case LockSender => ExclusiveSender(s, t, Locked, BySender);
    case ReadEnabled => ExclusiveSender(s, t, t.sender, BySender);
    case ReadDuty =>
      ExclusiveSender(s, s.(sender := t.sender), t.sender, BySender);
      ExclusiveFrame(s.(sender := t.sender), t);
    case UnlockSender => ExclusiveSender(s, t, t.sender, Free);
    case Send => ExclusiveFrame(s, t);
    case Shutdown => ExclusiveFrame(s, t);
  }

  lemma SafeStep(s: State, e: Event)
    requires Exclusive(s) && Safe(s) && Enabled(s, e)
    ensures Safe(Step(s, e))
  {
    if e.Write? {
      ExclusiveWrite(s, e.i);
    } else if e.Hear? || e.LockClient? || e.UnlockClient? {
      assert ClientHolds(s.clients[e.i]) <==> s.lock == ByClient(e.i);
    }
  }

  // ---------------------------------------------------------------------------
  // Sends after switching off
  // ---------------------------------------------------------------------------

  /** The latest command noted down is a disable or stop, or there is none yet. */
  ghost predicate IsOff(log: seq<Mark>) {
    log == [] || (var m := log[|log| - 1]; m.Off? || (!m.On? && IsOff(log[..|log| - 1])))
  }

  /** The nonzero sends since the motor was switched off; none while it is on. */
  ghost function Late(log: seq<Mark>): nat {
    if log == [] then 0
    else
      var before, m := log[..|log| - 1], log[|log| - 1];
      match m
      case On => 0
      case Off => Late(before)
      case Asked(_) => Late(before)
      case Counts(_) => Late(before)
      case Sent(d) => if IsOff(before) && d != 0.0 then Late(before) + 1 else Late(before)
  }

  ghost predicate Pending(x: Sender) {
    x.Ready? && x.duty != 0.0
  }

  ghost predicate AtMostOneLate(s: State) {
    && (IsOff(s.log) <==> !s.enabled)
    && Late(s.log) + (if Pending(s.sender) then 1 else 0) <= (if s.enabled && Pending(s.sender) then 2 else 1)
    && (s.enabled ==> Late(s.log) == 0)
    && forall n: nat | n <= |s.log| :: Late(s.log[..n]) <= 1
  }

  lemma MoreLog(log: seq<Mark>, m: Mark)
    requires forall n: nat | n <= |log| :: Late(log[..n]) <= 1
    requires Late(log + [m]) <= 1
    ensures forall n: nat | n <= |log + [m]| :: Late((log + [m])[..n]) <= 1
  {
    var longer := log + [m];
    forall n: nat | n <= |longer|
      ensures Late(longer[..n]) <= 1
    {
      if n <= |log| {
        assert longer[..n] == log[..n];
      } else {
        assert longer[..n] == longer;
      }
    }
  }

  lemma LateOfMore(log: seq<Mark>, m: Mark)
    ensures (log + [m])[..|log|] == log
    ensures IsOff(log + [m]) <==> m.Off? || (!m.On? && IsOff(log))
    ensures Late(log + [m])
         == if m.On? then 0 else if m.Sent? && IsOff(log) && m.duty != 0.0 then Late(log) + 1 else Late(log)
  {
    assert (log + [m])[..|log|] == log;
  }

  ghost predicate NotesAsked(s: State, t: State) {
    |s.log| < |t.log| && t.log[|s.log|].Asked? && t.log == s.log + [t.log[|s.log|]]
  }

  /** What a step notes down, and what it cannot do without noting it down. */
  lemma NotedDown(s: State, e: Event)
    requires Enabled(s, e)
    ensures var t := Step(s, e);
            || (t.log == s.log && (t.enabled ==> s.enabled))
            || (t.log == s.log + [On])
            || (NotesAsked(s, t) && t.enabled == s.enabled)
            || (t.log == s.log + [Off] && !t.enabled)
            || (t.log == s.log + [Counts(Effective(s))] && t.enabled == s.enabled)
            || (s.sender.Ready? && t.log == s.log + [Sent(s.sender.duty)] && t.enabled == s.enabled)
  {
  }

  lemma LateUnnoted(s: State, e: Event)
    requires Exclusive(s) && Safe(s) && AtMostOneLate(s) && Enabled(s, e) && Step(s, e).log == s.log
    ensures AtMostOneLate(Step(s, e))
  {
  }

  lemma LateNoted(s: State, e: Event, m: Mark)
    requires Exclusive(s) && Safe(s) && AtMostOneLate(s) && Enabled(s, e) && Step(s, e).log == s.log + [m]
    ensures AtMostOneLate(Step(s, e))
  {
    LateOfMore(s.log, m);
    MoreLog(s.log, m);
  }

  lemma LateStep(s: State, e: Event)
    requires Exclusive(s) && Safe(s) && AtMostOneLate(s) && Enabled(s, e)
    ensures AtMostOneLate(Step(s, e))
  {
    NotedDown(s, e);
    var t := Step(s, e);
    if t.log == s.log {
      LateUnnoted(s, e);
    } else {
      LateNoted(s, e, t.log[|s.log|]);
    }
  }

  // ---------------------------------------------------------------------------
  // Sends and samples
  // ---------------------------------------------------------------------------

  /** The latest sample noted down was taken when this duty counted. */
  ghost predicate LatestCounts(log: seq<Mark>, d: real) {
    log != [] && (var m := log[|log| - 1]; if m.Counts? then m.duty == d else LatestCounts(log[..|log| - 1], d))
  }

  /** Whatever is sent, or about to be sent, is the duty that counted at the latest sample. */
  ghost predicate Traced(s: State) {
    && (s.sender.Sampled? || s.sender.Ready? ==> LatestCounts(s.log, s.sender.duty))
    && forall k: nat {:trigger s.log[k]} | k < |s.log| && s.log[k].Sent? :: LatestCounts(s.log[..k], s.log[k].duty)
  }

  lemma TracedMore(log: seq<Mark>, m: Mark)
    requires forall k: nat {:trigger log[k]} | k < |log| && log[k].Sent? :: LatestCounts(log[..k], log[k].duty)
    requires m.Sent? ==> LatestCounts(log, m.duty)
    ensures var t := log + [m];
            forall k: nat {:trigger t[k]} | k < |t| && t[k].Sent? :: LatestCounts(t[..k], t[k].duty)
  {
    var t := log + [m];
    assert t[..|log|] == log;
    forall k: nat | k < |t| && t[k].Sent?
      ensures LatestCounts(t[..k], t[k].duty)
    {
      if k < |log| {
        assert t[..k] == log[..k] && t[k] == log[k];
      }
    }
  }

  lemma LatestOfMore(log: seq<Mark>, m: Mark, d: real)
    ensures LatestCounts(log + [m], d) <==> if m.Counts? then m.duty == d else LatestCounts(log, d)
  {
    assert (log + [m])[..|log|] == log;
  }

  /** A sample or a pending send comes from the sender's own steps only. */
  lemma SenderMovesItself(s: State, e: Event)
    requires Enabled(s, e) && Safe(s)
    ensures var x, t := s.sender, Step(s, e);
            || (t.sender == x
                && (t.log == s.log || t.log == s.log + [On] || t.log == s.log + [Off] || NotesAsked(s, t)))
            || (t.log == s.log && !t.sender.Sampled? && !t.sender.Ready?)
            || (t.log == s.log && x.Sampled? && t.sender == Ready(x.duty))
            || (t.log == s.log + [Counts(Effective(s))] && t.sender == Sampled(Effective(s)))
            || (x.Ready? && t.log == s.log + [Sent(x.duty)] && t.sender == Resting)
  {
  }

  lemma TracedStep(s: State, e: Event)
    requires Safe(s) && Traced(s) && Enabled(s, e)
    ensures Traced(Step(s, e))
  {
    var t := Step(s, e);
    SenderMovesItself(s, e);
    if t.log != s.log {
      var m := t.log[|s.log|];
      TracedMore(s.log, m);
      if t.sender.Sampled? || t.sender.Ready? {
        LatestOfMore(s.log, m, t.sender.duty);
      }
    }
  }

  // ---------------------------------------------------------------------------
  // Commands and samples
  // ---------------------------------------------------------------------------

  /** The duty asked for: the permitted one nearest to the latest request made while on, and zero from off on. */
  ghost function Commanded(log: seq<Mark>): real {
    if log == [] then 0.0
    else
      var before, m := log[..|log| - 1], log[|log| - 1];
      match m
      case Off => 0.0
      case Asked(v) => if IsOff(before) then Commanded(before) else Clamp(v)
      case _ => Commanded(before)
  }

  /** What the motor may get after these commands. */
  ghost function Permitted(log: seq<Mark>): real {
    if IsOff(log) then 0.0 else Commanded(log)
  }

  lemma {:induction false} OffCommandsNothing(log: seq<Mark>)
    requires IsOff(log)
    ensures Commanded(log) == 0.0
  {
    if log == [] {
    } else if log[|log| - 1].Off? {
    } else {
      OffCommandsNothing(log[..|log| - 1]);
    }
  }

  lemma CommandedMore(log: seq<Mark>, m: Mark)
    ensures Commanded(log + [m]) ==
            match m case Off => 0.0 case Asked(v) => if IsOff(log) then Commanded(log) else Clamp(v)
                    case _ => Commanded(log)
  {
    assert (log + [m])[..|log|] == log;
  }

  /** Every sample noted down is the duty permitted by the commands before it. */
  ghost predicate Samples(log: seq<Mark>) {
    forall k: nat {:trigger log[k]} | k < |log| && log[k].Counts? :: log[k].duty == Permitted(log[..k])
  }

  ghost predicate Obeys(s: State) {
    (!MidWrite(s) ==> s.lastDuty == Commanded(s.log)) && Samples(s.log)
  }

  lemma SamplesMore(log: seq<Mark>, m: Mark)
    requires Samples(log) && (m.Counts? ==> m.duty == Permitted(log))
    ensures Samples(log + [m])
  {
    var t := log + [m];
    assert t[..|log|] == log;
    forall k: nat | k < |t| && t[k].Counts?
      ensures t[k].duty == Permitted(t[..k])
    {
      if k < |log| {
        assert t[..k] == log[..k] && t[k] == log[k];
      }
    }
  }

  /** What a step does to the stored duty, and what it notes down with that. */
  lemma StoredDuty(s: State, e: Event)
    requires Exclusive(s) && Safe(s) && Enabled(s, e)
    ensures var t := Step(s, e);
            || (t.log == s.log && t.lastDuty == s.lastDuty && MidWrite(t) == MidWrite(s))
            || (t.log == s.log && t.lastDuty == 0.0 && MidWrite(s) && !MidWrite(t))
            || (t.log == s.log + [On] && t.lastDuty == s.lastDuty && !MidWrite(s) && !MidWrite(t))
            || (t.log == s.log + [Off] && MidWrite(t))
            || (NotesAsked(s, t) && !MidWrite(s) && !MidWrite(t)
                && t.lastDuty == if s.enabled then Clamp(t.log[|s.log|].duty) else s.lastDuty)
            || (t.log == s.log + [Counts(Effective(s))] && t.lastDuty == s.lastDuty && MidWrite(t) == MidWrite(s))
            || (s.sender.Ready? && t.log == s.log + [Sent(s.sender.duty)] && t.lastDuty == s.lastDuty
                && MidWrite(t) == MidWrite(s))
  {
    if e.Write? {
      ExclusiveWrite(s, e.i);
    } else if e.Hear? || e.LockClient? || e.UnlockClient? {
      assert ClientHolds(s.clients[e.i]) <==> s.lock == ByClient(e.i);
    }
  }

  lemma ObeysStep(s: State, e: Event)
    requires Exclusive(s) && Safe(s) && AtMostOneLate(s) && Obeys(s) && Enabled(s, e)
    ensures Obeys(Step(s, e))
  {
    var t := Step(s, e);
    StoredDuty(s, e);
    if t.log != s.log {
      var m := t.log[|s.log|];
      CommandedMore(s.log, m);
      SamplesMore(s.log, m);
    } else if IsOff(s.log) {
      OffCommandsNothing(s.log);
    }
  }

  ghost predicate Inv(s: State) {
    Exclusive(s) && Safe(s) && AtMostOneLate(s) && Traced(s) && Obeys(s)
  }

  lemma {:induction false} RunsKeepInv(s: State, run: seq<Event>)
    requires Inv(s) && IsRun(s, run)
    ensures Inv(After(s, run))
  {
    if run == [] {
    } else {
      var before, e := run[..|run| - 1], run[|run| - 1];
      RunsKeepInv(s, before);
      ExclusiveStep(After(s, before), e);
      SafeStep(After(s, before), e);
      LateStep(After(s, before), e);
      TracedStep(After(s, before), e);
      ObeysStep(After(s, before), e);
    }
  }

  ghost predicate Reachable(s: State) {
    exists run :: IsRun(START, run) && After(START, run) == s
  }

  lemma ReachableInv(s: State)
    requires Reachable(s)
    ensures Inv(s)
  {
    var run :| IsRun(START, run) && After(START, run) == s;
    RunsKeepInv(START, run);
  }

  /**
   Switched off means no duty, up to the second write of the command that switches off; every value
   sent is within the limit and is the duty that counted when the sender last took its sample.
   */
  lemma DutyIsSafe(s: State)
    requires Reachable(s)
    ensures !s.enabled ==> s.lastDuty == 0.0 || MidWrite(s)
    ensures s.sender.Sampled? ==> s.sender.duty == Effective(s)
    ensures forall k: nat | k < |s.log| && s.log[k].Sent? ::
              Within(s.log[k].duty) && LatestCounts(s.log[..k], s.log[k].duty)
  {
    ReachableInv(s);
  }

  /** A sent value is the one of the latest sample, which is what the commands before that sample permit. */
  ghost predicate SentAsCommanded(log: seq<Mark>, k: nat)
    requires k < |log| && log[k].Sent?
  {
    exists j: nat :: j < k && log[j] == Counts(log[k].duty) && log[k].duty == Permitted(log[..j])
                     && forall i: nat | j < i < k :: !log[i].Counts?
  }

  lemma {:induction false} LatestSample(log: seq<Mark>, n: nat, d: real) returns (j: nat)
    requires n <= |log| && LatestCounts(log[..n], d)
    ensures j < n && log[j] == Counts(d) && forall i: nat | j < i < n :: !log[i].Counts?
  {
    assert log[..n][..n - 1] == log[..n - 1];
    if log[n - 1].Counts? {
      j := n - 1;
    } else {
      j := LatestSample(log, n - 1, d);
    }
  }

  /**
   Every value sent is what the commands before the latest sample permit: nothing while off, and otherwise
   the permitted duty nearest to the latest one asked for since the motor was last off.
   */
  lemma SendsFollowCommands(s: State)
    requires Reachable(s)
    ensures forall k: nat | k < |s.log| && s.log[k].Sent? :: SentAsCommanded(s.log, k)
  {
    ReachableInv(s);
    forall k: nat | k < |s.log| && s.log[k].Sent?
      ensures SentAsCommanded(s.log, k)
    {
      var j := LatestSample(s.log, k, s.log[k].duty);
      assert s.log[j].duty == Permitted(s.log[..j]);
    }
  }

  ghost function NonzeroSends(log: seq<Mark>): nat {
    if log == [] then 0
    else NonzeroSends(log[..|log| - 1]) + (var m := log[|log| - 1]; if m.Sent? && m.duty != 0.0 then 1 else 0)
  }

  lemma {:induction false} SendsAreLate(log: seq<Mark>, from: nat, end: nat)
    requires from < end <= |log| && log[from].Off?
    requires forall k: nat | from <= k < end :: !log[k].On?
    ensures IsOff(log[..end]) && NonzeroSends(log[from..end]) <= Late(log[..end])
    decreases end
  {
    assert log[..end][..end - 1] == log[..end - 1];
    assert log[from..end][..end - from - 1] == log[from..end - 1];
    if end - 1 > from {
      SendsAreLate(log, from, end - 1);
    } else {
      assert log[from..end - 1] == [];
    }
  }

  /** Between a disable or stop command and the next enable, at most one nonzero duty is sent. */
  lemma AtMostOneSendAfterOff(s: State, from: nat, end: nat)
    requires Reachable(s) && from < end <= |s.log| && s.log[from].Off?
    requires forall k: nat | from <= k < end :: !s.log[k].On?
    ensures NonzeroSends(s.log[from..end]) <= 1
  {
    ReachableInv(s);
    SendsAreLate(s.log, from, end);
  }

  /** No enable command takes effect in this run. */
  ghost predicate StaysOff(s: State, run: seq<Event>)
    requires IsRun(s, run)
  {
    forall k: nat | |s.log| <= k < |After(s, run).log| :: !After(s, run).log[k].On?
  }

  ghost predicate NothingSent(s: State, run: seq<Event>)
    requires IsRun(s, run)
  {
    var log := After(s, run).log;
    forall k: nat | |s.log| <= k < |log| :: log[k].Sent? ==> log[k].duty == 0.0
  }

  lemma QuietStep(s: State, e: Event)
    requires Safe(s) && !s.enabled && !Pending(s.sender) && Enabled(s, e)
    ensures var t := Step(s, e); !t.enabled ==> !Pending(t.sender)
  {
  }

  lemma {:induction false} QuietStays(s: State, run: seq<Event>)
    requires Inv(s) && !s.enabled && !Pending(s.sender) && IsRun(s, run) && StaysOff(s, run)
    ensures NothingSent(s, run) && !After(s, run).enabled && !Pending(After(s, run).sender)
    ensures |After(s, run).log| >= |s.log|
  {
    if run == [] {
    } else {
      var before, e := run[..|run| - 1], run[|run| - 1];
      var b, a := After(s, before), After(s, run);
      NotedDown(b, e);
      assert StaysOff(s, before) by {
        assert forall k: nat | k < |b.log| :: b.log[k] == a.log[k];
      }
      QuietStays(s, before);
      RunsKeepInv(s, before);
      assert a.log == b.log || (|a.log| == |b.log| + 1 && !a.log[|b.log|].On?);
      QuietStep(b, e);
    }
  }

  /**
   Switching off takes effect at once, in every continuation without an enable, exactly when the
   sender is not already on its way with a nonzero sample.
   */
  lemma OffIsImmediateIff(s: State)
    requires Reachable(s) && !s.enabled
    ensures (forall run | IsRun(s, run) && StaysOff(s, run) :: NothingSent(s, run)) <==> !Pending(s.sender)
  {
    ReachableInv(s);
    if Pending(s.sender) {
      var run := [Send];
      assert run[..0] == [];
      assert IsRun(s, []) && After(s, []) == s;
      assert IsRun(s, run) && After(s, run).log == s.log + [Sent(s.sender.duty)];
      assert StaysOff(s, run);
      assert After(s, run).log[|s.log|] == Sent(s.sender.duty);
    } else {
      forall run | IsRun(s, run) && StaysOff(s, run)
        ensures NothingSent(s, run)
      {
        QuietStays(s, run);
      }
    }
  }

  /** One more step from a reachable state. */
  lemma Go(s: State, e: Event) returns (t: State)
    requires Reachable(s) && Enabled(s, e)
    ensures t == Step(s, e) && Reachable(t)
  {
    var run :| IsRun(START, run) && After(START, run) == s;
    var longer := run + [e];
    assert longer[..|longer| - 1] == run;
    assert IsRun(START, longer) && After(START, longer) == Step(s, e);
    t := Step(s, e);
  }

  lemma Listen(s: State, cmd: Command) returns (t: State)
    requires Reachable(s) && s.clients == [Listening]
    ensures Reachable(t) && t == s.(clients := [Wanting(cmd)])
  {
    t := Go(s, Hear(0, cmd));
    assert t.clients == [Wanting(cmd)];
  }

  /** The only client hears a command and takes the lock. */
  lemma Begin(s: State, cmd: Command) returns (t: State)
    requires Reachable(s) && s.clients == [Listening] && s.lock.Free?
    ensures Reachable(t) && t == s.(clients := [Inside(cmd)], lock := ByClient(0))
  {
    t := Listen(s, cmd);
    t := Go(t, LockClient(0));
    assert t.clients == [Inside(cmd)];
  }

  /** It writes for the last time and gives the lock back. */
  lemma Finish(s: State) returns (t: State)
    requires Reachable(s) && Enabled(s, Write(0)) && |s.clients| == 1 && Written(s, 0).clients[0].Leaving?
    ensures Reachable(t) && t == Written(s, 0).(clients := [Listening], lock := Free)
  {
    t := Go(s, Write(0));
    t := Go(t, UnlockClient(0));
    assert t.clients == [Listening];
  }

  lemma SwitchOn(s: State) returns (t: State)
    requires Reachable(s) && s.clients == [Listening] && s.lock.Free?
    ensures Reachable(t) && t == s.(enabled := true, log := s.log + [On])
  {
    t := Begin(s, Enable);
    t := Finish(t);
  }

  lemma SetDuty(s: State, v: real) returns (t: State)
    requires Reachable(s) && s.clients == [Listening] && s.lock.Free? && s.enabled
    ensures Reachable(t) && t == s.(lastDuty := Clamp(v), log := s.log + [Asked(v)])
  {
    t := Begin(s, Duty(Number(v)));
    t := Finish(t);
  }

  lemma SwitchOff(s: State, cmd: Command) returns (t: State)
    requires Reachable(s) && s.clients == [Listening] && s.lock.Free? && (cmd.Stop? || cmd.Disable?)
    ensures Reachable(t) && t == s.(enabled := false, lastDuty := 0.0, log := s.log + [Off])
  {
    t := Begin(s, cmd);
    t := Go(t, Write(0));
    assert t.clients == [Halfway];
    t := Finish(t);
  }

  /** The sender takes its sample. */
  lemma Sample(s: State) returns (t: State)
    requires Reachable(s) && s.sender.Resting? && s.running && s.lock.Free?
    ensures Reachable(t)
    ensures t == s.(sender := Ready(Effective(s)), log := s.log + [Counts(Effective(s))])
  {
    t := Go(s, LockSender);
    t := Go(t, ReadEnabled);
    t := Go(t, ReadDuty);
    t := Go(t, UnlockSender);
  }

  /**
   Any nonzero duty can be on its way when a command to stop or disable has been carried out in
   full, and is then sent after it.
   */
  lemma LateSend(v: real, cmd: Command) returns (s: State, t: State)
    requires Clamp(v) != 0.0 && (cmd.Stop? || cmd.Disable?)
    ensures Reachable(s) && !s.enabled && s.lastDuty == 0.0 && s.lock.Free? && Pending(s.sender)
    ensures Reachable(t) && Enabled(s, Send) && t == Step(s, Send)
    ensures t.log == [On, Asked(v), Counts(Clamp(v)), Off, Sent(Clamp(v))] && NonzeroSends(t.log[3..]) == 1
  {
    assert IsRun(START, []) && After(START, []) == START;
    s := Go(START, Accept);
    assert s.clients == [Listening];
    s := SwitchOn(s);
    s := SetDuty(s, v);
    s := Sample(s);
    s := SwitchOff(s, cmd);
    t := Go(s, Send);
    var late := t.log[3..];
    assert late == [Off, Sent(Clamp(v))] && late[..1] == [Off] && [Off][..0] == [];
    assert NonzeroSends([Off]) == 0;
  }
}
