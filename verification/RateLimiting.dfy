/** The rate limiter: lets a call through by count, by elapsed time, or by either. */
module RateLimiting {
  import opened FwTime
  import opened MachineWords

  const ORIGIN := Time(0, 0, 0, 0)

  datatype State = State(counter: nat, time: Time, atNegativeInfinity: bool)

  ghost const FRESH := State(0, ORIGIN, true)

  function Cycle(s: nat): Time {
    Time(0, 0, s, 0)
  }

  /** The next call stops at an assertion: it goes by time, and the stored time cannot be added to. */
  ghost predicate Asserts(n: nat, s: nat, st: State) {
    s > 0 && !(n > 0 && st.counter == 0) && !Addable(st.time, Cycle(s))
  }

  /** The decision of one call. */
  ghost predicate Decides(n: nat, s: nat, st: State, t: Time)
    requires s < WORD && !Asserts(n, s, st)
  {
    || (n == 0 && s == 0)
    || (n > 0 && st.counter == 0)
    || (s > 0 && (AtMost(Add(st.time, Cycle(s)), t) || st.atNegativeInfinity))
  }

  /** The state after one call. */
  ghost function Next(n: nat, s: nat, st: State, t: Time): State
    requires s < WORD && !Asserts(n, s, st)
  {
    var triggered := Decides(n, s, st, t);
    State(if n == 0 then st.counter
          else if triggered then 1
          else if (st.counter + 1) % WORD >= n then 0
          else (st.counter + 1) % WORD,
          if s > 0 && triggered then t else st.time,
          s == 0 && st.atNegativeInfinity)
  }

  /** The time cycle has passed since a call at time a when a call comes at time b. */
  ghost predicate Passed(a: Time, s: nat, b: Time) {
    Value(b) >= Value(a) + s * 1_000_000
  }

  lemma DueIsPassed(a: Time, s: nat, b: Time)
    requires Plain(a) && Plain(b) && a.seconds + s < WORD
    ensures AtMost(Add(a, Cycle(s)), b) <==> Passed(a, s, b)
  {
    AddIsSum(a, Cycle(s));
    CompareIsOrder(Add(a, Cycle(s)), b);
  }

  /** A first call with a time that cannot be added to triggers, and the second call stops at the assertion. */
  lemma ForeignTimeAsserts(n: nat, s: nat, t: Time)
    requires 0 < s < WORD && !Addable(t, Cycle(s))
    ensures Decides(n, s, FRESH, t) && Asserts(n, s, Next(n, s, FRESH, t))
  {
  }

  class RateLimiter {
    var counterCycle: nat
    var timeCycle: nat
    var counter: nat
    var time: Time
    var timeAtNegativeInfinity: bool

    ghost var times: seq<Time>         // the times of all calls so far

    ghost predicate InRange()
      reads this
    {
      counterCycle < WORD && timeCycle < WORD && counter < WORD && Storable(time)
    }

    /** As long as the times of the calls so far are usable, the state is the one that they lead to. */
    ghost predicate Valid()
      reads this
    {
      InRange() && (Usable(timeCycle, times) ==> View() == After(counterCycle, timeCycle, times))
    }

    ghost function View(): State
      reads this
    {
      State(counter, time, timeAtNegativeInfinity)
    }

    constructor Create(counterCycle: nat, timeCycle: nat)
      requires counterCycle < WORD && timeCycle < WORD
      ensures Valid() && View() == FRESH && times == []
      ensures this.counterCycle == counterCycle && this.timeCycle == timeCycle
    {
      this.counterCycle, this.timeCycle := counterCycle, timeCycle;
      counter, time, timeAtNegativeInfinity, times := 0, ORIGIN, true, [];
    }

    /**
     Between plain times, and without overflow of the seconds, a call is due exactly when the time
     cycle has passed since the stored time, or no call has come yet.
     */
    method ShouldTimeTrigger(t: Time) returns (b: bool)
      requires InRange() && timeCycle > 0 && Addable(time, Cycle(timeCycle))
      ensures timeAtNegativeInfinity ==> b
      ensures Plain(time) && Plain(t) && time.seconds + timeCycle < WORD && !timeAtNegativeInfinity ==>
                (b <==> Passed(time, timeCycle, t))
      ensures !SameClock(time, t) && !timeAtNegativeInfinity ==> !b
      ensures !Asserts(0, timeCycle, View()) && b == Decides(0, timeCycle, View(), t)
    {
      if Plain(time) && Plain(t) && time.seconds + timeCycle < WORD {
        DueIsPassed(time, timeCycle, t);
      }
      var nextTrigger := Add(time, Cycle(timeCycle));
      b := AtMost(nextTrigger, t) || timeAtNegativeInfinity;
    }

    method UpdateCounter(triggered: bool)
      requires InRange() && counterCycle > 0
      modifies `counter
      ensures InRange()
      ensures counter == if triggered then 1
                         else if (old(counter) + 1) % WORD >= counterCycle then 0
                         else (old(counter) + 1) % WORD
    {
      if triggered {
        counter := 1;
      } else {
        counter := (counter + 1) % WORD;
        if counter >= counterCycle {
          counter := 0;
        }
      }
    }

    method UpdateTime(triggered: bool, t: Time)
      requires timeCycle > 0
      modifies `time, `timeAtNegativeInfinity
      ensures !timeAtNegativeInfinity && time == if triggered then t else old(time)
    {
      if triggered {
        time := t;
      }
      timeAtNegativeInfinity := false;
    }

    /** trigger, without the record of its time. */
    method Decide(t: Time) returns (o: Outcome)
      requires InRange() && Storable(t)
      modifies `counter, `time, `timeAtNegativeInfinity
      ensures InRange()
      ensures o.Stopped? <==> Asserts(counterCycle, timeCycle, old(View()))
      ensures o.Stopped? ==> View() == old(View())
      ensures o.Decided? ==> o.ok == Decides(counterCycle, timeCycle, old(View()), t)
      ensures o.Decided? ==> View() == Next(counterCycle, timeCycle, old(View()), t)
    {
      if counterCycle == 0 && timeCycle == 0 {
        return Decided(true);
      }
      var triggered := false;
      if counterCycle > 0 {
        triggered := triggered || counter == 0;
      }
      if timeCycle > 0 && !triggered {
        if !Addable(time, Cycle(timeCycle)) {
          return Stopped;
        }
        triggered := ShouldTimeTrigger(t);
      }
      if counterCycle > 0 {
        UpdateCounter(triggered);
      }
      if timeCycle > 0 {
        UpdateTime(triggered, t);
      }
      return Decided(triggered);
    }

    /**
     Accepts any time; the assertion in Time::add stops it exactly when the state says so, and never
     after calls with usable times only.  Those are decided as the theorems on runs say.
     */
    method Trigger(t: Time) returns (o: Outcome)
      requires Valid() && Storable(t)
      modifies this
      ensures Valid() && counterCycle == old(counterCycle) && timeCycle == old(timeCycle)
      ensures times == old(times) + [t]
      ensures o.Stopped? <==> Asserts(counterCycle, timeCycle, old(View()))
      ensures o.Stopped? ==> View() == old(View())
      ensures o.Decided? ==> o.ok == Decides(counterCycle, timeCycle, old(View()), t)
      ensures o.Decided? ==> View() == Next(counterCycle, timeCycle, old(View()), t)
      ensures Usable(timeCycle, times) ==> o == Decided(LastTriggers(counterCycle, timeCycle, times))
    {
      OneMoreCall(counterCycle, timeCycle, times, t);
      o := Decide(t);
      times := times + [t];
    }
  }

  // ---------------------------------------------------------------------------
  // Whole runs from the fresh state
  // ---------------------------------------------------------------------------

  /** Times that the limiter accepts: any at all if it does not go by time. */
  ghost predicate Usable(s: nat, times: seq<Time>) {
    s > 0 ==> forall k: nat | k < |times| :: Plain(times[k])
  }

  ghost function After(n: nat, s: nat, times: seq<Time>): (st: State)
    requires s < WORD && Usable(s, times)
    ensures Plain(st.time)
  {
    if times == [] then FRESH else Next(n, s, After(n, s, times[..|times| - 1]), times[|times| - 1])
  }

  /** Whether the last of these calls triggers. */
  ghost predicate LastTriggers(n: nat, s: nat, times: seq<Time>)
    requires s < WORD && Usable(s, times) && times != []
  {
    Decides(n, s, After(n, s, times[..|times| - 1]), times[|times| - 1])
  }

  /** The number of the latest of these calls that triggered, or -1. */
  ghost function Latest(n: nat, s: nat, times: seq<Time>): (l: int)
    requires s < WORD && Usable(s, times)
    ensures -1 <= l < |times|
  {
    if times == [] then -1
    else if LastTriggers(n, s, times) then |times| - 1
    else Latest(n, s, times[..|times| - 1])
  }

  /** Calls from one trigger to the next by count alone: the counter cannot count to one only. */
  ghost function Period(n: nat): nat {
    if n == 1 then 2 else n
  }

  lemma OneMoreCall(n: nat, s: nat, times: seq<Time>, t: Time)
    requires s < WORD
    ensures Usable(s, times + [t]) ==>
              && Usable(s, times)
              && (LastTriggers(n, s, times + [t]) <==> Decides(n, s, After(n, s, times), t))
              && After(n, s, times + [t]) == Next(n, s, After(n, s, times), t)
  {
    var longer := times + [t];
    assert longer[..|times|] == times;
    assert forall k: nat | k < |times| :: times[k] == longer[k];
  }

  /** Counter, trigger time and history agree. */
  ghost predicate Tracks(n: nat, s: nat, times: seq<Time>)
    requires s < WORD && Usable(s, times)
  {
    var st, l := After(n, s, times), Latest(n, s, times);
    && (n > 0 || s > 0 ==> (l < 0 <==> times == []))
    && (n > 0 ==> |times| - l <= Period(n) + (if l < 0 then 1 else 0))
    && (n > 0 ==> st.counter == if l < 0 || |times| - l == Period(n) then 0 else |times| - l)
    && (s > 0 ==> (st.atNegativeInfinity <==> l < 0) && (l >= 0 ==> st.time == times[l]))
  }

  lemma {:induction false} RunsTrack(n: nat, s: nat, times: seq<Time>)
    requires n < WORD && s < WORD && Usable(s, times)
    ensures Tracks(n, s, times)
  {
    if times == [] {
    } else {
      RunsTrack(n, s, times[..|times| - 1]);
    }
  }

  /**
   Spacing: the first call triggers; a later call triggers exactly when it is the Period-th since
   the latest trigger or the time cycle has passed since then.
   */
  lemma Spacing(n: nat, s: nat, times: seq<Time>, t: Time)
    requires n < WORD && s < WORD && (n > 0 || s > 0) && Usable(s, times + [t])
    requires forall k: nat | k < |times| :: times[k].seconds + s < WORD
    ensures Usable(s, times)
    ensures LastTriggers(n, s, times + [t]) <==>
            (times == []
             || (n > 0 && |times| - Latest(n, s, times) == Period(n))
             || (s > 0 && Latest(n, s, times) >= 0 && Passed(times[Latest(n, s, times)], s, t)))
  {
    assert forall k: nat | k < |times| :: times[k] == (times + [t])[k];
    assert (times + [t])[..|times|] == times && (times + [t])[|times|] == t;
    RunsTrack(n, s, times);
    var l := Latest(n, s, times);
    if s > 0 && l >= 0 {
      DueIsPassed(times[l], s, t);
    }
  }

  /** By count alone, exactly the calls 0, Period, 2 Period, ... trigger. */
  lemma {:induction false} CountedCalls(n: nat, times: seq<Time>, q: nat, r: nat)
    requires 0 < n < WORD && times != []
    requires |times| - 1 == q * Period(n) + r && r < Period(n)
    ensures Latest(n, 0, times) == q * Period(n)
    ensures LastTriggers(n, 0, times) <==> r == 0
    decreases |times|
  {
    var before := times[..|times| - 1];
    RunsTrack(n, 0, before);
    if r > 0 {
      CountedCalls(n, before, q, r - 1);
    } else if q > 0 {
      assert q * Period(n) == (q - 1) * Period(n) + Period(n);
      CountedCalls(n, before, q - 1, Period(n) - 1);
    }
  }

  /** The latest call triggers exactly if it is a multiple of the cycle, counted from 0. */
  ghost predicate OnTheBeat(n: nat, times: seq<Time>)
    requires 0 < n < WORD && times != []
  {
    LastTriggers(n, 0, times) <==> (|times| - 1) % n == 0
  }

  lemma CallOnTheBeat(n: nat, times: seq<Time>)
    requires 1 < n < WORD && times != []
    ensures OnTheBeat(n, times)
  {
    var k := |times| - 1;
    var q, r := k / n, k % n;
    assert k == q * n + r;
    CountedCalls(n, times, q, r);
  }

  /** By count alone, every n-th call triggers and no other, unless the cycle is one. */
  lemma EveryNthCallIff(n: nat)
    requires 0 < n < WORD
    ensures (forall times: seq<Time> | times != [] :: OnTheBeat(n, times)) <==> n != 1
  {
    if n != 1 {
      forall times: seq<Time> | times != []
        ensures OnTheBeat(n, times)
      {
        CallOnTheBeat(n, times);
      }
    } else {
      var times := [ORIGIN, ORIGIN];
      CountedCalls(1, times, 0, 1);
      assert !OnTheBeat(n, times);
    }
  }
}
