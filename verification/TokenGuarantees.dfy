/**
 What the token bucket owes its callers: no credit is lost while the bucket is not full, a call is
 refused only soon after a granted one, and the number of grants up to a refused call is exact.
 */
module TokenGuarantees {
  import opened TokenBuckets
  import opened FwTime
  import opened MachineWords

  // ---------------------------------------------------------------------------
  // Credit
  // ---------------------------------------------------------------------------

  lemma {:induction false} PouredIsMore(s: Settings, st: State, t: Time)
    requires Sized(s) && s.rate > 0 && Addable(st.time, Interval(s))
    ensures Poured(s, st, t).tokens >= st.tokens
    decreases s.maxTokens - st.tokens
  {
    if st.tokens >= s.maxTokens || !AtMost(Add(st.time, Interval(s)), t) {
    } else {
      PouredIsMore(s, Turned(s, st), t);
    }
  }

  /** The loop turns credit into tokens one for one, up to the turn that fills the bucket. */
  lemma {:induction false} PouredKeepsCredit(s: Settings, st: State, t: Time, u: nat)
    requires Fine(s, st) && Plain(t) && Early(s, Value(t)) && s.rate > 0 && s.interval > 0 && Value(t) <= u
    requires Poured(s, st, t).tokens < s.maxTokens
    ensures Credit(s, Poured(s, st, t), u) == Credit(s, st, u)
    decreases s.maxTokens - st.tokens
  {
    TurnIff(s, st, t);
    OneInterval(s, st.time);
    if st.tokens >= s.maxTokens || Value(t) < Value(st.time) + s.interval {
    } else {
      PouredIsMore(s, Turned(s, st), t);
      CreditOfTurn(s, st, u);
      PouredKeepsCredit(s, Turned(s, st), t, u);
    }
  }

  /** A call that does not find the bucket full loses no credit. */
  lemma NoCreditLost(s: Settings, st: State, t: Time, u: nat)
    requires Fine(s, st) && Plain(t) && Early(s, Value(t)) && s.interval > 0 && Value(t) <= u
    requires Replenished(s, st, t).tokens < s.maxTokens
    ensures Credit(s, Replenished(s, st, t), u) == Credit(s, st, u)
  {
    if s.rate > 0 {
      PouredKeepsCredit(s, st, t, u);
    }
  }

  /** The bucket's time does not pass that of the call; a full bucket's time is that of the call. */
  lemma ReplenishedTime(s: Settings, st: State, t: Time)
    requires Fine(s, st) && Plain(t) && Early(s, Value(t)) && Value(st.time) <= Value(t)
    ensures Fine(s, Replenished(s, st, t)) && Value(Replenished(s, st, t).time) <= Value(t)
    ensures s.rate > 0 && Replenished(s, st, t).tokens >= s.maxTokens ==> Replenished(s, st, t).time == t
  {
    if s.rate > 0 {
      PouredTime(s, st, t);
      CompareIsOrder(Poured(s, st, t).time, t);
    }
  }

  /** A bucket that stays empty has not been touched, and its interval is not over. */
  lemma EmptyIsUntouched(s: Settings, st: State, t: Time)
    requires Fine(s, st) && Plain(t) && Early(s, Value(t)) && s.rate > 0 && s.maxTokens > 0
    requires Replenished(s, st, t).tokens == 0
    ensures Replenished(s, st, t) == st && Value(t) < Value(st.time) + s.interval
  {
    TurnIff(s, st, t);
    if Value(st.time) + s.interval <= Value(t) {
      PouredIsMore(s, Turned(s, st), t);
    }
    PouredIsMore(s, st, t);
  }

  // ---------------------------------------------------------------------------
  // Runs
  // ---------------------------------------------------------------------------

  /** Calls at these times and then at t: in order, none before `from`, and without overflow of the seconds. */
  ghost predicate InOrder(s: Settings, from: nat, times: seq<Time>, t: Time)
    decreases |times|
  {
    if times == [] then Plain(t) && Early(s, Value(t)) && from <= Value(t)
    else Plain(times[0]) && from <= Value(times[0]) && InOrder(s, Value(times[0]), times[1..], t)
  }

  lemma {:induction false} InOrderRuns(s: Settings, from: nat, times: seq<Time>, t: Time, st: State)
    requires InOrder(s, from, times, t) && Plain(st.time)
    ensures Plain(t) && Early(s, Value(t)) && from <= Value(t) && Runs(st, times)
    ensures times != [] ==> Early(s, Value(times[0])) && Value(times[0]) <= Value(t)
    decreases |times|
  {
    if times == [] {
    } else {
      InOrderRuns(s, Value(times[0]), times[1..], t, st);
      forall k: nat | k < |times|
        ensures Normal(times[k])
      {
        if k > 0 {
          assert Normal(times[1..][k - 1]);
        }
      }
    }
  }

  lemma InOrderFrom(s: Settings, from: nat, later: nat, times: seq<Time>, t: Time)
    requires InOrder(s, later, times, t) && from <= later
    ensures InOrder(s, from, times, t)
  {
  }

  /** After the first call the rest of the run is one of the bucket that it leaves. */
  lemma RestInOrder(s: Settings, st: State, times: seq<Time>, t: Time)
    requires Fine(s, st) && times != [] && InOrder(s, Value(st.time), times, t)
    ensures Plain(times[0]) && Early(s, Value(times[0])) && Value(times[0]) <= Value(t)
    ensures var next := Next(s, st, times[0]);
            && Fine(s, next) && Value(next.time) <= Value(times[0]) && InOrder(s, Value(next.time), times[1..], t)
            && Runs(st, times) && Runs(next, times[1..])
  {
    var next := Next(s, st, times[0]);
    InOrderRuns(s, Value(st.time), times, t, st);
    ReplenishedTime(s, st, times[0]);
    InOrderFrom(s, Value(next.time), Value(times[0]), times[1..], t);
    InOrderRuns(s, Value(next.time), times[1..], t, next);
  }

  /** Call number k of the run is granted. */
  ghost predicate GrantedAt(s: Settings, st: State, times: seq<Time>, k: nat)
    requires Sized(s) && Runs(st, times)
  {
    k < |times| && Runs(st, times[..k]) && Grants(s, After(s, st, times[..k]), times[k])
  }

  /** A call less than one interval before t was granted. */
  ghost predicate GrantedShortlyBefore(s: Settings, st: State, times: seq<Time>, t: Time)
    requires Sized(s) && Runs(st, times)
  {
    exists k: nat :: GrantedAt(s, st, times, k) && Value(t) < Value(times[k]) + s.interval
  }

  lemma GrantedLater(s: Settings, st: State, times: seq<Time>, t: Time)
    requires Sized(s) && Runs(st, times) && times != [] && Runs(Next(s, st, times[0]), times[1..])
    requires GrantedShortlyBefore(s, Next(s, st, times[0]), times[1..], t)
    ensures GrantedShortlyBefore(s, st, times, t)
  {
    var next, rest := Next(s, st, times[0]), times[1..];
    var k: nat :| GrantedAt(s, next, rest, k) && Value(t) < Value(rest[k]) + s.interval;
    var upTo := times[..k + 1];
    assert upTo[1..] == rest[..k] && upTo[0] == times[0];
    assert After(s, st, upTo) == After(s, next, rest[..k]);
    assert GrantedAt(s, st, times, k + 1);
  }

  /**
   With a rate and a capacity, and calls in order of time, a call is refused only if another call less
   than one interval before it was granted, or if the bucket started empty less than one interval before.
   */
  lemma {:induction false} RefusedOnlyAfterGrant(s: Settings, st: State, times: seq<Time>, t: Time)
    requires Fine(s, st) && s.rate > 0 && s.maxTokens > 0 && InOrder(s, Value(st.time), times, t)
    ensures Runs(st, times)
    ensures !Grants(s, After(s, st, times), t) ==>
              || GrantedShortlyBefore(s, st, times, t)
              || (st.tokens == 0 && Value(t) < Value(st.time) + s.interval)
    decreases |times|
  {
    InOrderRuns(s, Value(st.time), times, t, st);
    if Grants(s, After(s, st, times), t) {
    } else if times == [] {
      EmptyIsUntouched(s, st, t);
    } else {
      var next := Next(s, st, times[0]);
      RestInOrder(s, st, times, t);
      RefusedOnlyAfterGrant(s, next, times[1..], t);
      if GrantedShortlyBefore(s, next, times[1..], t) {
        GrantedLater(s, st, times, t);
      } else if Grants(s, st, times[0]) {
        assert times[..0] == [];
        assert GrantedAt(s, st, times, 0);
      } else {
        EmptyIsUntouched(s, st, times[0]);
      }
    }
  }

  // ---------------------------------------------------------------------------
  // Exact counts
  // ---------------------------------------------------------------------------

  /** Call number m of the run finds the bucket full, and from it on the tokens of the time since are used up. */
  ghost predicate UsedUpFromFull(s: Settings, st: State, times: seq<Time>, t: Time, m: nat)
    requires Sized(s) && Runs(st, times) && s.interval > 0
  {
    && m < |times| && Runs(st, times[..m])
    && var mid := After(s, st, times[..m]);
       && Runs(mid, times[m..])
       && Replenished(s, mid, times[m]).tokens >= s.maxTokens
       && Granted(s, mid, times[m..])
          == Replenished(s, mid, times[m]).tokens + s.rate * ((Value(t) - Value(times[m])) / s.interval)
  }

  /** The tokens of the start and of the time since are used up. */
  ghost predicate UsedUpFromStart(s: Settings, st: State, times: seq<Time>, t: Time)
    requires Sized(s) && Runs(st, times) && s.interval > 0
  {
    Granted(s, st, times) == st.tokens + s.rate * ((Value(t) - Value(st.time)) / s.interval)
  }

  lemma EmptyHasNoCredit(s: Settings, st: State, t: Time)
    requires Fine(s, st) && Plain(t) && Early(s, Value(t)) && s.interval > 0 && s.maxTokens > 0
    requires Replenished(s, st, t).tokens == 0
    ensures Credit(s, st, Value(t)) == 0
  {
    if s.rate > 0 {
      EmptyIsUntouched(s, st, t);
    } else {
      TokensIsProduct(0, Whole(Value(t) - Value(st.time), s.interval));
    }
  }

  lemma UsedUpLater(s: Settings, st: State, times: seq<Time>, t: Time, m: nat)
    requires Sized(s) && Runs(st, times) && s.interval > 0 && times != [] && Runs(Next(s, st, times[0]), times[1..])
    requires UsedUpFromFull(s, Next(s, st, times[0]), times[1..], t, m)
    ensures UsedUpFromFull(s, st, times, t, m + 1)
  {
    var next, rest := Next(s, st, times[0]), times[1..];
    var upTo := times[..m + 1];
    assert upTo[1..] == rest[..m] && upTo[0] == times[0];
    assert After(s, st, upTo) == After(s, next, rest[..m]);
    assert times[m + 1..] == rest[m..];
  }

  lemma UsedUpIsCredit(s: Settings, st: State, times: seq<Time>, t: Time)
    requires Sized(s) && Runs(st, times) && s.interval > 0 && Value(st.time) <= Value(t)
    ensures UsedUpFromStart(s, st, times, t) <==> Granted(s, st, times) == Credit(s, st, Value(t))
  {
    CreditIs(s, st, Value(t));
  }

  lemma FullUsesAll(s: Settings, st: State, times: seq<Time>, t: Time)
    requires Fine(s, st) && s.interval > 0 && times != [] && Runs(st, times)
    requires var r := Replenished(s, st, times[0]);
             && r.tokens >= s.maxTokens && r.time == times[0] && Value(times[0]) <= Value(t)
             && Granted(s, st, times) == Credit(s, r, Value(t))
    ensures UsedUpFromFull(s, st, times, t, 0)
  {
    assert times[..0] == [] && times[0..] == times;
    CreditIs(s, Replenished(s, st, times[0]), Value(t));
  }

  /** The first call uses what there is since the start, unless it finds the bucket full. */
  lemma UsedUpByFirst(s: Settings, st: State, times: seq<Time>, t: Time)
    requires Fine(s, st) && s.rate > 0 && s.interval > 0 && times != [] && InOrder(s, Value(st.time), times, t)
    requires Runs(st, times) && Runs(Next(s, st, times[0]), times[1..])
    requires UsedUpFromStart(s, Next(s, st, times[0]), times[1..], t)
    ensures UsedUpFromStart(s, st, times, t) || UsedUpFromFull(s, st, times, t, 0)
  {
    var x := times[0];
    RestInOrder(s, st, times, t);
    ReplenishedTime(s, st, x);
    UsedUpIsCredit(s, Next(s, st, x), times[1..], t);
    TakingUsesCredit(s, st, x, Value(t));
    if Replenished(s, st, x).tokens < s.maxTokens {
      NoCreditLost(s, st, x, Value(t));
      UsedUpIsCredit(s, st, times, t);
    } else {
      FullUsesAll(s, st, times, t);
    }
  }

  ghost predicate UsedUp(s: Settings, st: State, times: seq<Time>, t: Time)
    requires Sized(s) && Runs(st, times) && s.interval > 0
  {
    UsedUpFromStart(s, st, times, t) || exists m: nat :: UsedUpFromFull(s, st, times, t, m)
  }

  lemma UsedUpStep(s: Settings, st: State, times: seq<Time>, t: Time)
    requires Fine(s, st) && s.rate > 0 && s.interval > 0 && times != [] && InOrder(s, Value(st.time), times, t)
    requires Runs(st, times) && Runs(Next(s, st, times[0]), times[1..])
    requires UsedUp(s, Next(s, st, times[0]), times[1..], t)
    ensures UsedUp(s, st, times, t)
  {
    var next, rest := Next(s, st, times[0]), times[1..];
    if UsedUpFromStart(s, next, rest, t) {
      UsedUpByFirst(s, st, times, t);
    } else {
      var m: nat :| UsedUpFromFull(s, next, rest, t, m);
      UsedUpLater(s, st, times, t, m);
    }
  }

  /**
   Up to a refused call, the number of grants is exact: all tokens of the start and of the whole intervals
   since are used up, or else all that a full bucket held at some call and those of the intervals since.
   */
  lemma {:induction false} RefusedIsUsedUp(s: Settings, st: State, times: seq<Time>, t: Time)
    requires Fine(s, st) && s.rate > 0 && s.interval > 0 && s.maxTokens > 0 && InOrder(s, Value(st.time), times, t)
    ensures Runs(st, times)
    ensures !Grants(s, After(s, st, times), t) ==> UsedUp(s, st, times, t)
    decreases |times|
  {
    InOrderRuns(s, Value(st.time), times, t, st);
    if Grants(s, After(s, st, times), t) {
    } else if times == [] {
      EmptyHasNoCredit(s, st, t);
      UsedUpIsCredit(s, st, times, t);
    } else {
      RestInOrder(s, st, times, t);
      RefusedIsUsedUp(s, Next(s, st, times[0]), times[1..], t);
      UsedUpStep(s, st, times, t);
    }
  }
}
