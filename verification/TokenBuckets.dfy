/** The token bucket: a call takes a token if there is one; tokens come back as time passes. */
module TokenBuckets {
  import opened FwTime
  import opened MachineWords

  /** Interval in microseconds, capacity, and tokens per interval; all 32-bit. */
  datatype Settings = Settings(interval: nat, maxTokens: nat, rate: nat)

  datatype State = State(tokens: nat, time: Time)

  ghost predicate Sized(s: Settings) {
    s.interval < WORD && s.maxTokens < WORD && s.rate < WORD
  }

  function Interval(s: Settings): Time {
    Time(0, 0, s.interval / MILLION, s.interval % MILLION)
  }

  function Min(a: nat, b: nat): nat {
    if a < b then a else b
  }

  /** The next call stops at an assertion: it replenishes, and the bucket's time cannot be added to. */
  ghost predicate Asserts(s: Settings, st: State) {
    s.rate > 0 && !Addable(st.time, Interval(s))
  }

  /** One turn of the replenishing loop. */
  ghost function Turned(s: Settings, st: State): State
    requires st.tokens < s.maxTokens && Addable(st.time, Interval(s))
  {
    State(st.tokens + Min(s.rate, s.maxTokens - st.tokens), Add(st.time, Interval(s)))
  }

  /** The replenishing loop; once an interval has been added, it always can be. */
  ghost function Poured(s: Settings, st: State, t: Time): (r: State)
    requires Sized(s) && s.rate > 0 && Addable(st.time, Interval(s))
    ensures Addable(r.time, Interval(s)) && (r == st || Plain(r.time))
    decreases s.maxTokens - st.tokens
  {
    if st.tokens < s.maxTokens && AtMost(Add(st.time, Interval(s)), t)
    then Poured(s, Turned(s, st), t)
    else st
  }

  /** Everything that a call does before it takes a token. */
  ghost function Replenished(s: Settings, st: State, t: Time): (r: State)
    requires Sized(s) && !Asserts(s, st)
    ensures Plain(st.time) && Normal(t) ==> Plain(r.time)
  {
    if s.rate == 0 then st
    else
      var r := Poured(s, st, t);
      if r.tokens >= s.maxTokens && Compare(r.time, t).LT? then State(r.tokens, t) else r
  }

  ghost predicate Grants(s: Settings, st: State, t: Time)
    requires Sized(s) && !Asserts(s, st)
  {
    Replenished(s, st, t).tokens > 0
  }

  ghost function Next(s: Settings, st: State, t: Time): (r: State)
    requires Sized(s) && !Asserts(s, st)
    ensures Plain(st.time) && Normal(t) ==> Plain(r.time)
  {
    var r := Replenished(s, st, t);
    if r.tokens > 0 then State(r.tokens - 1, r.time) else r
  }

  /** A start time of another clock is accepted; then every call stops, unless nothing is ever replenished. */
  lemma ForeignStartAsserts(s: Settings, st: State)
    requires !SameClock(st.time, Time(0, 0, 0, 0))
    ensures Asserts(s, st) <==> s.rate > 0
  {
  }

  class TokenBucket {
    var replenishInterval: nat
    var maxTokens: nat
    var replenishRate: nat
    var tokens: nat
    var time: Time

    ghost var origin: State            // at the start, or after the latest replenish
    ghost var times: seq<Time>         // the times of all calls since then
    ghost var granted: nat             // how many of them were granted

    ghost function Current(): Settings
      reads this
    {
      Settings(replenishInterval, maxTokens, replenishRate)
    }

    ghost function View(): State
      reads this
    {
      State(tokens, time)
    }

    ghost predicate InRange()
      reads this
    {
      Sized(Current()) && tokens < WORD && Storable(time)
    }

    /** After calls with normal times from a plain start, the state and the number of grants are those of the run. */
    ghost predicate Valid()
      reads this
    {
      && InRange()
      && (Runs(origin, times) ==>
            View() == After(Current(), origin, times) && granted == Granted(Current(), origin, times))
    }

    constructor Full(replenishInterval: nat, maxTokens: nat, replenishRate: nat, startTokens: nat, startTime: Time)
      requires Sized(Settings(replenishInterval, maxTokens, replenishRate)) && startTokens < WORD && Storable(startTime)
      ensures Valid() && Current() == Settings(replenishInterval, maxTokens, replenishRate)
      ensures View() == State(startTokens, startTime) == origin && times == []
    {
      this.replenishInterval, this.maxTokens, this.replenishRate := replenishInterval, maxTokens, replenishRate;
      tokens, time := startTokens, startTime;
      origin, times, granted := State(startTokens, startTime), [], 0;
    }

    /** The source asserts the bound on the capacity. */
    constructor Simple(replenishInterval: nat, maxTokens: nat)
      requires replenishInterval < WORD && maxTokens <= 1000
      ensures Valid() && Current() == Settings(replenishInterval, maxTokens, 1)
      ensures View() == State(maxTokens, Time(0, 0, 0, 0)) == origin && times == []
    {
      this.replenishInterval, this.maxTokens, replenishRate := replenishInterval, maxTokens, 1;
      tokens, time := maxTokens, Time(0, 0, 0, 0);
      origin, times, granted := State(maxTokens, Time(0, 0, 0, 0)), [], 0;
    }

    method Replenish()
      requires Valid()
      modifies `tokens, `origin, `times, `granted
      ensures Valid() && tokens >= maxTokens && (old(tokens) >= maxTokens ==> tokens == old(tokens))
      ensures old(tokens) < maxTokens ==> tokens == maxTokens
      ensures origin == View() && times == []
    {
      if tokens < maxTokens {
        tokens := maxTokens;
      }
      origin, times, granted := State(tokens, time), [], 0;
    }

    /** The replenishing part of trigger. */
    method Pour(t: Time)
      requires InRange() && Storable(t) && !Asserts(Current(), View())
      modifies `tokens, `time
      ensures InRange() && View() == Replenished(Current(), old(View()), t)
    {
      if replenishRate > 0 {
        var interval := Interval(Settings(replenishInterval, maxTokens, replenishRate));
        var nextTime := Add(time, interval);
        while tokens < maxTokens && AtMost(nextTime, t)
          invariant InRange() && Addable(time, interval) && nextTime == Add(time, interval)
          invariant Poured(Current(), View(), t) == Poured(Current(), old(View()), t)
          decreases maxTokens - tokens
        {
          tokens := tokens + Min(replenishRate, maxTokens - tokens);
          time := nextTime;
          nextTime := Add(time, interval);
        }
        if tokens >= maxTokens && Compare(time, t).LT? {
          time := t;
        }
      }
    }

    /** Accepts any time; the assertion in Time::add stops it exactly when the state says so. */
    method Trigger(t: Time) returns (o: Outcome)
      requires Valid() && Storable(t)
      modifies `tokens, `time, `times, `granted
      ensures Valid() && times == old(times) + [t]
      ensures o.Stopped? <==> Asserts(Current(), old(View()))
      ensures o.Stopped? ==> View() == old(View())
      ensures o.Decided? ==>
                o.ok == Grants(Current(), old(View()), t) && View() == Next(Current(), old(View()), t)
      ensures granted == old(granted) + if o == Decided(true) then 1 else 0
    {
      OneMoreCall(Current(), origin, times, t);
      times := times + [t];
      if replenishRate > 0 && !Addable(time, Interval(Settings(replenishInterval, maxTokens, replenishRate))) {
        return Stopped;
      }
      Pour(t);
      if tokens > 0 {
        tokens := tokens - 1;
        granted := granted + 1;
        return Decided(true);
      } else {
        return Decided(false);
      }
    }
  }

  // ---------------------------------------------------------------------------
  // Whole intervals
  // ---------------------------------------------------------------------------

  /** The number of whole intervals in a span of d microseconds, none in a negative one. */
  ghost function Whole(d: int, i: nat): nat
    requires i > 0
  {
    if d < i then 0 else 1 + Whole(d - i, i)
  }

  lemma {:induction false} WholeTimes(d: nat, i: nat, w: nat)
    requires i > 0 && w == Whole(d, i)
    ensures w * i <= d < (w + 1) * i
  {
    if d < i {
      assert (w + 1) * i == i;
    } else {
      WholeTimes(d - i, i, w - 1);
      OneMoreMultiple(w - 1, i);
      OneMoreMultiple(w, i);
    }
  }

  lemma OneMoreMultiple(w: nat, i: nat)
    ensures (w + 1) * i == w * i + i
  {
  }

  lemma MultiplesGrow(a: nat, b: nat, i: nat)
    requires a <= b
    ensures a * i <= b * i
  {
  }

  lemma BetweenMultiples(d: nat, i: nat, w: nat, q: nat)
    requires i > 0 && w * i <= d < (w + 1) * i && q * i <= d < (q + 1) * i
    ensures w == q
  {
    if w < q {
      MultiplesGrow(w + 1, q, i);
    } else if q < w {
      MultiplesGrow(q + 1, w, i);
    }
  }

  lemma DivisionBounds(d: nat, i: nat)
    requires i > 0
    ensures d / i * i <= d < (d / i + 1) * i
  {
    assert d == d / i * i + d % i;
    OneMoreMultiple(d / i, i);
  }

  lemma WholeIsQuotient(d: nat, i: nat)
    requires i > 0
    ensures Whole(d, i) == d / i
  {
    WholeTimes(d, i, Whole(d, i));
    DivisionBounds(d, i);
    BetweenMultiples(d, i, Whole(d, i), d / i);
  }

  lemma {:induction false} WholeGrows(d: int, e: int, i: nat)
    requires i > 0 && d <= e
    ensures Whole(d, i) <= Whole(e, i)
    decreases if d < i then 0 else d
  {
    if d < i {
    } else {
      WholeGrows(d - i, e - i, i);
    }
  }

  /** r tokens for each of n intervals. */
  ghost function Tokens(r: nat, n: nat): (t: nat) {
    if n == 0 then 0 else r + Tokens(r, n - 1)
  }

  lemma {:induction false} TokensIsProduct(r: nat, n: nat)
    ensures Tokens(r, n) == r * n
  {
    if n == 0 {
    } else {
      TokensIsProduct(r, n - 1);
      assert r * n == r + r * (n - 1);
    }
  }

  lemma TokensOfSpan(r: nat, d: nat, i: nat)
    requires i > 0
    ensures Tokens(r, Whole(d, i)) == r * (d / i) && Tokens(r, Whole(d, i) + 1) == r * (d / i + 1)
  {
    WholeIsQuotient(d, i);
    TokensIsProduct(r, d / i);
    TokensIsProduct(r, d / i + 1);
  }

  lemma {:induction false} TokensGrow(r: nat, m: nat, n: nat)
    requires m <= n
    ensures Tokens(r, m) <= Tokens(r, n)
  {
    if m == n {
    } else {
      TokensGrow(r, m, n - 1);
    }
  }

  /** Tokens in the bucket and those that can come in until u. */
  ghost function Credit(s: Settings, st: State, u: nat): nat
    requires s.interval > 0
  {
    st.tokens + Tokens(s.rate, Whole(u - Value(st.time), s.interval))
  }

  /** The seconds counter does not overflow up to u. */
  ghost predicate Early(s: Settings, u: nat) {
    u + s.interval < SPAN
  }

  ghost predicate Fine(s: Settings, st: State) {
    Sized(s) && Plain(st.time) && Early(s, Value(st.time))
  }

  lemma OneInterval(s: Settings, t: Time)
    requires Sized(s) && Plain(t) && Early(s, Value(t))
    ensures Plain(Add(t, Interval(s))) && Value(Add(t, Interval(s))) == Value(t) + s.interval
  {
    assert Value(Interval(s)) == s.interval;
    AddIsSum(t, Interval(s));
  }

  /** One turn of the loop happens exactly when the bucket is not full and an interval has passed. */
  lemma TurnIff(s: Settings, st: State, t: Time)
    requires Fine(s, st) && Plain(t)
    ensures AtMost(Add(st.time, Interval(s)), t) <==> Value(st.time) + s.interval <= Value(t)
  {
    OneInterval(s, st.time);
    CompareIsOrder(Add(st.time, Interval(s)), t);
  }

  /** A turn makes tokens of one interval's credit, or fills the bucket and loses some. */
  lemma CreditOfTurn(s: Settings, st: State, u: nat)
    requires Fine(s, st) && s.rate > 0 && s.interval > 0 && st.tokens < s.maxTokens
    requires Value(st.time) + s.interval <= u
    ensures Credit(s, Turned(s, st), u) <= Credit(s, st, u)
    ensures Turned(s, st).tokens < s.maxTokens ==> Credit(s, Turned(s, st), u) == Credit(s, st, u)
    ensures Turned(s, st).tokens == s.maxTokens ==> Credit(s, st, u) >= s.maxTokens
  {
    OneInterval(s, st.time);
  }

  /** The loop's result in closed form: whole intervals times the rate, cut off at the capacity. */
  lemma {:induction false} PouredTokens(s: Settings, st: State, t: Time)
    requires Fine(s, st) && Plain(t) && Early(s, Value(t)) && s.rate > 0 && s.interval > 0
    ensures Poured(s, st, t).tokens
         == if st.tokens >= s.maxTokens then st.tokens else Min(s.maxTokens, Credit(s, st, Value(t)))
    decreases s.maxTokens - st.tokens
  {
    TurnIff(s, st, t);
    OneInterval(s, st.time);
    if st.tokens >= s.maxTokens || Value(t) < Value(st.time) + s.interval {
    } else {
      CreditOfTurn(s, st, Value(t));
      PouredTokens(s, Turned(s, st), t);
    }
  }

  /** The loop does not run ahead of the call; unless the bucket is full it stops less than an interval behind. */
  lemma {:induction false} PouredTime(s: Settings, st: State, t: Time)
    requires Fine(s, st) && Plain(t) && Early(s, Value(t)) && s.rate > 0
    ensures var r := Poured(s, st, t);
            && Value(st.time) <= Value(r.time) && (Value(r.time) <= Value(t) || r.time == st.time)
            && (r.tokens < s.maxTokens ==> Value(r.time) + s.interval > Value(t))
            && r.tokens <= (if st.tokens > s.maxTokens then st.tokens else s.maxTokens)
    decreases s.maxTokens - st.tokens
  {
    TurnIff(s, st, t);
    OneInterval(s, st.time);
    if st.tokens >= s.maxTokens || Value(t) < Value(st.time) + s.interval {
    } else {
      PouredTime(s, Turned(s, st), t);
    }
  }

  /** With an interval of zero, the bucket is filled as soon as its time has come. */
  lemma {:induction false} ZeroIntervalFills(s: Settings, st: State, t: Time)
    requires Fine(s, st) && Plain(t) && Early(s, Value(t)) && s.rate > 0 && s.interval == 0
    ensures Poured(s, st, t).tokens
         == if Value(st.time) <= Value(t) && st.tokens < s.maxTokens then s.maxTokens else st.tokens
    decreases s.maxTokens - st.tokens
  {
    TurnIff(s, st, t);
    OneInterval(s, st.time);
    if st.tokens >= s.maxTokens || Value(t) < Value(st.time) {
    } else {
      ZeroIntervalFills(s, Turned(s, st), t);
    }
  }

  // ---------------------------------------------------------------------------
  // Bounds
  // ---------------------------------------------------------------------------

  /** The loop turns credit into tokens and makes none. */
  lemma {:induction false} PouredCredit(s: Settings, st: State, t: Time, u: nat)
    requires Fine(s, st) && Plain(t) && Early(s, Value(t)) && s.rate > 0 && s.interval > 0 && Value(t) <= u
    ensures Credit(s, Poured(s, st, t), u) <= Credit(s, st, u)
    decreases s.maxTokens - st.tokens
  {
    TurnIff(s, st, t);
    OneInterval(s, st.time);
    if st.tokens >= s.maxTokens || Value(t) < Value(st.time) + s.interval {
    } else {
      CreditOfTurn(s, st, u);
      PouredCredit(s, Turned(s, st), t, u);
    }
  }

  lemma LaterIsLess(s: Settings, st: State, later: Time, u: nat)
    requires s.interval > 0 && Value(st.time) <= Value(later)
    ensures Credit(s, State(st.tokens, later), u) <= Credit(s, st, u)
  {
    WholeGrows(u - Value(later), u - Value(st.time), s.interval);
    TokensGrow(s.rate, Whole(u - Value(later), s.interval), Whole(u - Value(st.time), s.interval));
  }

  lemma ReplenishedKeeps(s: Settings, st: State, t: Time, u: nat, cap: nat)
    requires Fine(s, st) && Plain(t) && Early(s, Value(t)) && s.interval > 0 && Value(t) <= u
    requires st.tokens <= cap && s.maxTokens <= cap
    ensures var r := Replenished(s, st, t);
            && Fine(s, r) && r.tokens <= cap && Credit(s, r, u) <= Credit(s, st, u)
            && (s.rate > 0 ==> Value(r.time) + s.interval > Value(t))
  {
    if s.rate > 0 {
      var r := Poured(s, st, t);
      PouredTime(s, st, t);
      PouredCredit(s, st, t, u);
      CompareIsOrder(r.time, t);
      if Compare(r.time, t).LT? {
        LaterIsLess(s, r, t, u);
      }
    }
  }

  ghost predicate AllBy(s: Settings, times: seq<Time>, u: nat) {
    forall k: nat | k < |times| :: Plain(times[k]) && Early(s, Value(times[k])) && Value(times[k]) <= u
  }

  lemma LaterCalls(s: Settings, times: seq<Time>, u: nat)
    requires AllBy(s, times, u) && times != []
    ensures AllBy(s, times[1..], u) && Plain(times[0]) && Early(s, Value(times[0])) && Value(times[0]) <= u
  {
    assert forall k: nat | k < |times| - 1 :: times[1..][k] == times[k + 1];
  }

  /** A plain start and normal times: the calls of such a run never stop at an assertion. */
  ghost predicate Runs(st: State, times: seq<Time>) {
    Plain(st.time) && forall k: nat | k < |times| :: Normal(times[k])
  }

  /** The state after calls at these times, first to last. */
  ghost function After(s: Settings, st: State, times: seq<Time>): (r: State)
    requires Sized(s) && Runs(st, times)
    ensures Plain(r.time)
    decreases |times|
  {
    if times == [] then st else After(s, Next(s, st, times[0]), times[1..])
  }

  ghost function Granted(s: Settings, st: State, times: seq<Time>): nat
    requires Sized(s) && Runs(st, times)
    decreases |times|
  {
    if times == [] then 0
    else (if Grants(s, st, times[0]) then 1 else 0) + Granted(s, Next(s, st, times[0]), times[1..])
  }

  /** A call at the end of a run. */
  lemma {:induction false} OneMoreCall(s: Settings, st: State, times: seq<Time>, t: Time)
    requires Sized(s)
    ensures Runs(st, times + [t]) ==>
              && Runs(st, times)
              && After(s, st, times + [t]) == Next(s, After(s, st, times), t)
              && Granted(s, st, times + [t])
              == Granted(s, st, times) + if Grants(s, After(s, st, times), t) then 1 else 0
    decreases |times|
  {
    var longer := times + [t];
    assert forall k: nat | k < |times| :: times[k] == longer[k];
    if Runs(st, longer) {
      assert longer[|times|] == t;
      if times == [] {
        assert longer[1..] == [];
      } else {
        assert longer[1..] == times[1..] + [t];
        OneMoreCall(s, Next(s, st, times[0]), times[1..], t);
      }
    }
  }

  /** Calls up to u are granted at most as often as there was credit up to u. */
  lemma {:induction false} GrantedByCredit(s: Settings, st: State, times: seq<Time>, u: nat, cap: nat)
    requires Fine(s, st) && s.interval > 0 && AllBy(s, times, u) && st.tokens <= cap && s.maxTokens <= cap
    ensures var r := After(s, st, times);
            && Granted(s, st, times) + Credit(s, r, u) <= Credit(s, st, u)
            && Fine(s, r) && r.tokens <= cap
    decreases |times|
  {
    if times == [] {
    } else {
      LaterCalls(s, times, u);
      ReplenishedKeeps(s, st, times[0], u, cap);
      GrantedByCredit(s, Next(s, st, times[0]), times[1..], u, cap);
    }
  }

  lemma GrantedAtMostCredit(s: Settings, st: State, times: seq<Time>, u: nat)
    requires Fine(s, st) && s.interval > 0 && AllBy(s, times, u)
    ensures Granted(s, st, times) <= Credit(s, st, u)
  {
    GrantedByCredit(s, st, times, u, if st.tokens > s.maxTokens then st.tokens else s.maxTokens);
  }

  lemma CreditIs(s: Settings, st: State, u: nat)
    requires s.interval > 0 && Value(st.time) <= u
    ensures Credit(s, st, u) == st.tokens + s.rate * ((u - Value(st.time)) / s.interval)
  {
    TokensOfSpan(s.rate, u - Value(st.time), s.interval);
  }

  /** Over a whole run: the first tokens, and the rate times the whole intervals since the start. */
  lemma WholeRunBound(s: Settings, st: State, times: seq<Time>, u: nat)
    requires Fine(s, st) && s.interval > 0 && AllBy(s, times, u) && Value(st.time) <= u
    ensures Granted(s, st, times) <= st.tokens + s.rate * ((u - Value(st.time)) / s.interval)
  {
    GrantedAtMostCredit(s, st, times, u);
    CreditIs(s, st, u);
  }

  lemma WindowCredit(s: Settings, st: State, t: Time, u: nat, cap: nat)
    requires Fine(s, st) && s.interval > 0 && Plain(t) && Early(s, Value(t)) && Value(t) <= u
    requires st.tokens <= cap && s.maxTokens <= cap
    ensures Credit(s, Replenished(s, st, t), u) <= cap + Tokens(s.rate, Whole(u - Value(t), s.interval) + 1)
  {
    var r := Replenished(s, st, t);
    var n, most := Whole(u - Value(r.time), s.interval), Whole(u - Value(t), s.interval) + 1;
    ReplenishedKeeps(s, st, t, u, cap);
    if s.rate > 0 {
      WholeGrows(u - Value(r.time), u - Value(t) + s.interval, s.interval);
      TokensGrow(s.rate, n, most);
    } else {
      TokensIsProduct(0, n);
    }
  }

  lemma TakingUsesCredit(s: Settings, st: State, t: Time, u: nat)
    requires Fine(s, st) && Plain(t) && s.interval > 0
    ensures Credit(s, Next(s, st, t), u) + (if Grants(s, st, t) then 1 else 0) == Credit(s, Replenished(s, st, t), u)
    ensures Next(s, st, t).time == Replenished(s, st, t).time && Next(s, st, t).tokens <= Replenished(s, st, t).tokens
  {
  }

  /** Calls are granted at most as often as there is credit once the first has replenished the bucket. */
  lemma GrantedFromFirst(s: Settings, st: State, times: seq<Time>, u: nat, cap: nat)
    requires Fine(s, st) && s.interval > 0 && times != [] && AllBy(s, times, u)
    requires st.tokens <= cap && s.maxTokens <= cap
    ensures Plain(times[0]) && Granted(s, st, times) <= Credit(s, Replenished(s, st, times[0]), u)
  {
    LaterCalls(s, times, u);
    ReplenishedKeeps(s, st, times[0], u, cap);
    TakingUsesCredit(s, st, times[0], u);
    GrantedByCredit(s, Next(s, st, times[0]), times[1..], u, cap);
  }

  lemma WindowFrom(s: Settings, st: State, window: seq<Time>, u: nat, cap: nat)
    requires Fine(s, st) && s.interval > 0 && window != [] && AllBy(s, window, u)
    requires st.tokens <= cap && s.maxTokens <= cap
    ensures Granted(s, st, window) <= cap + Tokens(s.rate, Whole(u - Value(window[0]), s.interval) + 1)
  {
    LaterCalls(s, window, u);
    WindowCredit(s, st, window[0], u, cap);
    GrantedFromFirst(s, st, window, u, cap);
  }

  /**
   Sliding window: among calls `window` that follow any calls `before`, at most the capacity (or the
   start tokens, if more) is granted, and the rate for each interval begun in the window.
   */
  lemma WindowBound(s: Settings, st: State, before: seq<Time>, window: seq<Time>, u: nat, v: nat, cap: nat)
    requires Fine(s, st) && s.interval > 0 && window != [] && AllBy(s, before, v) && AllBy(s, window, u)
    requires st.tokens <= cap && s.maxTokens <= cap
    ensures Granted(s, After(s, st, before), window)
         <= cap + s.rate * ((u - Value(window[0])) / s.interval + 1)
  {
    GrantedByCredit(s, st, before, v, cap);
    WindowFrom(s, After(s, st, before), window, u, cap);
    TokensOfSpan(s.rate, u - Value(window[0]), s.interval);
  }

  /** A call with a time of another clock brings no tokens and does not move the bucket's time. */
  lemma OtherClockOnlyTakes(s: Settings, st: State, t: Time)
    requires Sized(s) && Plain(st.time) && Normal(t) && !SameClock(t, st.time)
    ensures Next(s, st, t) == State(if st.tokens > 0 then st.tokens - 1 else 0, st.time)
    ensures Grants(s, st, t) <==> st.tokens > 0
  {
  }

  /**
   A call whose time lies before the bucket's own brings no tokens; contrary to the remark in
   the header file it is refused only if the bucket is empty.
   */
  lemma BackwardsCallRefusedIff(s: Settings, st: State, t: Time)
    requires Fine(s, st) && Plain(t) && Early(s, Value(t)) && Value(t) < Value(st.time)
    ensures !Grants(s, st, t) <==> st.tokens == 0
  {
    TurnIff(s, st, t);
    CompareIsOrder(st.time, t);
  }
}
