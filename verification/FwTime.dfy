/**
 Times of the flight framework: a clock (time base and context), seconds and microseconds,
 with 32-bit wrap-around of the seconds.
 */
module FwTime {
  import opened MachineWords

  const MILLION: nat := 1_000_000

  datatype Time = Time(base: nat, context: nat, seconds: nat, useconds: nat)

  datatype Comparison = LT | EQ | GT | INCOMPARABLE

  ghost predicate Normal(t: Time) {
    t.seconds < WORD && t.useconds < MILLION
  }

  /** Times without a time base; those that the utilities can add their intervals to. */
  ghost predicate Plain(t: Time) {
    Normal(t) && t.base == 0 && t.context == 0
  }

  /** Any time as its fields allow. */
  ghost predicate Storable(t: Time) {
    t.seconds < WORD && t.useconds < WORD
  }

  predicate SameClock(a: Time, b: Time) {
    a.base == b.base && a.context == b.context
  }

  function Compare(a: Time, b: Time): Comparison {
    if !SameClock(a, b) then INCOMPARABLE
    else if a.seconds < b.seconds then LT
    else if a.seconds > b.seconds then GT
    else if a.useconds < b.useconds then LT
    else if a.useconds > b.useconds then GT
    else EQ
  }

  predicate AtMost(a: Time, b: Time) {
    Compare(a, b).LT? || Compare(a, b).EQ?
  }

  /** The assertions of Time::add hold. */
  predicate Addable(a: Time, b: Time) {
    SameClock(a, b) && a.useconds + b.useconds < 1999999
  }

  /** What a caller sees of a call that adds times: its answer, or an assertion that stops it. */
  datatype Outcome = Decided(ok: bool) | Stopped

  function Add(a: Time, b: Time): Time
    requires Addable(a, b)
  {
    var seconds, useconds := (a.seconds + b.seconds) % WORD, a.useconds + b.useconds;
    if useconds >= MILLION then Time(a.base, a.context, (seconds + 1) % WORD, useconds - MILLION)
    else Time(a.base, a.context, seconds, useconds)
  }

  function Sub(a: Time, b: Time): Time
    requires Normal(a) && Normal(b) && AtMost(b, a)
  {
    var seconds := a.seconds - b.seconds;
    if b.useconds > a.useconds then Time(a.base, a.context, seconds - 1, a.useconds + MILLION - b.useconds)
    else Time(a.base, a.context, seconds, a.useconds - b.useconds)
  }

  /** The time in microseconds since the clock's zero. */
  ghost function Value(t: Time): nat {
    t.seconds * 1_000_000 + t.useconds
  }

  /** The first value that has no time. */
  ghost const SPAN := WORD * 1_000_000

  /** Times of one clock compare like their values; other times do not compare. */
  lemma CompareIsOrder(a: Time, b: Time)
    requires Normal(a) && Normal(b)
    ensures Compare(a, b).INCOMPARABLE? <==> !SameClock(a, b)
    ensures SameClock(a, b) ==>
              && (Compare(a, b).LT? <==> Value(a) < Value(b))
              && (Compare(a, b).EQ? <==> a == b) && (a == b <==> Value(a) == Value(b))
  {
  }

  /** A sum is exact up to whole turns of the seconds counter. */
  lemma AddIsSum(a: Time, b: Time)
    requires Normal(a) && Normal(b) && SameClock(a, b)
    ensures Normal(Add(a, b)) && SameClock(Add(a, b), a)
    ensures Value(Add(a, b)) == if Value(a) + Value(b) < SPAN then Value(a) + Value(b) else Value(a) + Value(b) - SPAN
  {
  }

  /** Adding never goes back in time exactly when the sum does not overflow. */
  lemma AddIsMonotoneIff(a: Time, b: Time)
    requires Normal(a) && Normal(b) && SameClock(a, b)
    ensures AtMost(a, Add(a, b)) <==> Value(a) + Value(b) < SPAN
  {
    AddIsSum(a, b);
    CompareIsOrder(a, Add(a, b));
  }

  /** Subtraction is exact and undoes addition; addition undoes subtraction. */
  lemma SubIsDifference(a: Time, b: Time)
    requires Normal(a) && Normal(b) && AtMost(b, a)
    ensures Normal(Sub(a, b)) && Value(Sub(a, b)) == Value(a) - Value(b)
    ensures Add(Sub(a, b), b) == a
  {
    AddIsSum(Sub(a, b), b);
    CompareIsOrder(Add(Sub(a, b), b), a);
  }

  lemma SubUndoesAdd(a: Time, b: Time)
    requires Normal(a) && Normal(b) && SameClock(a, b) && Value(a) + Value(b) < SPAN
    ensures AtMost(b, Add(a, b)) && Sub(Add(a, b), b) == a
  {
    AddIsSum(a, b);
    CompareIsOrder(b, Add(a, b));
    SubIsDifference(Add(a, b), b);
    CompareIsOrder(Sub(Add(a, b), b), a);
  }
}
