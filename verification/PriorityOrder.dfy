/**
 The priority buffer queue as its callers see it: a list of messages in order of arrival
 from which the oldest message of the highest priority is taken.  A refused take, for want
 of room in the caller's buffer, enters the message again behind all others.
 */
module PriorityOrder {
  import opened StableHeap
  import opened MachineWords
  import opened Sequences

  /** A message with its priority. */
  datatype Ranked = Ranked(bytes: seq<Byte>, priority: int)

  ghost function Priorities(contents: seq<Ranked>): (r: seq<int>)
    ensures |r| == |contents| && forall k: nat | k < |contents| :: r[k] == contents[k].priority
  {
    seq(|contents|, (k: nat) requires k < |contents| => contents[k].priority)
  }

  /** The message a stable priority queue gives out next. */
  ghost function Best(contents: seq<Ranked>): (k: nat)
    requires contents != []
    ensures k < |contents|
    ensures forall j: nat | j < |contents| :: contents[j].priority <= contents[k].priority
    ensures forall j: nat | j < k :: contents[j].priority < contents[k].priority
  {
    FirstMax(Priorities(contents))
  }

  /** No waiting message has a higher priority than message k. */
  ghost predicate Foremost(contents: seq<Ranked>, k: nat) {
    k < |contents| && forall j: nat | j < |contents| :: contents[j].priority <= contents[k].priority
  }

  /** What taking message k leaves behind; a refused message is entered again as the newest. */
  ghost function Left(contents: seq<Ranked>, k: nat, ok: bool): (r: seq<Ranked>)
    requires k < |contents|
    ensures |r| == if ok then |contents| - 1 else |contents|
  {
    if ok then Without(contents, k) else Without(contents, k) + [contents[k]]
  }

  /** The best message fits a buffer of this capacity. */
  ghost predicate Granted(contents: seq<Ranked>, capacity: nat) {
    contents != [] && |contents[Best(contents)].bytes| <= capacity
  }

  // ---------------------------------------------------------------------------
  // Whole runs
  // ---------------------------------------------------------------------------

  datatype Call = PushCall(m: Ranked) | PopCall(capacity: nat)

  /**
   The messages that wait, those that pushes accepted, those that pops returned, how many pops
   were refused for want of room, and the largest number waiting.
   */
  datatype History =
    History(waiting: seq<Ranked>, accepted: seq<Ranked>, delivered: seq<Ranked>, refused: nat, peak: nat)

  const EMPTY := History([], [], [], 0, 0)

  ghost function Pushed(depth: nat, h: History, m: Ranked): History {
    if |h.waiting| < depth
    then History(h.waiting + [m], h.accepted + [m], h.delivered, h.refused,
                 if |h.waiting| + 1 > h.peak then |h.waiting| + 1 else h.peak)
    else h
  }

  /** Message k has been taken, or refused and entered again. */
  ghost function Popped(h: History, k: nat, ok: bool): History
    requires k < |h.waiting|
  {
    History(Left(h.waiting, k, ok), h.accepted, if ok then h.delivered + [h.waiting[k]] else h.delivered,
            if ok then h.refused else h.refused + 1, h.peak)
  }

  ghost function Do(depth: nat, h: History, c: Call): History {
    match c
    case PushCall(m) => Pushed(depth, h, m)
    case PopCall(capacity) =>
      if h.waiting == [] then h else Popped(h, Best(h.waiting), Granted(h.waiting, capacity))
  }

  ghost function DoAll(depth: nat, run: seq<Call>): History {
    if run == [] then EMPTY else Do(depth, DoAll(depth, run[..|run| - 1]), run[|run| - 1])
  }

  ghost predicate AddsUp(h: History) {
    multiset(h.accepted) == multiset(h.delivered) + multiset(h.waiting)
  }

  lemma AddsUpTake(accepted: seq<Ranked>, delivered: seq<Ranked>, waiting: seq<Ranked>, k: nat)
    requires k < |waiting| && multiset(accepted) == multiset(delivered) + multiset(waiting)
    ensures multiset(accepted) == multiset(delivered + [waiting[k]]) + multiset(Without(waiting, k))
    ensures multiset(accepted) == multiset(delivered) + multiset(Without(waiting, k) + [waiting[k]])
  {
    WithoutMultiset(waiting, k);
    assert waiting[k] in multiset(waiting);
  }

  /** Whichever message a pop takes, none is lost or made up. */
  lemma AddsUpPopped(h: History, k: nat, ok: bool)
    requires AddsUp(h) && k < |h.waiting|
    ensures AddsUp(Popped(h, k, ok))
  {
    AddsUpTake(h.accepted, h.delivered, h.waiting, k);
  }

  lemma AddsUpStep(depth: nat, h: History, c: Call)
    requires AddsUp(h)
    ensures AddsUp(Do(depth, h, c))
  {
    if c.PopCall? && h.waiting != [] {
      AddsUpPopped(h, Best(h.waiting), Granted(h.waiting, c.capacity));
    }
  }

  /** No message is lost or made up, whatever buffers the pops bring along. */
  lemma {:induction false} MessagesAddUp(depth: nat, run: seq<Call>)
    ensures AddsUp(DoAll(depth, run))
    ensures |DoAll(depth, run).waiting| <= DoAll(depth, run).peak <= depth
  {
    if run == [] {
    } else {
      MessagesAddUp(depth, run[..|run| - 1]);
      AddsUpStep(depth, DoAll(depth, run[..|run| - 1]), run[|run| - 1]);
    }
  }

  /** How many messages wait after the first n calls. */
  ghost function WaitingAfter(depth: nat, run: seq<Call>, n: nat): nat
    requires n <= |run|
  {
    |DoAll(depth, run[..n]).waiting|
  }

  lemma WaitingBefore(depth: nat, run: seq<Call>, n: nat)
    requires n < |run|
    ensures WaitingAfter(depth, run, n) == WaitingAfter(depth, run[..|run| - 1], n)
  {
    assert run[..|run| - 1][..n] == run[..n];
  }

  lemma PeakStep(depth: nat, h: History, c: Call)
    requires |h.waiting| <= h.peak
    ensures var t := Do(depth, h, c); t.peak == if |t.waiting| > h.peak then |t.waiting| else h.peak
  {
  }

  /** The peak is the number waiting after some call, and never exceeded after any. */
  lemma {:induction false} PeakIsLargest(depth: nat, run: seq<Call>)
    ensures forall n: nat | n <= |run| :: WaitingAfter(depth, run, n) <= DoAll(depth, run).peak
    ensures exists n: nat :: n <= |run| && WaitingAfter(depth, run, n) == DoAll(depth, run).peak
  {
    assert run[..|run|] == run;
    if run == [] {
      assert WaitingAfter(depth, run, 0) == 0;
    } else {
      var before := run[..|run| - 1];
      PeakIsLargest(depth, before);
      MessagesAddUp(depth, before);
      PeakStep(depth, DoAll(depth, before), run[|run| - 1]);
      assert WaitingAfter(depth, run, |run|) == |DoAll(depth, run).waiting|;
      forall n: nat | n < |run|
        ensures WaitingAfter(depth, run, n) == WaitingAfter(depth, before, n)
      {
        WaitingBefore(depth, run, n);
      }
      var m: nat :| m <= |before| && WaitingAfter(depth, before, m) == DoAll(depth, before).peak;
      assert WaitingAfter(depth, run, m) == DoAll(depth, before).peak;
    }
  }

  /** The messages of one priority, in order. */
  ghost function OfPriority(s: seq<Ranked>, p: int): seq<Ranked> {
    if s == [] then []
    else OfPriority(s[..|s| - 1], p) + (if s[|s| - 1].priority == p then [s[|s| - 1]] else [])
  }

  lemma OfPriorityOfMore(s: seq<Ranked>, m: Ranked, p: int)
    ensures OfPriority(s + [m], p) == OfPriority(s, p) + if m.priority == p then [m] else []
  {
    assert (s + [m])[..|s|] == s;
  }

  lemma {:induction false} OfPriorityOfBoth(s: seq<Ranked>, t: seq<Ranked>, p: int)
    ensures OfPriority(s + t, p) == OfPriority(s, p) + OfPriority(t, p)
  {
    if t == [] {
      assert s + t == s;
    } else {
      var init, last := t[..|t| - 1], t[|t| - 1];
      OfPriorityOfBoth(s, init, p);
      OfPriorityOfMore(s + init, last, p);
      OfPriorityOfMore(init, last, p);
      LastOf(t);
      Regroup(s, init, [last]);
      Regroup(OfPriority(s, p), OfPriority(init, p), if last.priority == p then [last] else []);
    }
  }

  lemma {:induction false} NoneOfPriority(s: seq<Ranked>, p: int)
    requires forall k: nat | k < |s| :: s[k].priority != p
    ensures OfPriority(s, p) == []
  {
    if s == [] {
    } else {
      NoneOfPriority(s[..|s| - 1], p);
    }
  }

  /** Taking message k out of the list of its priority, when it heads that list. */
  lemma TakeHead(contents: seq<Ranked>, k: nat, p: int)
    requires k < |contents|
    requires forall j: nat | j < k :: contents[j].priority < contents[k].priority
    ensures var all, rest := OfPriority(contents, p), OfPriority(Without(contents, k), p);
            all == if contents[k].priority == p then [contents[k]] + rest else rest
  {
    var front, m, back := contents[..k], contents[k], contents[k + 1..];
    assert contents == front + [m] + back && Without(contents, k) == front + back;
    OfPriorityOfBoth(front + [m], back, p);
    OfPriorityOfMore(front, m, p);
    OfPriorityOfBoth(front, back, p);
    if m.priority == p {
      NoneOfPriority(front, p);
    }
  }

  /** The best message heads the list of its priority; taking it leaves the rest of that list and all other lists. */
  lemma BestIsHead(contents: seq<Ranked>, p: int)
    requires contents != []
    ensures var k := Best(contents); var all, rest := OfPriority(contents, p), OfPriority(Without(contents, k), p);
            all == if contents[k].priority == p then [contents[k]] + rest else rest
  {
    TakeHead(contents, Best(contents), p);
  }

  /** Every pop of the run that found a message had room for it. */
  ghost predicate AlwaysRoom(depth: nat, run: seq<Call>) {
    run != [] ==>
      var waiting, c := DoAll(depth, run[..|run| - 1]).waiting, run[|run| - 1];
      AlwaysRoom(depth, run[..|run| - 1]) && (c.PopCall? && waiting != [] ==> Granted(waiting, c.capacity))
  }

  /** If every pop has room, none is refused. */
  lemma {:induction false} RoomRefusesNone(depth: nat, run: seq<Call>)
    requires AlwaysRoom(depth, run)
    ensures DoAll(depth, run).refused == 0
  {
    if run == [] {
    } else {
      RoomRefusesNone(depth, run[..|run| - 1]);
    }
  }

  ghost predicate Ordered(accepted: seq<Ranked>, delivered: seq<Ranked>, waiting: seq<Ranked>, p: int) {
    OfPriority(accepted, p) == OfPriority(delivered, p) + OfPriority(waiting, p)
  }

  lemma OrderedPush(accepted: seq<Ranked>, delivered: seq<Ranked>, waiting: seq<Ranked>, m: Ranked, p: int)
    requires Ordered(accepted, delivered, waiting, p)
    ensures Ordered(accepted + [m], delivered, waiting + [m], p)
  {
    OfPriorityOfMore(accepted, m, p);
    OfPriorityOfMore(waiting, m, p);
    Regroup(OfPriority(delivered, p), OfPriority(waiting, p), if m.priority == p then [m] else []);
  }

  lemma OrderedTake(accepted: seq<Ranked>, delivered: seq<Ranked>, waiting: seq<Ranked>, k: nat, p: int)
    requires Ordered(accepted, delivered, waiting, p) && k < |waiting|
    requires forall j: nat | j < k :: waiting[j].priority < waiting[k].priority
    ensures Ordered(accepted, delivered + [waiting[k]], Without(waiting, k), p)
  {
    TakeHead(waiting, k, p);
    OfPriorityOfMore(delivered, waiting[k], p);
    Regroup(OfPriority(delivered, p), [waiting[k]], OfPriority(Without(waiting, k), p));
  }

  lemma OrderedPop(accepted: seq<Ranked>, delivered: seq<Ranked>, waiting: seq<Ranked>, p: int)
    requires Ordered(accepted, delivered, waiting, p) && waiting != []
    ensures Ordered(accepted, delivered + [waiting[Best(waiting)]], Without(waiting, Best(waiting)), p)
  {
    OrderedTake(accepted, delivered, waiting, Best(waiting), p);
  }

  lemma OrderedStep(depth: nat, h: History, c: Call, p: int)
    requires Ordered(h.accepted, h.delivered, h.waiting, p)
    requires c.PopCall? && h.waiting != [] ==> Granted(h.waiting, c.capacity)
    ensures var t := Do(depth, h, c); Ordered(t.accepted, t.delivered, t.waiting, p)
  {
    if c.PushCall? {
      OrderedPush(h.accepted, h.delivered, h.waiting, c.m, p);
    } else if h.waiting != [] {
      OrderedPop(h.accepted, h.delivered, h.waiting, p);
    }
  }

  /** Messages of equal priority come out in the order in which they went in. */
  lemma {:induction false} EqualsFirstInFirstOut(depth: nat, run: seq<Call>, p: int)
    requires AlwaysRoom(depth, run)
    ensures var h := DoAll(depth, run); Ordered(h.accepted, h.delivered, h.waiting, p)
  {
    if run == [] {
    } else {
      EqualsFirstInFirstOut(depth, run[..|run| - 1], p);
      OrderedStep(depth, DoAll(depth, run[..|run| - 1]), run[|run| - 1], p);
    }
  }

  /** The list with its first message moved to the end. */
  ghost function Rotated<T>(s: seq<T>): seq<T>
    requires s != []
  {
    s[1..] + [s[0]]
  }

  /** A refused pop rotates the list of the best priority by one and leaves the other lists. */
  lemma RefusedPopRotates(depth: nat, h: History, capacity: nat, p: int)
    requires h.waiting != [] && !Granted(h.waiting, capacity)
    ensures var before := OfPriority(h.waiting, p);
            var after := OfPriority(Do(depth, h, PopCall(capacity)).waiting, p);
            if h.waiting[Best(h.waiting)].priority == p then before != [] && after == Rotated(before)
            else after == before
  {
    BestIsHead(h.waiting, p);
    OfPriorityOfMore(Without(h.waiting, Best(h.waiting)), h.waiting[Best(h.waiting)], p);
  }

  /** All waiting messages of the best priority are copies of each other; in particular, there may be just one. */
  ghost predicate BestInterchangeable(contents: seq<Ranked>)
    requires contents != []
  {
    forall m | m in contents && m.priority == contents[Best(contents)].priority :: m == contents[Best(contents)]
  }

  lemma {:induction false} OfPriorityHasAll(s: seq<Ranked>, m: Ranked, p: int)
    ensures m in OfPriority(s, p) <==> m in s && m.priority == p
  {
    if s == [] {
    } else {
      assert s == s[..|s| - 1] + [s[|s| - 1]];
      OfPriorityHasAll(s[..|s| - 1], m, p);
    }
  }

  /** A list equals its rotation exactly when it repeats one element. */
  lemma {:induction false} RotationFixed<T>(s: seq<T>, k: nat)
    requires k < |s| && Rotated(s) == s
    ensures s[k] == s[0]
  {
    if k == 0 {
    } else {
      RotationFixed(s, k - 1);
      assert Rotated(s)[k - 1] == s[k];
    }
  }

  lemma RotationFixedIff<T>(s: seq<T>)
    requires s != []
    ensures Rotated(s) == s <==> forall x | x in s :: x == s[0]
  {
    if Rotated(s) == s {
      forall x | x in s
        ensures x == s[0]
      {
        var k: nat :| k < |s| && s[k] == x;
        RotationFixed(s, k);
      }
    }
    if forall x | x in s :: x == s[0] {
      var r := Rotated(s);
      forall k: nat | k < |s|
        ensures r[k] == s[k]
      {
        assert s[k] in s && (k < |s| - 1 ==> s[k + 1] in s);
      }
    }
  }

  /**
   A refused pop keeps the order of the messages of each priority exactly when the waiting
   messages of the best priority cannot be told apart.
   */
  lemma RefusedPopKeepsOrderIff(depth: nat, h: History, capacity: nat)
    requires h.waiting != [] && !Granted(h.waiting, capacity)
    ensures (forall p :: OfPriority(Do(depth, h, PopCall(capacity)).waiting, p) == OfPriority(h.waiting, p))
       <==> BestInterchangeable(h.waiting)
  {
    var m := h.waiting[Best(h.waiting)];
    var list := OfPriority(h.waiting, m.priority);
    forall p
      ensures p != m.priority ==>
                OfPriority(Do(depth, h, PopCall(capacity)).waiting, p) == OfPriority(h.waiting, p)
    {
      RefusedPopRotates(depth, h, capacity, p);
    }
    RefusedPopRotates(depth, h, capacity, m.priority);
    BestIsHead(h.waiting, m.priority);
    RotationFixedIff(list);
    forall x
      ensures x in list <==> x in h.waiting && x.priority == m.priority
    {
      OfPriorityHasAll(h.waiting, x, m.priority);
    }
  }

  lemma DoMore(depth: nat, run: seq<Call>, c: Call)
    ensures DoAll(depth, run + [c]) == Do(depth, DoAll(depth, run), c)
  {
    assert (run + [c])[..|run|] == run;
  }

  lemma BestOfTwo(a: Ranked, b: Ranked)
    requires a.priority == b.priority
    ensures Best([a, b]) == 0 && Without([a, b], 0) == [b]
    ensures Best([a]) == 0 && Without([a], 0) == []
  {
    assert [a, b][0] == a && [a, b][1] == b && [a][0] == a;
  }

  lemma FillTwo(a: Ranked, b: Ranked)
    ensures Do(2, Do(2, EMPTY, PushCall(a)), PushCall(b)) == History([a, b], [a, b], [], 0, 2)
  {
  }

  lemma RefuseFirst(a: Ranked, b: Ranked)
    requires a.priority == b.priority && |b.bytes| < |a.bytes|
    ensures Do(2, History([a, b], [a, b], [], 0, 2), PopCall(|b.bytes|)) == History([b, a], [a, b], [], 1, 2)
    ensures Do(2, History([b, a], [a, b], [], 1, 2), PopCall(|a.bytes|)) == History([a], [a, b], [b], 1, 2)
  {
    BestOfTwo(a, b);
    BestOfTwo(b, a);
    assert Left([a, b], 0, false) == [b] + [a] == [b, a];
  }

  /** Two equals: a refused pop, then a pop with room, delivers the second message first. */
  lemma RefusedPopReorders(a: Ranked, b: Ranked) returns (run: seq<Call>)
    requires a.priority == b.priority && |b.bytes| < |a.bytes|
    ensures run == [PushCall(a)] + [PushCall(b)] + [PopCall(|b.bytes|)] + [PopCall(|a.bytes|)]
    ensures DoAll(2, run).accepted == [a, b] && DoAll(2, run).delivered == [b]
  {
    FillTwo(a, b);
    RefuseFirst(a, b);
    DoMore(2, [], PushCall(a));
    run := [] + [PushCall(a)];
    DoMore(2, run, PushCall(b));
    run := run + [PushCall(b)];
    DoMore(2, run, PopCall(|b.bytes|));
    run := run + [PopCall(|b.bytes|)];
    DoMore(2, run, PopCall(|a.bytes|));
    run := run + [PopCall(|a.bytes|)];
  }
}
