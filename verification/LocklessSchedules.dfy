/**
 Schedules of the lockless queue in which no swap of PopFree installs a link out of date.

 First, any number of senders that read the free-list head whenever they like, with the link
 read and the swap as one atomic step.  Second, senders of which no two are between reading
 the head and their swap.  Third, a single sender with every access a step of its own.
 */
module LocklessSchedules {
  import opened LocklessQueue
  import opened Sequences

  // ---------------------------------------------------------------------------
  // The link read and the swap as one atomic step
  // ---------------------------------------------------------------------------

  /** A sender that has read the link swaps at once: the step between the two belongs to nobody else. */
  ghost predicate Prompt(s: State, e: Event) {
    forall i: nat | i < |s.senders| && s.senders[i].pc.PopCas? :: e == SenderMove(i)
  }

  ghost predicate PromptNext(c: Config, s: State, t: State) {
    TypeOk(c, s) && exists e :: Enabled(c, s, e) && Prompt(s, e) && t == Apply(c, s, e)
  }

  /** Heads may be read at any time and by any number of senders, and swaps may fail and be tried again. */
  ghost predicate IsAtomicRun(c: Config, run: seq<State>) {
    && run != []
    && Init(c, run[0])
    && forall k: nat | k + 1 < |run| :: PromptNext(c, run[k], run[k + 1])
  }

  /** Each captured link is still the node's link. */
  ghost predicate UpToDate(s: State) {
    forall i: nat | i < |s.senders| && s.senders[i].pc.PopCas? ::
      NextIs(s, s.senders[i].pc.node, s.senders[i].pc.captured)
  }

  lemma PromptStep(c: Config, s: State, e: Event)
    requires TypeOk(c, s) && Enabled(c, s, e) && Prompt(s, e) && UpToDate(s)
    ensures Fresh(s, e) && UpToDate(Apply(c, s, e))
  {
    var t := Apply(c, s, e);
    forall i: nat | i < |t.senders| && t.senders[i].pc.PopCas?
      ensures NextIs(t, t.senders[i].pc.node, t.senders[i].pc.captured)
    {
      assert e == SenderMove(i) && s.senders[i].pc.PopNext?;
    }
  }

  lemma ExtendFresh(c: Config, prev: seq<State>, s: State, e: Event, t: State)
    requires IsFreshRun(c, prev) && s == prev[|prev| - 1]
    requires TypeOk(c, s) && Enabled(c, s, e) && Fresh(s, e) && t == Apply(c, s, e)
    ensures IsFreshRun(c, prev + [t])
  {
    var run := prev + [t];
    assert FreshNext(c, s, t);
    forall k: nat | k + 1 < |run|
      ensures FreshNext(c, run[k], run[k + 1])
    {
      if k + 1 < |prev| {
        assert FreshNext(c, prev[k], prev[k + 1]);
      }
    }
  }

  lemma AtomicPrefix(c: Config, run: seq<State>)
    requires IsAtomicRun(c, run) && |run| > 1
    ensures IsAtomicRun(c, run[..|run| - 1]) && PromptNext(c, run[|run| - 2], run[|run| - 1])
  {
    var prev := run[..|run| - 1];
    forall k: nat | k + 1 < |prev|
      ensures PromptNext(c, prev[k], prev[k + 1])
    {
      assert PromptNext(c, run[k], run[k + 1]);
    }
    assert PromptNext(c, run[|run| - 2], run[|run| - 2 + 1]);
  }

  lemma {:induction false} AtomicIsFresh(c: Config, run: seq<State>)
    requires IsAtomicRun(c, run)
    ensures IsFreshRun(c, run) && UpToDate(run[|run| - 1])
  {
    if |run| == 1 {
    } else {
      var prev, s, t := run[..|run| - 1], run[|run| - 2], run[|run| - 1];
      AtomicPrefix(c, run);
      AtomicIsFresh(c, prev);
      var e :| Enabled(c, s, e) && Prompt(s, e) && t == Apply(c, s, e);
      PromptStep(c, s, e);
      ExtendFresh(c, prev, s, e, t);
      assert run == prev + [t];
    }
  }

  /** Any number of senders with an atomic link read and swap: faithful, one owner per node, no crash. */
  lemma AtomicRunsAreFaithful(c: Config, run: seq<State>)
    requires Usable(c) && IsAtomicRun(c, run)
    ensures Faithful(run[|run| - 1]) && run[|run| - 1].first.To? && !run[|run| - 1].receiver.Crashed?
    ensures OneOwnerEach(c, run[|run| - 1])
  {
    AtomicIsFresh(c, run);
    FreshRunsAreFaithful(c, run);
    EachNodeHasOneOwner(c, run);
  }

  // ---------------------------------------------------------------------------
  // No two senders between head read and swap
  // ---------------------------------------------------------------------------

  /** The sender has read the free-list head in PopFree and not yet tried its swap. */
  ghost predicate InPopWindow(pc: SenderPc) {
    pc.PopNext? || pc.PopCas?
  }

  ghost predicate Exclusive(s: State) {
    forall i: nat, j: nat | i < j < |s.senders| ::
      !(InPopWindow(s.senders[i].pc) && InPopWindow(s.senders[j].pc))
  }

  ghost predicate AllExclusive(run: seq<State>) {
    forall k: nat | k < |run| :: Exclusive(run[k])
  }

  ghost predicate InFreeList(v: View, n: nat) {
    n < |v.own| && v.own[n].InFree?
  }

  /** The head that a sender has read is still free, and the link that it has read is still the node's link. */
  ghost predicate Expects(s: State, v: View, x: Sender) {
    match x.pc
    case PopNext(n) => InFreeList(v, n)
    case PopCas(n, captured) => InFreeList(v, n) && NextIs(s, n, captured)
    case _ => true
  }

  ghost predicate Expected(s: State, v: View) {
    forall i: nat {:trigger Expects(s, v, s.senders[i])} | i < |s.senders| :: Expects(s, v, s.senders[i])
  }

  /** Free nodes stay free with their links, and no sender but perhaps i moves. */
  lemma ExpectedKept(s: State, t: State, v: View, w: View, i: nat)
    requires Expected(s, v) && |t.senders| == |s.senders| && |t.next| == |s.next|
    requires forall m: nat | InFreeList(v, m) :: InFreeList(w, m)
    requires forall m: nat | InFreeList(v, m) && m < |s.next| :: t.next[m] == s.next[m]
    requires forall j: nat | j < |s.senders| && j != i :: t.senders[j] == s.senders[j]
    requires i < |s.senders| ==> Expects(t, w, t.senders[i])
    ensures Expected(t, w)
  {
    forall j: nat | j < |t.senders|
      ensures Expects(t, w, t.senders[j])
    {
      if j != i {
        assert Expects(s, v, s.senders[j]);
      }
    }
  }

  lemma ExpectedReceiver(c: Config, s: State, v: View, t: State)
    requires Inv(c, s, v) && Enabled(c, s, ReceiverMove) && Expected(s, v) && t == ReceiverStep(c, s)
    ensures Expected(t, NextView(c, s, v, ReceiverMove))
  {
    if s.receiver.PushLink? || s.receiver.PushCas? {
      FreeingApart(c, s, v, s.receiver.oldNode);
    } else if s.receiver.Advance? {
      assert OwnedBy(v, v.order[v.f], InChain(v.f));
    }
    ExpectedKept(s, t, v, NextView(c, s, v, ReceiverMove), |s.senders|);
  }

  /** The successful swap takes the only expected node away. */
  lemma ExpectedSwap(c: Config, s: State, v: View, i: nat)
    requires Inv(c, s, v) && Enabled(c, s, SenderMove(i)) && Exclusive(s)
    requires s.senders[i].pc.PopCas? && s.freeHead == To(s.senders[i].pc.node)
    ensures Expected(SenderStep(c, s, i), NextView(c, s, v, SenderMove(i)))
  {
    var t, w := SenderStep(c, s, i), NextView(c, s, v, SenderMove(i));
    forall j: nat | j < |t.senders|
      ensures Expects(t, w, t.senders[j])
    {
      assert j != i ==> !InPopWindow(s.senders[j].pc);
    }
  }

  /** Reading the head or its link. */
  lemma ExpectedRead(c: Config, s: State, v: View, i: nat, t: State)
    requires Inv(c, s, v) && Enabled(c, s, SenderMove(i)) && Expected(s, v) && t == SenderStep(c, s, i)
    requires s.senders[i].pc.PopHead? || s.senders[i].pc.PopNext?
    ensures Expected(t, v)
  {
    assert Expects(s, v, s.senders[i]);
    if v.free != [] {
      assert OwnedBy(v, v.free[|v.free| - 1], InFree(|v.free| - 1));
    }
    ExpectedKept(s, t, v, v, i);
  }

  /** Filling the node n that sender i holds writes no free node. */
  lemma FreeUntouched(c: Config, s: State, v: View, i: nat, t: State, n: nat)
    requires Inv(c, s, v) && Enabled(c, s, SenderMove(i)) && t == SenderStep(c, s, i)
    requires Held(s.senders[i].pc) == To(n) && !s.senders[i].pc.CasLast?
    ensures forall m: nat | m < |s.next| && m != n :: t.next[m] == s.next[m]
    ensures !InFreeList(v, n) && |t.next| == |s.next| && |t.senders| == |s.senders|
    ensures forall j: nat | j < |s.senders| && j != i :: t.senders[j] == s.senders[j]
    ensures Held(t.senders[i].pc).To?
  {
    HeldApart(c, s, v, i, n);
  }

  /** Filling the node it holds. */
  lemma ExpectedFill(c: Config, s: State, v: View, i: nat, t: State)
    requires Inv(c, s, v) && Enabled(c, s, SenderMove(i)) && Expected(s, v) && t == SenderStep(c, s, i)
    requires Held(s.senders[i].pc).To? && !s.senders[i].pc.CasLast?
    ensures Expected(t, v)
  {
    FreeUntouched(c, s, v, i, t, Held(s.senders[i].pc).node);
    ExpectedKept(s, t, v, v, i);
  }

  lemma ExpectedPublish(c: Config, s: State, v: View, i: nat)
    requires Inv(c, s, v) && Enabled(c, s, SenderMove(i)) && Expected(s, v) && s.senders[i].pc.CasLast?
    ensures Expected(SenderStep(c, s, i), NextView(c, s, v, SenderMove(i)))
  {
    assert OwnedBy(v, s.senders[i].pc.node, BySender(i));
    ExpectedKept(s, SenderStep(c, s, i), v, NextView(c, s, v, SenderMove(i)), i);
  }

  lemma ExpectedSender(c: Config, s: State, v: View, i: nat, t: State)
    requires Inv(c, s, v) && Enabled(c, s, SenderMove(i)) && Expected(s, v) && t == SenderStep(c, s, i)
    requires !(s.senders[i].pc.PopCas? && s.freeHead == To(s.senders[i].pc.node))
    ensures Expected(t, NextView(c, s, v, SenderMove(i)))
  {
    var pc := s.senders[i].pc;
    if pc.PopHead? || pc.PopNext? {
      ExpectedRead(c, s, v, i, t);
    } else if pc.CasLast? {
      ExpectedPublish(c, s, v, i);
    } else if Held(pc).To? {
      ExpectedFill(c, s, v, i, t);
    } else {
      if pc.LinkNext? {
        assert PendingAt(s, v, pc.node, pc.oldLast);
      }
      ExpectedKept(s, t, v, v, i);
    }
  }

  lemma ExclusiveStep(c: Config, s: State, v: View, e: Event)
    requires Inv(c, s, v) && Enabled(c, s, e) && Exclusive(s) && Expected(s, v)
    ensures Fresh(s, e) && Expected(Apply(c, s, e), NextView(c, s, v, e))
  {
    match e
    case StartSend(i, msg) => ExpectedKept(s, Apply(c, s, e), v, v, i);
    case SenderMove(i) =>
      assert Expects(s, v, s.senders[i]);
      if s.senders[i].pc.PopCas? && s.freeHead == To(s.senders[i].pc.node) {
        ExpectedSwap(c, s, v, i);
      } else {
        ExpectedSender(c, s, v, i, Apply(c, s, e));
      }
    case StartReceive(_) => ExpectedKept(s, Apply(c, s, e), v, v, |s.senders|);
    case ReceiverMove => ExpectedReceiver(c, s, v, Apply(c, s, e));
  }

  ghost predicate GoodExpected(c: Config, s: State) {
    exists v: View :: Inv(c, s, v) && Expected(s, v)
  }

  lemma ExpectedInit(c: Config, s: State)
    requires Usable(c) && Init(c, s)
    ensures GoodExpected(c, s)
  {
    InitInv(c, s);
    assert Inv(c, s, InitView(c)) && Expected(s, InitView(c));
  }

  lemma ExclusiveExtends(c: Config, prev: seq<State>, s: State, t: State)
    requires IsFreshRun(c, prev) && s == prev[|prev| - 1]
    requires GoodExpected(c, s) && Exclusive(s) && Next(c, s, t)
    ensures IsFreshRun(c, prev + [t]) && GoodExpected(c, t)
  {
    var u: View :| Inv(c, s, u) && Expected(s, u);
    var e :| Enabled(c, s, e) && t == Apply(c, s, e);
    ExclusiveStep(c, s, u, e);
    StepInv(c, s, u, e);
    ExtendFresh(c, prev, s, e, t);
    assert Inv(c, t, NextView(c, s, u, e)) && Expected(t, NextView(c, s, u, e));
  }

  lemma RunPrefix(c: Config, run: seq<State>)
    requires IsRun(c, run) && |run| > 1
    ensures IsRun(c, run[..|run| - 1]) && Next(c, run[|run| - 2], run[|run| - 1])
  {
    var prev := run[..|run| - 1];
    forall k: nat | k + 1 < |prev|
      ensures Next(c, prev[k], prev[k + 1])
    {
      assert Next(c, run[k], run[k + 1]);
    }
    assert Next(c, run[|run| - 2], run[|run| - 2 + 1]);
  }

  lemma ExclusivePrefix(c: Config, run: seq<State>)
    requires IsRun(c, run) && AllExclusive(run) && |run| > 1
    ensures var prev, s, t := run[..|run| - 1], run[|run| - 2], run[|run| - 1];
            && IsRun(c, prev) && AllExclusive(prev) && s == prev[|prev| - 1]
            && Next(c, s, t) && Exclusive(s) && run == prev + [t]
  {
    RunPrefix(c, run);
    LastOf(run);
  }

  lemma {:induction false} ExclusiveIsFresh(c: Config, run: seq<State>)
    requires Usable(c) && IsRun(c, run) && AllExclusive(run)
    ensures IsFreshRun(c, run) && GoodExpected(c, run[|run| - 1])
  {
    if |run| == 1 {
      ExpectedInit(c, run[0]);
    } else {
      var prev, s, t := run[..|run| - 1], run[|run| - 2], run[|run| - 1];
      ExclusivePrefix(c, run);
      ExclusiveIsFresh(c, prev);
      ExclusiveExtends(c, prev, s, t);
    }
  }

  /** No two senders between head read and swap, every access a step: faithful, one owner per node, no crash. */
  lemma ExclusiveRunsAreFaithful(c: Config, run: seq<State>)
    requires Usable(c) && IsRun(c, run) && AllExclusive(run)
    ensures Faithful(run[|run| - 1]) && run[|run| - 1].first.To? && !run[|run| - 1].receiver.Crashed?
    ensures OneOwnerEach(c, run[|run| - 1])
  {
    ExclusiveIsFresh(c, run);
    FreshRunsAreFaithful(c, run);
    EachNodeHasOneOwner(c, run);
  }

  // ---------------------------------------------------------------------------
  // One sender
  // ---------------------------------------------------------------------------

  lemma OneSenderIsExclusive(c: Config, run: seq<State>)
    requires Usable(c) && c.senders <= 1 && IsRun(c, run)
    ensures AllExclusive(run)
  {
    forall k: nat | k < |run|
      ensures Exclusive(run[k])
    {
      if k + 1 < |run| {
        assert Next(c, run[k], run[k + 1]);
      } else if k > 0 {
        assert Next(c, run[k - 1], run[k - 1 + 1]);
      }
    }
  }

  /** One sender and one receiver, every access a step of its own: faithful, one owner per node, no crash. */
  lemma OneSenderRunsAreFaithful(c: Config, run: seq<State>)
    requires Usable(c) && c.senders <= 1 && IsRun(c, run)
    ensures Faithful(run[|run| - 1]) && run[|run| - 1].first.To? && !run[|run| - 1].receiver.Crashed?
    ensures OneOwnerEach(c, run[|run| - 1])
  {
    OneSenderIsExclusive(c, run);
    ExclusiveRunsAreFaithful(c, run);
  }
}
