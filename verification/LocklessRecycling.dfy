/**
 Why PopFree's compare-and-swap is not enough for two senders.

 PopFree reads the head node, then the node's link, then swaps the head for that link.
 Between the reads and the swap the node can be taken, delivered and freed again by
 others, and the swap still succeeds with a link that is out of date.  For every queue
 with at least two senders there is a run that delivers more messages than were published,
 one in which the receiver follows a null pointer, and, if messages have bytes at all, one
 that ends with wrong bytes; with one sender there is none.
 */
module LocklessRecycling {
  import opened LocklessQueue
  import opened QueueStatuses
  import opened LocklessSchedules
  import opened MachineWords

  ghost predicate IsPath(c: Config, path: seq<State>) {
    path != [] && forall k: nat | k + 1 < |path| :: Next(c, path[k], path[k + 1])
  }

  /** t can be reached from s by steps of any threads. */
  ghost predicate Reach(c: Config, s: State, t: State) {
    exists path: seq<State> :: IsPath(c, path) && path[0] == s && path[|path| - 1] == t
  }

  lemma ReachSelf(c: Config, s: State)
    ensures Reach(c, s, s)
  {
    assert IsPath(c, [s]);
  }

  lemma Extend(c: Config, s0: State, s: State, e: Event) returns (t: State)
    requires Reach(c, s0, s) && TypeOk(c, s) && Enabled(c, s, e)
    ensures t == Apply(c, s, e) && TypeOk(c, t) && Reach(c, s0, t)
  {
    t := Apply(c, s, e);
    var path: seq<State> :| IsPath(c, path) && path[0] == s0 && path[|path| - 1] == s;
    var longer := path + [t];
    assert Next(c, s, t);
    forall k: nat | k + 1 < |longer|
      ensures Next(c, longer[k], longer[k + 1])
    {
      if k + 1 < |path| {
        assert Next(c, path[k], path[k + 1]);
      }
    }
    assert IsPath(c, longer) && longer[0] == s0;
  }

  lemma SenderMoves(c: Config, s0: State, s: State, i: nat) returns (t: State)
    requires Reach(c, s0, s) && TypeOk(c, s) && Enabled(c, s, SenderMove(i))
    ensures t == SenderStep(c, s, i) && TypeOk(c, t) && Reach(c, s0, t)
  {
    t := Extend(c, s0, s, SenderMove(i));
  }

  lemma ReceiverMoves(c: Config, s0: State, s: State) returns (t: State)
    requires Reach(c, s0, s) && TypeOk(c, s) && Enabled(c, s, ReceiverMove)
    ensures t == ReceiverStep(c, s) && TypeOk(c, t) && Reach(c, s0, t)
  {
    t := Extend(c, s0, s, ReceiverMove);
  }

  // ---------------------------------------------------------------------------
  // Undisturbed pieces of Send and Receive
  // ---------------------------------------------------------------------------

  /** Sender i enters Send and reads the free-list head. */
  lemma ReadHead(c: Config, s0: State, s: State, i: nat, msg: Message) returns (t: State)
    requires Reach(c, s0, s) && TypeOk(c, s) && i < |s.senders| && s.senders[i].pc.Idle?
    requires |msg| <= c.msgsize && s.freeHead.To?
    ensures TypeOk(c, t) && Reach(c, s0, t)
    ensures t == s.(senders := s.senders[i := Sender(PopNext(s.freeHead.node), msg)])
  {
    t := Extend(c, s0, s, StartSend(i, msg));
    t := SenderMoves(c, s0, t, i);
  }

  /** Sender i takes the head node off the free list. */
  lemma Take(c: Config, s0: State, s: State, i: nat, msg: Message) returns (t: State)
    requires Reach(c, s0, s) && TypeOk(c, s) && i < |s.senders| && s.senders[i].pc.Idle?
    requires |msg| <= c.msgsize && s.freeHead.To?
    ensures TypeOk(c, t) && Reach(c, s0, t)
    ensures t == s.(senders := s.senders[i := Sender(CopyIn(s.freeHead.node, 0), msg)],
                    freeHead := s.next[s.freeHead.node])
  {
    t := ReadHead(c, s0, s, i, msg);
    t := SenderMoves(c, s0, t, i);
    t := SenderMoves(c, s0, t, i);
  }

  ghost function Filled(s: State, n: nat, msg: Message): State
    requires n < |s.data| && n < |s.size| && |msg| <= 1 && |msg| <= |s.data[n]|
  {
    s.(data := s.data[n := msg + s.data[n][|msg|..]], size := s.size[n := |msg|])
  }

  /** Sender i copies its message, of at most one byte. */
  lemma CopyAll(c: Config, s0: State, s: State, i: nat, n: nat, msg: Message) returns (t: State)
    requires Reach(c, s0, s) && TypeOk(c, s) && i < |s.senders|
    requires s.senders[i] == Sender(CopyIn(n, 0), msg) && |msg| <= 1
    requires n < |s.data| && |msg| <= |s.data[n]|
    ensures TypeOk(c, t) && Reach(c, s0, t)
    ensures t == s.(data := s.data[n := msg + s.data[n][|msg|..]],
                    senders := s.senders[i := Sender(SetSize(n), msg)])
  {
    t := s;
    if |msg| == 1 {
      t := SenderMoves(c, s0, t, i);
      assert s.data[n][0 := msg[0]] == msg + s.data[n][1..];
    } else {
      assert s.data[n] == msg + s.data[n][0..];
      assert s.data[n := s.data[n]] == s.data;
    }
    t := SenderMoves(c, s0, t, i);
  }

  /** Sender i fills its node with at most one byte. */
  lemma Fill(c: Config, s0: State, s: State, i: nat, n: nat, msg: Message) returns (t: State)
    requires Reach(c, s0, s) && TypeOk(c, s) && i < |s.senders|
    requires s.senders[i] == Sender(CopyIn(n, 0), msg) && |msg| <= 1
    requires n < |s.data| && n < |s.size| && |msg| <= |s.data[n]|
    ensures TypeOk(c, t) && Reach(c, s0, t)
    ensures t == Filled(s, n, msg).(senders := s.senders[i := Sender(ClearNext(n), msg)])
  {
    t := CopyAll(c, s0, s, i, n, msg);
    t := SenderMoves(c, s0, t, i);
  }

  /** Sender i clears its node's link and publishes the node. */
  lemma Publish(c: Config, s0: State, s: State, i: nat, n: nat, msg: Message) returns (t: State)
    requires Reach(c, s0, s) && TypeOk(c, s) && i < |s.senders|
    requires s.senders[i] == Sender(ClearNext(n), msg) && n < |s.next|
    ensures TypeOk(c, t) && Reach(c, s0, t)
    ensures t == s.(next := s.next[n := Null], last := n, published := s.published + [msg],
                    senders := s.senders[i := Sender(LinkNext(n, s.last), msg)])
  {
    t := SenderMoves(c, s0, s, i);
    t := SenderMoves(c, s0, t, i);
    t := SenderMoves(c, s0, t, i);
  }

  /** Sender i publishes its node and links it behind the old last node. */
  lemma Append(c: Config, s0: State, s: State, i: nat, n: nat, msg: Message) returns (t: State)
    requires Reach(c, s0, s) && TypeOk(c, s) && i < |s.senders|
    requires s.senders[i] == Sender(ClearNext(n), msg) && n < |s.next| && s.last < |s.next|
    ensures TypeOk(c, t) && Reach(c, s0, t)
    ensures t == s.(next := s.next[n := Null][s.last := To(n)], last := n, published := s.published + [msg],
                    senders := s.senders[i := Sender(Idle(QueueOk), msg)])
  {
    t := Publish(c, s0, s, i, n, msg);
    t := SenderMoves(c, s0, t, i);
  }

  /** An undisturbed Send of at most one byte. */
  lemma SendAlone(c: Config, s0: State, s: State, i: nat, msg: Message) returns (t: State)
    requires Reach(c, s0, s) && TypeOk(c, s) && i < |s.senders| && s.senders[i].pc.Idle?
    requires |msg| <= c.msgsize && |msg| <= 1 && s.freeHead.To?
    ensures TypeOk(c, t) && Reach(c, s0, t)
    ensures var n := s.freeHead.node;
            t == Filled(s, n, msg).(
              next := s.next[n := Null][s.last := To(n)], last := n, published := s.published + [msg],
              freeHead := s.next[n], senders := s.senders[i := Sender(Idle(QueueOk), msg)])
  {
    var n := s.freeHead.node;
    t := Take(c, s0, s, i, msg);
    t := Fill(c, s0, t, i, n, msg);
    t := Append(c, s0, t, i, n, msg);
  }

  /** The dummy node o is linked to a message's node. */
  ghost predicate Follows(s: State, o: nat, my: nat) {
    s.first == To(o) && o != s.last && NextIs(s, o, To(my))
  }

  /** The receiver advances and pushes the old dummy onto the free list, undisturbed. */
  lemma Recycle(c: Config, s0: State, s: State, o: nat, my: nat) returns (t: State)
    requires Reach(c, s0, s) && TypeOk(c, s) && s.receiver.Waiting? && Follows(s, o, my)
    ensures TypeOk(c, t) && Reach(c, s0, t)
    ensures t == s.(next := s.next[o := s.freeHead], freeHead := To(o), first := To(my),
                    receiver := ReadSize(my))
  {
    t := Extend(c, s0, s, StartReceive(c.msgsize));
    t := ReceiverMoves(c, s0, t);
    t := ReceiverMoves(c, s0, t);
    t := ReceiverMoves(c, s0, t);
    t := ReceiverMoves(c, s0, t);
    t := ReceiverMoves(c, s0, t);
    t := ReceiverMoves(c, s0, t);
  }

  /** An undisturbed Receive of at most one byte. */
  lemma ReceiveAlone(c: Config, s0: State, s: State, o: nat, my: nat) returns (t: State)
    requires Reach(c, s0, s) && TypeOk(c, s) && s.receiver.Waiting? && Follows(s, o, my)
    requires my < |s.size| && s.size[my] <= 1
    ensures TypeOk(c, t) && Reach(c, s0, t)
    ensures my < |s.data| && s.size[my] <= |s.data[my]|
    ensures t == s.(next := s.next[o := s.freeHead], freeHead := To(o), first := To(my),
                    receiver := Waiting(QueueOk),
                    received := s.received + [Delivery(s.data[my][..s.size[my]], s.size[my])])
  {
    t := Recycle(c, s0, s, o, my);
    t := ReceiverMoves(c, s0, t);
    if s.size[my] == 1 {
      t := ReceiverMoves(c, s0, t);
      assert [] + [s.data[my][0]] == s.data[my][..1];
    }
    t := ReceiverMoves(c, s0, t);
    t := ReceiverMoves(c, s0, t);
  }

  // ---------------------------------------------------------------------------
  // The run
  // ---------------------------------------------------------------------------

  ghost predicate Racing(c: Config) {
    c.maxmsg >= 2 && c.senders >= 2
  }

  /** Sender 0 reads head node 1; sender 1 sends through node 1 and node 0 is freed. */
  lemma FirstRound(c: Config, s0: State) returns (t: State)
    requires Racing(c) && Init(c, s0)
    ensures TypeOk(c, t) && Reach(c, s0, t)
    ensures t.senders[0] == Sender(PopNext(1), []) && t.senders[1].pc.Idle?
    ensures t.receiver.Waiting? && t.first == To(1) && t.last == 1 && t.freeHead == To(0)
    ensures t.published == [[]] && |t.received| == 1
  {
    ReachSelf(c, s0);
    t := ReadHead(c, s0, s0, 0, []);
    t := SendAlone(c, s0, t, 1, []);
    t := ReceiveAlone(c, s0, t, 0, 1);
  }

  /**
   A second message goes through node 0 while sender 0 reads node 1's link; once it is
   received, node 1 is back at the head and node 0 is the dummy.
   */
  lemma StaleHead(c: Config, s0: State) returns (t: State)
    requires Racing(c) && Init(c, s0)
    ensures TypeOk(c, t) && Reach(c, s0, t)
    ensures t.senders[0] == Sender(PopCas(1, To(0)), []) && t.senders[1].pc.Idle?
    ensures t.receiver.Waiting? && t.first == To(0) && t.last == 0 && t.freeHead == To(1)
    ensures t.next[0] == Null && t.size[0] == 0
    ensures t.published == [[], []] && |t.received| == 2
  {
    t := FirstRound(c, s0);
    t := SendAlone(c, s0, t, 1, []);
    t := SenderMoves(c, s0, t, 0);
    t := ReceiveAlone(c, s0, t, 1, 0);
  }

  /** Sender 0's swap succeeds and makes the dummy node 0 the head of the free list. */
  lemma DummyOnFreeList(c: Config, s0: State) returns (t: State)
    requires Racing(c) && Init(c, s0)
    ensures TypeOk(c, t) && Reach(c, s0, t)
    ensures t.senders[0].pc.Idle? && t.senders[1].pc.Idle?
    ensures t.receiver.Waiting? && t.first == To(0) && t.last == 1 && t.freeHead == To(0)
    ensures t.next[0] == To(1) && t.next[1] == Null && t.size[0] == 0 && t.size[1] == 0
    ensures t.published == [[], [], []] && |t.received| == 2
  {
    t := StaleHead(c, s0);
    t := SenderMoves(c, s0, t, 0);
    t := Fill(c, s0, t, 0, 1, []);
    t := Append(c, s0, t, 0, 1, []);
  }

  /** Two more sends overwrite the undelivered third message; Receive returns the fourth instead. */
  lemma WrongDelivery(c: Config, s0: State) returns (t: State)
    requires Racing(c) && c.msgsize >= 1 && Init(c, s0)
    ensures Reach(c, s0, t) && !Faithful(t)
  {
    t := DummyOnFreeList(c, s0);
    t := Take(c, s0, t, 1, []);
    t := Take(c, s0, t, 0, [0]);
    t := Fill(c, s0, t, 0, 1, [0]);
    t := Publish(c, s0, t, 0, 1, [0]);
    t := ReceiveAlone(c, s0, t, 0, 1);
    assert t.received[2].size == 1 && t.published[2] == [];
  }

  /** The receiver, with its node off the chain, frees it and returns an empty message. */
  lemma FreeAndReturn(c: Config, s0: State, s: State, o: nat, my: nat) returns (t: State)
    requires Reach(c, s0, s) && TypeOk(c, s) && s.receiver == PushHead(o, my)
    requires o < |s.next| && my < |s.size| && s.size[my] == 0
    ensures TypeOk(c, t) && Reach(c, s0, t)
    ensures t == s.(next := s.next[o := s.freeHead], freeHead := To(o), receiver := Waiting(QueueOk),
                    received := s.received + [Delivery([], 0)])
  {
    t := ReceiverMoves(c, s0, s);
    t := ReceiverMoves(c, s0, t);
    t := ReceiverMoves(c, s0, t);
    t := ReceiverMoves(c, s0, t);
    t := ReceiverMoves(c, s0, t);
    t := ReceiverMoves(c, s0, t);
  }

  /** The receiver has read the dummy's link once, and a sender is about to clear it. */
  lemma BetweenReads(c: Config, s0: State) returns (t: State)
    requires Racing(c) && Init(c, s0)
    ensures TypeOk(c, t) && Reach(c, s0, t)
    ensures t.senders[1] == Sender(ClearNext(0), []) && t.receiver == Advance(0, 1) && t.size[1] == 0
  {
    t := DummyOnFreeList(c, s0);
    t := Take(c, s0, t, 1, []);
    t := Fill(c, s0, t, 1, 0, []);
    t := Extend(c, s0, t, StartReceive(c.msgsize));
    t := ReceiverMoves(c, s0, t);
    t := ReceiverMoves(c, s0, t);
  }

  /** A sender clears the link before the receiver reads it again: Receive returns, but has lost the chain. */
  lemma ChainLost(c: Config, s0: State) returns (t: State)
    requires Racing(c) && Init(c, s0)
    ensures TypeOk(c, t) && Reach(c, s0, t) && t.receiver == Waiting(QueueOk) && t.first.Null?
  {
    t := BetweenReads(c, s0);
    t := SenderMoves(c, s0, t, 1);
    t := ReceiverMoves(c, s0, t);
    t := FreeAndReturn(c, s0, t, 0, 1);
  }

  /** The next Receive follows the null pointer. */
  lemma NullFollowed(c: Config, s0: State) returns (t: State)
    requires Racing(c) && Init(c, s0)
    ensures Reach(c, s0, t) && t.receiver.Crashed?
  {
    t := ChainLost(c, s0);
    t := Extend(c, s0, t, StartReceive(c.msgsize));
    t := ReceiverMoves(c, s0, t);
    t := ReceiverMoves(c, s0, t);
  }

  /** The receiver takes the next node off the chain and stops before freeing the old one. */
  lemma StepOn(c: Config, s0: State, s: State, o: nat, my: nat) returns (t: State)
    requires Reach(c, s0, s) && TypeOk(c, s) && s.receiver.Waiting? && Follows(s, o, my)
    ensures TypeOk(c, t) && Reach(c, s0, t)
    ensures t == s.(first := To(my), receiver := PushHead(o, my))
  {
    t := Extend(c, s0, s, StartReceive(c.msgsize));
    t := ReceiverMoves(c, s0, t);
    t := ReceiverMoves(c, s0, t);
    t := ReceiverMoves(c, s0, t);
  }

  /** The receiver has left node 0, which the dummy's second owner publishes behind node 1; sender 1 holds node 1. */
  lemma BothNodesTwice(c: Config, s0: State) returns (t: State)
    requires Racing(c) && Init(c, s0)
    ensures TypeOk(c, t) && Reach(c, s0, t)
    ensures t.senders[1] == Sender(ClearNext(1), []) && t.receiver == PushHead(0, 1)
    ensures t.first == To(1) && t.last == 0 && t.freeHead == To(0) && t.next[0] == Null && t.next[1] == To(0)
    ensures t.size[0] == 0 && t.size[1] == 0 && |t.published| == 4 && |t.received| == 2
  {
    t := DummyOnFreeList(c, s0);
    t := Take(c, s0, t, 0, []);
    t := Fill(c, s0, t, 0, 0, []);
    t := ReadHead(c, s0, t, 1, []);
    t := StepOn(c, s0, t, 0, 1);
    t := Append(c, s0, t, 0, 0, []);
    t := SenderMoves(c, s0, t, 1);
    t := SenderMoves(c, s0, t, 1);
    t := Fill(c, s0, t, 1, 1, []);
  }

  /** Node 0, freed while it is the last node, now links to itself and is the receiver's first node. */
  lemma SelfLink(c: Config, s0: State) returns (t: State)
    requires Racing(c) && Init(c, s0)
    ensures TypeOk(c, t) && Reach(c, s0, t)
    ensures t.receiver == PushHead(1, 0) && t.first == To(0) && t.last == 1 && t.freeHead == To(0)
    ensures t.next[0] == To(0) && t.size[0] == 0 && t.size[1] == 0
    ensures |t.published| == 5 && |t.received| == 3
  {
    t := BothNodesTwice(c, s0);
    t := FreeAndReturn(c, s0, t, 0, 1);
    t := StepOn(c, s0, t, 1, 0);
    t := Publish(c, s0, t, 1, 1, []);
  }

  /** Following the loop, Receive returns more messages than were published. */
  lemma MoreThanPublished(c: Config, s0: State) returns (t: State)
    requires Racing(c) && Init(c, s0)
    ensures Reach(c, s0, t) && |t.received| > |t.published|
  {
    t := SelfLink(c, s0);
    t := FreeAndReturn(c, s0, t, 1, 0);
    t := ReceiveAlone(c, s0, t, 0, 0);
    t := ReceiveAlone(c, s0, t, 0, 1);
  }

  ghost predicate AllRunsFaithful(c: Config) {
    forall run: seq<State> :: IsRun(c, run) ==> Faithful(run[|run| - 1])
  }

  ghost function FirstState(c: Config): (s: State)
    requires Usable(c)
    ensures Init(c, s)
  {
    State(seq(c.maxmsg, (n: nat) => if n == 0 || n + 1 == c.maxmsg then Null else To(n + 1)),
          seq(c.maxmsg, _ => 0), seq(c.maxmsg, _ => seq(c.msgsize, _ => 0)),
          To(0), 0, To(1), seq(c.senders, _ => Sender(Idle(QueueOk), [])), Waiting(QueueOk), [], [])
  }

  /**
   The queue as written delivers faithfully in every interleaving exactly when at most
   one thread sends.
   */
  lemma FaithfulIffOneSender(c: Config)
    requires Usable(c)
    ensures AllRunsFaithful(c) <==> c.senders <= 1
  {
    if c.senders <= 1 {
      forall run: seq<State> | IsRun(c, run)
        ensures Faithful(run[|run| - 1])
      {
        OneSenderRunsAreFaithful(c, run);
      }
    } else {
      var s0 := FirstState(c);
      var t := MoreThanPublished(c, s0);
      var path: seq<State> :| IsPath(c, path) && path[0] == s0 && path[|path| - 1] == t;
      assert IsRun(c, path);
    }
  }
}
