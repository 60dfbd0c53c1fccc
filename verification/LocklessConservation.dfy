/** No node of the lockless queue is lost or used twice, and what that means for the answer "queue full". */
module LocklessConservation {
  import opened LocklessQueue
  import opened QueueStatuses

  ghost function Elements(xs: seq<nat>): set<nat> {
    set x | x in xs
  }

  ghost predicate Distinct(xs: seq<nat>) {
    forall a: nat, b: nat | a < b < |xs| :: xs[a] != xs[b]
  }

  lemma {:induction false} DistinctCount(xs: seq<nat>)
    requires Distinct(xs)
    ensures |Elements(xs)| == |xs|
  {
    if xs == [] {
    } else {
      var init := xs[..|xs| - 1];
      DistinctCount(init);
      assert Elements(xs) == Elements(init) + {xs[|xs| - 1]};
    }
  }

  ghost function Below(n: nat): set<nat> {
    if n == 0 then {} else Below(n - 1) + {n - 1}
  }

  lemma {:induction false} BelowCount(n: nat)
    ensures |Below(n)| == n && forall x: nat :: x in Below(n) <==> x < n
  {
    if n == 0 {
    } else {
      BelowCount(n - 1);
    }
  }

  /** The nodes held by the first m senders. */
  ghost function HeldNodes(senders: seq<Sender>, m: nat): (r: seq<nat>)
    requires m <= |senders|
  {
    if m == 0 then []
    else HeldNodes(senders, m - 1) +
         (if Held(senders[m - 1].pc).To? then [Held(senders[m - 1].pc).node] else [])
  }

  lemma {:induction false} HeldNodesAre(c: Config, s: State, v: View, m: nat)
    requires Partition(c, s, v) && m <= |s.senders|
    ensures forall x: nat :: x in HeldNodes(s.senders, m) <==> exists i: nat :: i < m && Held(s.senders[i].pc) == To(x)
    ensures Distinct(HeldNodes(s.senders, m))
  {
    if m == 0 {
    } else {
      HeldNodesAre(c, s, v, m - 1);
      var l := Held(s.senders[m - 1].pc);
      if l.To? {
        assert OwnedBy(v, l.node, BySender(m - 1));
        assert forall i: nat | i < m - 1 :: Held(s.senders[i].pc) != l;
      }
    }
  }

  ghost function FreeingCount(r: ReceiverPc): nat {
    if Freeing(r).To? then 1 else 0
  }

  ghost function FreeingNodes(r: ReceiverPc): seq<nat> {
    if Freeing(r).To? then [Freeing(r).node] else []
  }

  /** The free nodes, the chain, the nodes being filled and the node being freed. */
  ghost function AllNodes(s: State, v: View): seq<nat>
    requires v.f <= |v.order|
  {
    v.free + v.order[v.f..] + HeldNodes(s.senders, |s.senders|) + FreeingNodes(s.receiver)
  }

  /** Entries at different places have different owners, or are held by different senders. */
  lemma NodesDistinct(c: Config, s: State, v: View)
    requires Partition(c, s, v) && v.f <= |v.order|
    ensures Distinct(AllNodes(s, v)) && forall x | x in AllNodes(s, v) :: x < c.maxmsg
  {
    var all, held := AllNodes(s, v), HeldNodes(s.senders, |s.senders|);
    HeldNodesAre(c, s, v, |s.senders|);
    var a, b, d := |v.free|, |v.free| + |v.order| - v.f, |v.free| + |v.order| - v.f + |held|;
    forall j: nat | j < |all|
      ensures all[j] < |v.own|
      ensures j < a ==> v.own[all[j]] == InFree(j)
      ensures a <= j < b ==> v.own[all[j]] == InChain(v.f + j - a)
      ensures b <= j < d ==> v.own[all[j]].BySender? && all[j] == held[j - b]
      ensures d <= j ==> v.own[all[j]] == ByReceiver && j == d
    {
      if j < a {
        assert OwnedBy(v, v.free[j], InFree(j));
      } else if j < b {
        assert OwnedBy(v, v.order[v.f + j - a], InChain(v.f + j - a));
      } else if j < d {
        assert all[j] == held[j - b] && held[j - b] in held;
        var i: nat :| i < |s.senders| && Held(s.senders[i].pc) == To(all[j]);
        assert OwnedBy(v, all[j], BySender(i));
      }
    }
  }

  /** Every node has an owner, and is in that owner's part of the list. */
  lemma NodesComplete(c: Config, s: State, v: View, x: nat)
    requires Partition(c, s, v) && v.f <= |v.order| && x < c.maxmsg
    ensures x in AllNodes(s, v)
  {
    var all, held := AllNodes(s, v), HeldNodes(s.senders, |s.senders|);
    HeldNodesAre(c, s, v, |s.senders|);
    assert Claimed(s, v, x);
    match v.own[x] {
      case InFree(p) => assert all[p] == x;
      case InChain(k) => assert all[|v.free| + k - v.f] == x;
      case BySender(i) => assert x in held;
      case ByReceiver => assert all[|v.free| + |v.order| - v.f + |held|] == x;
    }
  }

  lemma AllNodesListed(c: Config, s: State, v: View)
    requires Partition(c, s, v) && v.f <= |v.order|
    ensures Distinct(AllNodes(s, v)) && Elements(AllNodes(s, v)) == Below(c.maxmsg)
  {
    NodesDistinct(c, s, v);
    BelowCount(c.maxmsg);
    forall x: nat | x < c.maxmsg
      ensures x in AllNodes(s, v)
    {
      NodesComplete(c, s, v, x);
    }
  }

  /**
   Conservation: free nodes, undelivered messages with the dummy, nodes being filled and
   the node being freed add up to maxmsg.
   */
  lemma NodesAddUp(c: Config, s: State, v: View)
    requires Inv(c, s, v)
    ensures |v.free| + (|s.published| - v.f + 1) + |HeldNodes(s.senders, |s.senders|)| + FreeingCount(s.receiver)
            == c.maxmsg
  {
    AllNodesListed(c, s, v);
    DistinctCount(AllNodes(s, v));
    BelowCount(c.maxmsg);
  }

  /** Send answers "queue full" only when no node is free: all of them are in use. */
  lemma FullAnswerIsHonest(c: Config, s: State, v: View, i: nat)
    requires Inv(c, s, v) && i < |s.senders| && s.senders[i].pc.PopHead?
    ensures SenderStep(c, s, i).senders[i].pc == Idle(QueueFull) <==>
            (|s.published| - v.f + 1) + |HeldNodes(s.senders, |s.senders|)| + FreeingCount(s.receiver) == c.maxmsg
  {
    NodesAddUp(c, s, v);
  }
}
