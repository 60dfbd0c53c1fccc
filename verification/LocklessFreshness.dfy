/**
 Freshness of PopFree's swap is not only enough but exactly what is needed: in every run all
 of whose states give each node one owner, each successful swap installs a current link.
 */
module LocklessFreshness {
  import opened LocklessQueue
  import opened LocklessSchedules
  import opened Sequences

  /** Sender i's swap has just taken node n, and whatever link it had captured became the head. */
  ghost predicate Swapped(s: State, t: State, i: nat, n: nat) {
    && i < |s.senders| && s.senders[i].pc.PopCas? && s.senders[i].pc.node == n
    && s.freeHead == To(n) && n < |s.data|
    && t == At(s, i, CopyIn(n, 0)).(freeHead := s.senders[i].pc.captured)
  }

  ghost predicate InHand(v: View, m: nat) {
    m < |v.own| && (v.own[m].BySender? || v.own[m].ByReceiver?)
  }

  /** What senders and receiver hold they keep holding, in any view of the new state. */
  lemma StaysInHand(c: Config, s: State, v: View, t: State, w: View, i: nat, n: nat, m: nat)
    requires Partition(c, s, v) && Partition(c, t, w) && Swapped(s, t, i, n)
    requires InHand(v, m) || m == n
    ensures InHand(w, m)
  {
    if m == n {
      assert OwnedBy(w, n, BySender(i));
    } else {
      assert Claimed(s, v, m);
      match v.own[m]
      case BySender(j) => assert Held(t.senders[j].pc) == To(m) && OwnedBy(w, m, BySender(j));
      case ByReceiver => assert OwnedBy(w, m, ByReceiver);
    }
  }

  /** Only the top of the free list links to the node below it, unless a thread is writing a node of its own. */
  lemma LinkerOfSecond(c: Config, s: State, v: View, y: nat)
    requires Partition(c, s, v) && FreeList(s, v) && Chain(s, v)
    requires |v.free| >= 2 && y < |v.own| && NextIs(s, y, To(v.free[|v.free| - 2]))
    ensures y == v.free[|v.free| - 1] || InHand(v, y)
  {
    var p := |v.free| - 2;
    assert Claimed(s, v, y) && OwnedBy(v, v.free[p], InFree(p));
    if v.own[y].InFree? {
      var q := v.own[y].p;
      assert s.next[v.free[q]] == Top(v.free[..q]);
      assert OwnedBy(v, v.free[q - 1], InFree(q - 1));
    } else if v.own[y].InChain? {
      ChainSuccessor(c, s, v, y);
    }
  }

  /** A chain node that has a link is linked to a chain node. */
  lemma ChainSuccessor(c: Config, s: State, v: View, y: nat)
    requires Partition(c, s, v) && Chain(s, v) && y < |v.own| && v.own[y].InChain? && y < |s.next| && s.next[y].To?
    ensures OwnedBy(v, s.next[y].node, InChain(v.own[y].c + 1))
  {
    assert Claimed(s, v, y);
    var k := v.own[y].c + 1;
    assert k < |v.order| && v.order[k - 1] == y;
    assert LinkedOrPending(s, v.order[k - 1], v.order[k]) && OwnedBy(v, v.order[k], InChain(k));
  }

  /** Every chain node but the first has a chain node before it. */
  lemma ChainPredecessor(c: Config, t: State, w: View, x: nat) returns (y: nat)
    requires Partition(c, t, w) && Chain(t, w) && x < |w.own| && w.own[x].InChain? && t.first != To(x)
    ensures y < |w.own| && w.own[y].InChain? && LinkedOrPending(t, y, x)
  {
    assert Claimed(t, w, x);
    var k := w.own[x].c;
    assert w.f < k;
    y := w.order[k - 1];
    assert LinkedOrPending(t, w.order[k - 1], w.order[k]) && OwnedBy(w, w.order[k - 1], InChain(k - 1));
  }

  /** A link that is pending after the swap was so before. */
  lemma PendingBefore(s: State, v: View, t: State, i: nat, n: nat, x: nat, y: nat)
    requires Pending(s, v) && Swapped(s, t, i, n) && LinkedOrPending(t, y, x)
    ensures t.next[y] == To(x) || PendingAt(s, v, x, y)
  {
    if t.next[y] != To(x) {
      var j: nat :| LinksNext(t, j, x, y);
      assert s.senders[j] == t.senders[j];
    }
  }

  /** Nobody in the chain or on the free list links to the second free node any more. */
  lemma SecondUnlinked(c: Config, s: State, v: View, t: State, w: View, i: nat, n: nat, y: nat)
    requires Partition(c, s, v) && FreeList(s, v) && Chain(s, v) && Partition(c, t, w) && Swapped(s, t, i, n)
    requires |v.free| >= 2 && NextIs(t, y, To(v.free[|v.free| - 2])) && y < |w.own|
    ensures InHand(w, y)
  {
    LinkerOfSecond(c, s, v, y);
    StaysInHand(c, s, v, t, w, i, n, y);
  }

  lemma SecondNotInChain(c: Config, s: State, v: View, t: State, w: View, i: nat, n: nat, x: nat)
    requires Owned(c, s, v) && Owned(c, t, w) && Swapped(s, t, i, n)
    requires |v.free| >= 2 && x == v.free[|v.free| - 2] && x < |w.own|
    ensures !w.own[x].InChain?
  {
    assert OwnedBy(v, x, InFree(|v.free| - 2)) && OwnedBy(v, v.order[v.f], InChain(v.f));
    if w.own[x].InChain? {
      var y := ChainPredecessor(c, t, w, x);
      PendingBefore(s, v, t, i, n, x, y);
      SecondUnlinked(c, s, v, t, w, i, n, y);
    }
  }

  lemma AboveInFree(t: State, w: View, p: nat)
    requires FreeList(t, w) && 0 < p < |w.free|
    ensures NextIs(t, w.free[p], To(w.free[p - 1]))
  {
    assert t.next[w.free[p]] == Top(w.free[..p]);
  }

  /** Every node on the free list but the top has a free node linked to it. */
  lemma FreePredecessor(c: Config, t: State, w: View, x: nat) returns (y: nat)
    requires Partition(c, t, w) && FreeList(t, w) && x < |w.own| && w.own[x].InFree? && t.freeHead != To(x)
    ensures y < |w.own| && w.own[y].InFree? && NextIs(t, y, To(x))
  {
    assert Claimed(t, w, x);
    var p := w.own[x].p + 1;
    AboveInFree(t, w, p);
    y := w.free[p];
    assert OwnedBy(w, w.free[p], InFree(p));
  }

  lemma SecondNotFree(c: Config, s: State, v: View, t: State, w: View, i: nat, n: nat, x: nat)
    requires Owned(c, s, v) && Owned(c, t, w) && Swapped(s, t, i, n)
    requires |v.free| >= 2 && x == v.free[|v.free| - 2] && x < |w.own| && w.own[x].InFree?
    ensures t.freeHead == To(x)
  {
    if t.freeHead != To(x) {
      var y := FreePredecessor(c, t, w, x);
      SecondUnlinked(c, s, v, t, w, i, n, y);
    }
  }

  lemma SecondNotInHand(c: Config, s: State, v: View, t: State, w: View, i: nat, n: nat, x: nat)
    requires Partition(c, s, v) && FreeList(s, v) && Partition(c, t, w) && Swapped(s, t, i, n)
    requires |v.free| >= 2 && x == v.free[|v.free| - 2] && x < |w.own|
    ensures !InHand(w, x)
  {
    assert OwnedBy(v, x, InFree(|v.free| - 2)) && OwnedBy(v, n, InFree(|v.free| - 1)) && Claimed(t, w, x);
  }

  /** With a second free node, it has to be the new head. */
  lemma SecondIsHead(c: Config, s: State, v: View, t: State, w: View, i: nat, n: nat)
    requires Owned(c, s, v) && Owned(c, t, w) && Swapped(s, t, i, n) && |v.free| >= 2
    ensures t.freeHead == To(v.free[|v.free| - 2])
  {
    var x := v.free[|v.free| - 2];
    assert OwnedBy(v, x, InFree(|v.free| - 2));
    SecondNotInChain(c, s, v, t, w, i, n, x);
    SecondNotInHand(c, s, v, t, w, i, n, x);
    SecondNotFree(c, s, v, t, w, i, n, x);
  }

  /** Any two successors of a chain node, one before and one after the swap, are the same. */
  lemma SuccessorInChain(c: Config, s: State, v: View, t: State, w: View, i: nat, n: nat, z: nat, y: nat, u: nat)
    requires Partition(c, s, v) && Pending(s, v) && Swapped(s, t, i, n)
    requires z < |v.own| && v.own[z].InChain? && OwnedBy(v, y, InChain(v.own[z].c + 1))
    requires LinkedOrPending(s, z, y) && LinkedOrPending(t, z, u)
    ensures u == y
  {
    PendingBefore(s, v, t, i, n, u, z);
    if s.next[z] == Null {
      assert Claimed(s, v, u) && Claimed(s, v, y);
    }
  }

  lemma SuccessorOf(c: Config, t: State, w: View, z: nat) returns (u: nat)
    requires Partition(c, t, w) && Chain(t, w) && z < |w.own| && w.own[z].InChain? && z != t.last
    ensures OwnedBy(w, u, InChain(w.own[z].c + 1)) && LinkedOrPending(t, z, u)
  {
    assert Claimed(t, w, z);
    var k := w.own[z].c + 1;
    assert k < |w.order|;
    u := w.order[k];
    assert LinkedOrPending(t, w.order[k - 1], w.order[k]) && OwnedBy(w, w.order[k], InChain(k));
  }

  lemma ChainNode(c: Config, s: State, v: View, k: nat)
    requires Partition(c, s, v) && Chain(s, v) && v.f <= k && k + 1 < |v.order|
    ensures OwnedBy(v, v.order[k], InChain(k)) && OwnedBy(v, v.order[k + 1], InChain(k + 1))
    ensures LinkedOrPending(s, v.order[k], v.order[k + 1]) && v.order[k] != s.last
  {
    assert OwnedBy(v, v.order[k], InChain(k)) && OwnedBy(v, v.order[k + 1], InChain(k + 1));
    assert OwnedBy(v, v.order[|v.order| - 1], InChain(|v.order| - 1));
    assert LinkedOrPending(s, v.order[k + 1 - 1], v.order[k + 1]);
  }

  lemma NextStays(c: Config, s: State, v: View, t: State, w: View, i: nat, n: nat, z: nat, y: nat)
    requires Partition(c, s, v) && Pending(s, v) && Swapped(s, t, i, n) && Partition(c, t, w) && Chain(t, w)
    requires z < |v.own| && v.own[z].InChain? && OwnedBy(v, y, InChain(v.own[z].c + 1))
    requires LinkedOrPending(s, z, y) && z != s.last && z < |w.own| && w.own[z].InChain?
    ensures y < |w.own| && w.own[y].InChain?
  {
    var u := SuccessorOf(c, t, w, z);
    SuccessorInChain(c, s, v, t, w, i, n, z, y, u);
  }

  /** Node number k of the chain is in the chain of this view too. */
  ghost predicate Stays(v: View, w: View, k: nat)
    requires k < |v.order|
  {
    v.order[k] < |w.own| && w.own[v.order[k]].InChain?
  }

  lemma FirstStays(c: Config, s: State, v: View, t: State, w: View, i: nat, n: nat)
    requires Chain(s, v) && Partition(c, t, w) && Chain(t, w) && Swapped(s, t, i, n)
    ensures Stays(v, w, v.f)
  {
    assert OwnedBy(w, w.order[w.f], InChain(w.f));
  }

  lemma StaysOn(c: Config, s: State, v: View, t: State, w: View, i: nat, n: nat, k: nat)
    requires Partition(c, s, v) && Chain(s, v) && Pending(s, v) && Swapped(s, t, i, n)
    requires Partition(c, t, w) && Chain(t, w)
    requires v.f <= k && k + 1 < |v.order| && Stays(v, w, k)
    ensures Stays(v, w, k + 1)
  {
    ChainNode(c, s, v, k);
    NextStays(c, s, v, t, w, i, n, v.order[k], v.order[k + 1]);
  }

  lemma {:induction false} StaysAlong(v: View, w: View, k: nat)
    requires v.f <= k < |v.order| && Stays(v, w, v.f)
    requires forall m: nat | v.f <= m && m + 1 < |v.order| && Stays(v, w, m) :: Stays(v, w, m + 1)
    ensures Stays(v, w, k)
    decreases k
  {
    if k == v.f {
    } else {
      StaysAlong(v, w, k - 1);
      assert Stays(v, w, k - 1 + 1);
    }
  }

  /** The chain is the same in every view of the new state. */
  lemma ChainStays(c: Config, s: State, v: View, t: State, w: View, i: nat, n: nat, k: nat)
    requires Owned(c, s, v) && Owned(c, t, w) && Swapped(s, t, i, n) && v.f <= k < |v.order|
    ensures Stays(v, w, k)
  {
    FirstStays(c, s, v, t, w, i, n);
    forall m: nat | v.f <= m && m + 1 < |v.order| && Stays(v, w, m)
      ensures Stays(v, w, m + 1)
    {
      StaysOn(c, s, v, t, w, i, n, m);
    }
    StaysAlong(v, w, k);
  }

  /** Without a second free node, there is no new head. */
  lemma NothingIsHead(c: Config, s: State, v: View, t: State, w: View, i: nat, n: nat)
    requires Owned(c, s, v) && Owned(c, t, w) && Swapped(s, t, i, n) && |v.free| == 1
    ensures t.freeHead == Null
  {
    if w.free != [] {
      var p := |w.free| - 1;
      var y := w.free[p];
      assert OwnedBy(w, y, InFree(p)) && Claimed(s, v, y);
      if v.own[y].InChain? {
        ChainStays(c, s, v, t, w, i, n, v.own[y].c);
      } else {
        StaysInHand(c, s, v, t, w, i, n, y);
      }
    }
  }

  /** After a successful swap each node has one owner if and only if the link it installed was current. */
  lemma OneOwnerIffFresh(c: Config, s: State, v: View, t: State, i: nat, n: nat)
    requires Inv(c, s, v) && Swapped(s, t, i, n)
    ensures OneOwnerEach(c, t) <==> NextIs(s, n, s.senders[i].pc.captured)
  {
    var top := |v.free| - 1;
    assert v.free != [] && v.free[top] == n && s.next[n] == Top(v.free[..top]);
    if NextIs(s, n, s.senders[i].pc.captured) {
      PopMove(c, s, v, i, t);
      assert Owned(c, t, AfterPop(v, i));
    } else if OneOwnerEach(c, t) {
      var w: View :| Owned(c, t, w);
      if top == 0 {
        NothingIsHead(c, s, v, t, w, i, n);
      } else {
        SecondIsHead(c, s, v, t, w, i, n);
      }
      assert false;
    }
  }

  lemma OneOwnerStepIsFresh(c: Config, s: State, e: Event)
    requires Good(c, s) && Enabled(c, s, e) && OneOwnerEach(c, Apply(c, s, e))
    ensures Fresh(s, e)
  {
    var v: View :| Inv(c, s, v);
    if e.SenderMove? && s.senders[e.i].pc.PopCas? && s.freeHead == To(s.senders[e.i].pc.node) {
      OneOwnerIffFresh(c, s, v, Apply(c, s, e), e.i, s.senders[e.i].pc.node);
    }
  }

  ghost predicate AlwaysOneOwner(c: Config, run: seq<State>) {
    forall k: nat | k < |run| :: OneOwnerEach(c, run[k])
  }

  lemma OneOwnerExtends(c: Config, prev: seq<State>, s: State, t: State)
    requires Usable(c) && IsFreshRun(c, prev) && s == prev[|prev| - 1] && Next(c, s, t) && OneOwnerEach(c, t)
    ensures IsFreshRun(c, prev + [t])
  {
    RunInv(c, prev);
    var e :| Enabled(c, s, e) && t == Apply(c, s, e);
    OneOwnerStepIsFresh(c, s, e);
    ExtendFresh(c, prev, s, e, t);
  }

  lemma OneOwnerPrefix(c: Config, run: seq<State>)
    requires IsRun(c, run) && AlwaysOneOwner(c, run) && |run| > 1
    ensures var prev, s, t := run[..|run| - 1], run[|run| - 2], run[|run| - 1];
            && IsRun(c, prev) && AlwaysOneOwner(c, prev) && s == prev[|prev| - 1]
            && Next(c, s, t) && OneOwnerEach(c, t) && run == prev + [t]
  {
    RunPrefix(c, run);
    LastOf(run);
    var prev := run[..|run| - 1];
    forall k: nat | k < |prev|
      ensures OneOwnerEach(c, prev[k])
    {
      assert OneOwnerEach(c, run[k]);
    }
  }

  lemma {:induction false} OneOwnerRunsAreFresh(c: Config, run: seq<State>)
    requires Usable(c) && IsRun(c, run) && AlwaysOneOwner(c, run)
    ensures IsFreshRun(c, run)
  {
    if |run| == 1 {
    } else {
      var prev, s, t := run[..|run| - 1], run[|run| - 2], run[|run| - 1];
      OneOwnerPrefix(c, run);
      OneOwnerRunsAreFresh(c, prev);
      OneOwnerExtends(c, prev, s, t);
    }
  }

  lemma FreshRunsHaveOneOwner(c: Config, run: seq<State>)
    requires Usable(c) && IsFreshRun(c, run)
    ensures AlwaysOneOwner(c, run)
  {
    forall k: nat | k < |run|
      ensures OneOwnerEach(c, run[k])
    {
      var upTo := run[..k + 1];
      forall j: nat | j + 1 < |upTo|
        ensures FreshNext(c, upTo[j], upTo[j + 1])
      {
        assert FreshNext(c, run[j], run[j + 1]);
      }
      EachNodeHasOneOwner(c, upTo);
    }
  }

  /** A run keeps one owner for each node throughout if and only if each of its successful swaps is fresh. */
  lemma OneOwnerThroughoutIffFresh(c: Config, run: seq<State>)
    requires Usable(c) && IsRun(c, run)
    ensures AlwaysOneOwner(c, run) <==> IsFreshRun(c, run)
  {
    if AlwaysOneOwner(c, run) {
      OneOwnerRunsAreFresh(c, run);
    }
    if IsFreshRun(c, run) {
      FreshRunsHaveOneOwner(c, run);
    }
  }
}
