/**
 The compare-and-swap message queue as a step system over shared memory.

 Every read, write and compare-and-swap of a shared field is one step, and so is
 every byte that is copied into or out of a node.  Any number of senders and one
 receiver interleave freely.  The memory is sequentially consistent.

 Nodes are numbers below `maxmsg`; node 0 starts as the dummy node.
 */
module LocklessQueue {

  import opened MachineWords
  import opened QueueStatuses

  datatype Link = Null | To(node: nat)

  /** What one successful Receive hands to its caller: the bytes of the buffer and the size. */
  datatype Delivery = Delivery(bytes: Message, size: nat)

  datatype Config = Config(maxmsg: nat, msgsize: nat, senders: nat)

  ghost predicate Usable(c: Config) {
    c.maxmsg >= 2
  }

  /** Where a sender is: the name says which access it performs next. */
  datatype SenderPc =
    | Idle(result: Status)
    | PopHead                                // read m_free_head
    | PopNext(node: nat)                     // read node->next
    | PopCas(node: nat, captured: Link)      // CAS m_free_head
    | CopyIn(node: nat, k: nat)              // write byte k of the node
    | SetSize(node: nat)
    | ClearNext(node: nat)
    | ReadLast(node: nat)
    | CasLast(node: nat, oldLast: nat)       // CAS m_last: publishes the message
    | LinkNext(node: nat, oldLast: nat)      // write oldLast->next

  datatype Sender = Sender(pc: SenderPc, msg: Message)

  datatype ReceiverPc =
    | Waiting(result: Status)
    | CheckLast                                            // compare m_first with m_last
    | ReadNext                                             // read m_first->next
    | Advance(oldNode: nat, myNode: nat)                   // write m_first
    | PushHead(oldNode: nat, myNode: nat)                  // read m_free_head
    | PushLink(oldNode: nat, myNode: nat, head: Link)      // write oldNode->next
    | PushCas(oldNode: nat, myNode: nat, head: Link)       // CAS m_free_head
    | ReadSize(myNode: nat)
    | CopyOut(myNode: nat, n: nat, out: Message)           // read byte |out| of the node
    | ReturnSize(myNode: nat, out: Message)
    | Crashed                                              // followed m_first while it was null

  datatype State = State(
    next: seq<Link>, size: seq<nat>, data: seq<Message>,
    first: Link, last: nat, freeHead: Link,
    senders: seq<Sender>, receiver: ReceiverPc,
    published: seq<Message>,   // history: messages in the order their CAS on m_last succeeded
    received: seq<Delivery>)   // history: what Receive returned

  datatype Event =
    | StartSend(i: nat, msg: Message)
    | SenderMove(i: nat)
    | StartReceive(capacity: nat)
    | ReceiverMove

  // ---------------------------------------------------------------------------
  // The step function
  // ---------------------------------------------------------------------------

  ghost predicate NodeOk(c: Config, n: nat) {
    n < c.maxmsg
  }

  ghost predicate LinkOk(c: Config, l: Link) {
    l.To? ==> NodeOk(c, l.node)
  }

  ghost predicate SenderTypeOk(c: Config, x: Sender) {
    && |x.msg| <= c.msgsize
    && match x.pc
       case Idle(_) => true
       case PopHead => true
       case PopNext(n) => NodeOk(c, n)
       case PopCas(n, l) => NodeOk(c, n) && LinkOk(c, l)
       case CopyIn(n, k) => NodeOk(c, n) && k <= |x.msg|
       case SetSize(n) => NodeOk(c, n)
       case ClearNext(n) => NodeOk(c, n)
       case ReadLast(n) => NodeOk(c, n)
       case CasLast(n, o) => NodeOk(c, n) && NodeOk(c, o)
       case LinkNext(n, o) => NodeOk(c, n) && NodeOk(c, o)
  }

  ghost predicate ReceiverTypeOk(c: Config, r: ReceiverPc) {
    match r
    case Waiting(_) => true
    case CheckLast => true
    case ReadNext => true
    case Advance(o, m) => NodeOk(c, o) && NodeOk(c, m)
    case PushHead(o, m) => NodeOk(c, o) && NodeOk(c, m)
    case PushLink(o, m, h) => NodeOk(c, o) && NodeOk(c, m) && LinkOk(c, h)
    case PushCas(o, m, h) => NodeOk(c, o) && NodeOk(c, m) && LinkOk(c, h)
    case ReadSize(m) => NodeOk(c, m)
    case CopyOut(m, n, out) => NodeOk(c, m) && |out| <= n <= c.msgsize
    case ReturnSize(m, out) => NodeOk(c, m)
    case Crashed => true
  }

  /** Every pointer is null or points at a node, and every copy stays inside its node's buffer. */
  ghost predicate TypeOk(c: Config, s: State) {
    && |s.next| == |s.size| == |s.data| == c.maxmsg
    && |s.senders| == c.senders
    && LinkOk(c, s.first) && NodeOk(c, s.last) && LinkOk(c, s.freeHead)
    && (forall n: nat | n < c.maxmsg :: LinkOk(c, s.next[n]))
    && (forall n: nat | n < c.maxmsg :: s.size[n] <= c.msgsize)
    && (forall n: nat | n < c.maxmsg :: |s.data[n]| == c.msgsize)
    && (forall i: nat | i < c.senders :: SenderTypeOk(c, s.senders[i]))
    && ReceiverTypeOk(c, s.receiver)
  }

  /** The constructor chains node 1 to the last node into the free list; node 0 is the dummy. */
  ghost predicate Init(c: Config, s: State) {
    && TypeOk(c, s)
    && (forall n: nat | n < c.maxmsg ::
          s.next[n] == if n == 0 || n + 1 == c.maxmsg then Null else To(n + 1))
    && s.first == To(0) && s.last == 0 && s.freeHead == To(1)
    && (forall i: nat | i < c.senders :: s.senders[i].pc.Idle?)
    && s.receiver.Waiting?
    && s.published == [] && s.received == []
  }

  ghost predicate Enabled(c: Config, s: State, e: Event) {
    match e
    case StartSend(i, _) => i < |s.senders| && s.senders[i].pc.Idle?
    case SenderMove(i) => i < |s.senders| && !s.senders[i].pc.Idle?
    case StartReceive(_) => s.receiver.Waiting?
    case ReceiverMove => !s.receiver.Waiting? && !s.receiver.Crashed?
  }

  ghost function At(s: State, i: nat, pc: SenderPc): State
    requires i < |s.senders|
  {
    s.(senders := s.senders[i := s.senders[i].(pc := pc)])
  }

  ghost function SenderStep(c: Config, s: State, i: nat): (t: State)
    requires TypeOk(c, s) && Enabled(c, s, SenderMove(i))
    ensures TypeOk(c, t)
  {
    var msg := s.senders[i].msg;
    match s.senders[i].pc
    case PopHead =>
      if s.freeHead.Null? then At(s, i, Idle(QueueFull)) else At(s, i, PopNext(s.freeHead.node))
    case PopNext(n) =>
      At(s, i, PopCas(n, s.next[n]))
    case PopCas(n, captured) =>
      if s.freeHead == To(n)
      then At(s, i, CopyIn(n, 0)).(freeHead := captured)
      else At(s, i, PopHead)
    case CopyIn(n, k) =>
      if k < |msg|
      then At(s, i, CopyIn(n, k + 1)).(data := s.data[n := s.data[n][k := msg[k]]])
      else At(s, i, SetSize(n))
    case SetSize(n) =>
      At(s, i, ClearNext(n)).(size := s.size[n := |msg|])
    case ClearNext(n) =>
      At(s, i, ReadLast(n)).(next := s.next[n := Null])
    case ReadLast(n) =>
      At(s, i, CasLast(n, s.last))
    case CasLast(n, oldLast) =>
      if s.last == oldLast
      then At(s, i, LinkNext(n, oldLast)).(last := n, published := s.published + [msg])
      else At(s, i, ReadLast(n))
    case LinkNext(n, oldLast) =>
      At(s, i, Idle(QueueOk)).(next := s.next[oldLast := To(n)])
  }

  ghost function ReceiverStep(c: Config, s: State): (t: State)
    requires TypeOk(c, s) && Enabled(c, s, ReceiverMove)
    ensures TypeOk(c, t)
  {
    match s.receiver
    case CheckLast =>
      s.(receiver := if s.first == To(s.last) then Waiting(NoMoreMsgs) else ReadNext)
    case ReadNext =>
      if s.first.Null? then s.(receiver := Crashed)
      else
        var l := s.next[s.first.node];
        s.(receiver := if l.Null? then Waiting(NoMoreMsgs) else Advance(s.first.node, l.node))
    case Advance(prev, my) =>
      // m_first->next is read a second time here, and may have become null
      s.(first := s.next[prev], receiver := PushHead(prev, my))
    case PushHead(prev, my) =>
      s.(receiver := PushLink(prev, my, s.freeHead))
    case PushLink(prev, my, head) =>
      s.(next := s.next[prev := head], receiver := PushCas(prev, my, head))
    case PushCas(prev, my, head) =>
      if s.freeHead == head
      then s.(freeHead := To(prev), receiver := ReadSize(my))
      else s.(receiver := PushHead(prev, my))
    case ReadSize(my) =>
      s.(receiver := CopyOut(my, s.size[my], []))
    case CopyOut(my, n, out) =>
      if |out| < n
      then s.(receiver := CopyOut(my, n, out + [s.data[my][|out|]]))
      else s.(receiver := ReturnSize(my, out))
    case ReturnSize(my, out) =>
      s.(received := s.received + [Delivery(out, s.size[my])], receiver := Waiting(QueueOk))
  }

  ghost function Apply(c: Config, s: State, e: Event): (t: State)
    requires TypeOk(c, s) && Enabled(c, s, e)
    ensures TypeOk(c, t)
  {
    match e
    case StartSend(i, msg) =>
      if |msg| > c.msgsize
      then At(s, i, Idle(SizeMismatch))
      else s.(senders := s.senders[i := Sender(PopHead, msg)])
    case SenderMove(i) => SenderStep(c, s, i)
    case StartReceive(capacity) =>
      s.(receiver := if capacity < c.msgsize then Waiting(SizeMismatch) else CheckLast)
    case ReceiverMove => ReceiverStep(c, s)
  }

  ghost predicate Next(c: Config, s: State, t: State) {
    TypeOk(c, s) && exists e :: Enabled(c, s, e) && t == Apply(c, s, e)
  }

  /** A run: a finite interleaving, given by its states. */
  ghost predicate IsRun(c: Config, run: seq<State>) {
    && run != []
    && Init(c, run[0])
    && forall k: nat | k + 1 < |run| :: Next(c, run[k], run[k + 1])
  }

  // ---------------------------------------------------------------------------
  // What is claimed
  // ---------------------------------------------------------------------------

  /** What Receive returned so far is, in order and byte for byte, what was published first. */
  ghost predicate Faithful(s: State) {
    && |s.received| <= |s.published|
    && forall k: nat | k < |s.received| ::
         s.received[k] == Delivery(s.published[k], |s.published[k]|)
  }

  ghost predicate NextIs(s: State, n: nat, l: Link) {
    n < |s.next| && s.next[n] == l
  }

  /** If this step is PopFree's swap and succeeds, the link that it installs is still the node's link. */
  ghost predicate Fresh(s: State, e: Event) {
    e.SenderMove? && e.i < |s.senders| ==>
      var pc := s.senders[e.i].pc;
      pc.PopCas? && s.freeHead == To(pc.node) ==> NextIs(s, pc.node, pc.captured)
  }

  ghost predicate FreshNext(c: Config, s: State, t: State) {
    TypeOk(c, s) && exists e :: Enabled(c, s, e) && Fresh(s, e) && t == Apply(c, s, e)
  }

  /** A run in which every successful swap of PopFree installs a link that is not out of date. */
  ghost predicate IsFreshRun(c: Config, run: seq<State>) {
    && run != []
    && Init(c, run[0])
    && forall k: nat | k + 1 < |run| :: FreshNext(c, run[k], run[k + 1])
  }

  // ---------------------------------------------------------------------------
  // Ownership
  // ---------------------------------------------------------------------------

  /** Who owns a node; a list position comes with the list. */
  datatype Owner = InFree(p: nat) | InChain(c: nat) | BySender(i: nat) | ByReceiver

  /**
   `free` is the free list from bottom to top, `order` every node that ever became
   m_last in publish order (the first dummy included), `f` how often m_first advanced.
   */
  datatype View = View(free: seq<nat>, order: seq<nat>, f: nat, own: seq<Owner>)

  /** The node a sender holds: from the PopFree CAS to the m_last CAS. */
  ghost function Held(pc: SenderPc): Link {
    match pc
    case CopyIn(n, _) => To(n)
    case SetSize(n) => To(n)
    case ClearNext(n) => To(n)
    case ReadLast(n) => To(n)
    case CasLast(n, _) => To(n)
    case _ => Null
  }

  /** The node the receiver holds: the old dummy, until PushFree's CAS. */
  ghost function Freeing(r: ReceiverPc): Link {
    match r
    case PushHead(o, _) => To(o)
    case PushLink(o, _, _) => To(o)
    case PushCas(o, _, _) => To(o)
    case _ => Null
  }

  ghost predicate OwnedBy(v: View, n: nat, o: Owner) {
    n < |v.own| && v.own[n] == o
  }

  /** What the recorded owner of node n says is true. */
  ghost predicate Claimed(s: State, v: View, n: nat)
    requires n < |v.own|
  {
    match v.own[n]
    case InFree(p) => p < |v.free| && v.free[p] == n
    case InChain(k) => v.f <= k < |v.order| && v.order[k] == n
    case BySender(i) => i < |s.senders| && Held(s.senders[i].pc) == To(n)
    case ByReceiver => Freeing(s.receiver) == To(n)
  }

  /** Each node has exactly one owner, and everything that is owned is recorded. */
  ghost predicate Partition(c: Config, s: State, v: View) {
    && |v.own| == c.maxmsg
    && (forall n: nat | n < |v.own| :: Claimed(s, v, n))
    && (forall p: nat | p < |v.free| :: OwnedBy(v, v.free[p], InFree(p)))
    && (forall k: nat | v.f <= k < |v.order| :: OwnedBy(v, v.order[k], InChain(k)))
    && (forall i: nat | i < |s.senders| && Held(s.senders[i].pc).To? ::
          OwnedBy(v, Held(s.senders[i].pc).node, BySender(i)))
    && (Freeing(s.receiver).To? ==> OwnedBy(v, Freeing(s.receiver).node, ByReceiver))
  }

  ghost function Top(free: seq<nat>): Link {
    if free == [] then Null else To(free[|free| - 1])
  }

  ghost predicate FreeList(s: State, v: View) {
    && s.freeHead == Top(v.free)
    && forall p: nat | p < |v.free| ::
         && v.free[p] < |s.next|
         && s.next[v.free[p]] == Top(v.free[..p])
  }

  /** Sender i has published node n and has yet to write it into o's next field. */
  ghost predicate LinksNext(s: State, i: nat, n: nat, o: nat) {
    i < |s.senders| && s.senders[i].pc == LinkNext(n, o)
  }

  /** Node o is linked to n, or exactly that write is still pending. */
  ghost predicate LinkedOrPending(s: State, o: nat, n: nat) {
    && o < |s.next|
    && (s.next[o] == To(n) || (s.next[o] == Null && exists i: nat :: LinksNext(s, i, n, o)))
  }

  ghost predicate Chain(s: State, v: View) {
    && v.f < |v.order| == |s.published| + 1
    && s.first == To(v.order[v.f])
    && s.last == v.order[|v.order| - 1]
    && s.last < |s.next| && s.next[s.last] == Null
    && forall k: nat | v.f < k < |v.order| :: LinkedOrPending(s, v.order[k - 1], v.order[k])
  }

  /** A pending link write targets an unlinked chain node. */
  ghost predicate PendingAt(s: State, v: View, n: nat, o: nat) {
    && n < |v.own| && o < |v.own| && o < |s.next|
    && v.own[o].InChain? && v.own[n] == InChain(v.own[o].c + 1)
    && s.next[o] == Null
  }

  /** Every pending link write is in order, and no two link the same node. */
  ghost predicate Pending(s: State, v: View) {
    && (forall i: nat | i < |s.senders| && s.senders[i].pc.LinkNext? ::
          PendingAt(s, v, s.senders[i].pc.node, s.senders[i].pc.oldLast))
    && (forall i: nat, j: nat | i < j < |s.senders| && s.senders[i].pc.LinkNext? && s.senders[j].pc.LinkNext? ::
          s.senders[i].pc.node != s.senders[j].pc.node)
  }

  ghost predicate Stored(s: State, n: nat, m: Message) {
    n < |s.size| && n < |s.data| && s.size[n] == |m| && m <= s.data[n]
  }

  /** Chain nodes hold their messages; the current dummy still holds the one delivered last. */
  ghost predicate Contents(s: State, v: View) {
    && |v.order| == |s.published| + 1
    && forall k: nat | v.f <= k < |v.order| && k >= 1 :: Stored(s, v.order[k], s.published[k - 1])
  }

  ghost predicate SenderInv(s: State, x: Sender) {
    match x.pc
    case CopyIn(n, k) => k <= |x.msg| && n < |s.data| && x.msg[..k] <= s.data[n]
    case SetSize(n) => n < |s.data| && x.msg <= s.data[n]
    case ClearNext(n) => Stored(s, n, x.msg)
    case ReadLast(n) => Stored(s, n, x.msg) && NextIs(s, n, Null)
    case CasLast(n, _) => Stored(s, n, x.msg) && NextIs(s, n, Null)
    case _ => true
  }

  /** In the window between the advance and the return, one delivery is under way. */
  ghost predicate Delivering(s: State, v: View, my: nat) {
    |s.received| + 1 == v.f && v.f <= |s.published| && s.first == To(my)
  }

  ghost predicate ReceiverInv(s: State, v: View) {
    && Faithful(s)
    && match s.receiver
       case Waiting(_) => |s.received| == v.f
       case CheckLast => |s.received| == v.f
       case ReadNext => |s.received| == v.f && v.f + 1 < |v.order|
       case Advance(o, m) =>
         |s.received| == v.f && v.f + 1 < |v.order| && s.first == To(o) && NextIs(s, o, To(m))
       case PushHead(o, m) => Delivering(s, v, m)
       case PushLink(o, m, h) => Delivering(s, v, m)
       case PushCas(o, m, h) => Delivering(s, v, m) && NextIs(s, o, h)
       case ReadSize(m) => Delivering(s, v, m)
       case CopyOut(m, n, out) =>
         Delivering(s, v, m) && n == |s.published[v.f - 1]| && out <= s.published[v.f - 1]
       case ReturnSize(m, out) =>
         Delivering(s, v, m) && out == s.published[v.f - 1]
       case Crashed => false
  }

  ghost predicate SendersInv(s: State) {
    forall i: nat | i < |s.senders| :: SenderInv(s, s.senders[i])
  }

  ghost predicate Core(c: Config, s: State, v: View) {
    && Partition(c, s, v)
    && FreeList(s, v)
    && Chain(s, v)
    && Pending(s, v)
    && Contents(s, v)
    && SendersInv(s)
    && ReceiverInv(s, v)
  }

  ghost predicate Inv(c: Config, s: State, v: View) {
    Usable(c) && TypeOk(c, s) && Core(c, s, v)
  }

  // ---------------------------------------------------------------------------
  // The invariant holds initially and is kept
  // ---------------------------------------------------------------------------

  ghost function InitView(c: Config): View
    requires Usable(c)
  {
    var top := c.maxmsg - 1;
    View(seq(top, (p: nat) requires p < top => (top - p) as nat), [0], 0,
         seq(c.maxmsg, (n: nat) requires n <= top => if n == 0 then InChain(0) else InFree((top - n) as nat)))
  }

  lemma InitPartition(c: Config, s: State)
    requires Usable(c) && Init(c, s)
    ensures Partition(c, s, InitView(c))
  {
    var v := InitView(c);
    var top := c.maxmsg - 1;
    assert forall p: nat | p < top :: v.free[p] == top - p;
    assert forall n: nat | 0 < n < c.maxmsg :: v.own[n] == InFree(top - n);
  }

  lemma InitFreeList(c: Config, s: State)
    requires Usable(c) && Init(c, s)
    ensures FreeList(s, InitView(c))
  {
    var v := InitView(c);
    var top := c.maxmsg - 1;
    assert forall p: nat | p < top :: v.free[p] == top - p;
    forall p: nat | p < top
      ensures s.next[v.free[p]] == Top(v.free[..p])
    {
      assert p > 0 ==> v.free[..p][p - 1] == v.free[p] + 1;
    }
  }

  lemma InitInv(c: Config, s: State)
    requires Usable(c) && Init(c, s)
    ensures Inv(c, s, InitView(c))
  {
    InitPartition(c, s);
    InitFreeList(c, s);
  }

  /** PopFree's CAS takes the node off the free list. */
  ghost function AfterPop(v: View, i: nat): View
    requires v.free != [] && v.free[|v.free| - 1] < |v.own|
  {
    v.(free := v.free[..|v.free| - 1], own := v.own[v.free[|v.free| - 1] := BySender(i)])
  }

  /** The CAS on m_last moves the node from its sender to the end of the chain. */
  ghost function AfterPublish(v: View, n: nat): View
    requires n < |v.own|
  {
    v.(order := v.order + [n], own := v.own[n := InChain(|v.order|)])
  }

  /** Writing m_first takes the old dummy off the chain. */
  ghost function AfterAdvance(v: View): View
    requires v.f < |v.order| && v.order[v.f] < |v.own|
  {
    v.(f := v.f + 1, own := v.own[v.order[v.f] := ByReceiver])
  }

  /** PushFree's CAS puts the old dummy on the free list. */
  ghost function AfterPush(v: View, n: nat): View
    requires n < |v.own|
  {
    v.(free := v.free + [n], own := v.own[n := InFree(|v.free|)])
  }

  ghost function NextView(c: Config, s: State, v: View, e: Event): View
    requires Inv(c, s, v) && Enabled(c, s, e)
  {
    match e
    case SenderMove(i) =>
      (match s.senders[i].pc
       case PopCas(n, _) => if s.freeHead == To(n) then AfterPop(v, i) else v
       case CasLast(n, o) => if s.last == o then AfterPublish(v, n) else v
       case _ => v)
    case ReceiverMove =>
      (match s.receiver
       case Advance(_, _) => AfterAdvance(v)
       case PushCas(o, _, h) => if s.freeHead == h then AfterPush(v, o) else v
       case _ => v)
    case _ => v
  }

  lemma ChainKept(s: State, t: State, v: View, w: View)
    requires Chain(s, v) && w.order == v.order && w.f == v.f
    requires t.first == s.first && t.last == s.last && |t.published| == |s.published|
    requires |t.next| == |s.next|
    requires forall k: nat | v.f <= k < |v.order| && v.order[k] < |s.next| :: t.next[v.order[k]] == s.next[v.order[k]]
    requires forall i: nat, n: nat, o: nat | LinksNext(s, i, n, o) :: LinksNext(t, i, n, o)
    ensures Chain(t, w)
  {
    forall k: nat | v.f < k < |v.order|
      ensures LinkedOrPending(t, v.order[k - 1], v.order[k])
    {
      assert LinkedOrPending(s, v.order[k - 1], v.order[k]);
      if s.next[v.order[k - 1]] == Null {
        var i: nat :| LinksNext(s, i, v.order[k], v.order[k - 1]);
        assert LinksNext(t, i, v.order[k], v.order[k - 1]);
      }
    }
  }

  lemma FreeListKept(s: State, t: State, v: View, w: View)
    requires FreeList(s, v) && t.freeHead == s.freeHead && |t.next| == |s.next| && w.free == v.free
    requires forall p: nat | p < |v.free| && v.free[p] < |s.next| :: t.next[v.free[p]] == s.next[v.free[p]]
    ensures FreeList(t, w)
  {
  }

  lemma PartitionKept(c: Config, s: State, t: State, v: View)
    requires Partition(c, s, v)
    requires |t.senders| == |s.senders|
    requires forall i: nat | i < |s.senders| :: Held(t.senders[i].pc) == Held(s.senders[i].pc)
    requires Freeing(t.receiver) == Freeing(s.receiver)
    ensures Partition(c, t, v)
  {
    forall n: nat | n < |v.own|
      ensures Claimed(t, v, n)
    {
      assert Claimed(s, v, n);
    }
  }

  lemma ContentsKept(s: State, t: State, v: View, w: View)
    requires Contents(s, v) && w.order == v.order && v.f <= w.f
    requires t.published == s.published && |t.size| == |s.size| && |t.data| == |s.data|
    requires forall k: nat | v.f <= k < |v.order| && v.order[k] < |s.size| :: t.size[v.order[k]] == s.size[v.order[k]]
    requires forall k: nat | v.f <= k < |v.order| && v.order[k] < |s.data| :: t.data[v.order[k]] == s.data[v.order[k]]
    ensures Contents(t, w)
  {
    forall k: nat | w.f <= k < |w.order| && k >= 1
      ensures Stored(t, w.order[k], t.published[k - 1])
    {
      assert Stored(s, v.order[k], s.published[k - 1]);
    }
  }

  ghost predicate SameMemory(s: State, t: State) {
    t.next == s.next && t.size == s.size && t.data == s.data
  }

  ghost predicate SameBut(s: State, t: State, n: nat) {
    && |t.next| == |s.next| && |t.size| == |s.size| && |t.data| == |s.data|
    && (forall m: nat | m < |s.next| && m != n :: t.next[m] == s.next[m])
    && (forall m: nat | m < |s.size| && m != n :: t.size[m] == s.size[m])
    && (forall m: nat | m < |s.data| && m != n :: t.data[m] == s.data[m])
  }

  /** Only sender i moves, and only the node n that no other sender relies on is written. */
  lemma SendersKept(s: State, t: State, i: nat, n: nat)
    requires SendersInv(s) && |s.senders| == |t.senders|
    requires SameMemory(s, t) || SameBut(s, t, n)
    requires SameMemory(s, t) || forall j: nat | j < |s.senders| && j != i :: Held(s.senders[j].pc) != To(n)
    requires forall j: nat | j < |s.senders| && j != i :: t.senders[j] == s.senders[j]
    requires i < |t.senders| ==> SenderInv(t, t.senders[i])
    ensures SendersInv(t)
  {
    forall j: nat | j < |t.senders|
      ensures SenderInv(t, t.senders[j])
    {
      if j != i {
        assert SenderInv(s, s.senders[j]);
      }
    }
  }

  /** No pending link write is added, and the nodes in the chain keep their records and links. */
  lemma PendingKept(s: State, t: State, v: View, w: View)
    requires Pending(s, v)
    requires |t.senders| == |s.senders| && |t.next| == |s.next| && |w.own| == |v.own|
    requires forall i: nat | i < |s.senders| && t.senders[i].pc.LinkNext? :: t.senders[i].pc == s.senders[i].pc
    requires forall n: nat | n < |v.own| && v.own[n].InChain? :: w.own[n] == v.own[n]
    requires forall n: nat | n < |v.own| && n < |s.next| && v.own[n].InChain? :: t.next[n] == s.next[n]
    ensures Pending(t, w)
  {
    forall i: nat | i < |t.senders| && t.senders[i].pc.LinkNext?
      ensures PendingAt(t, w, t.senders[i].pc.node, t.senders[i].pc.oldLast)
    {
      assert PendingAt(s, v, s.senders[i].pc.node, s.senders[i].pc.oldLast);
    }
  }

  /** The sender only moves its program counter, between positions that hold the same node. */
  lemma QuietMove(c: Config, s: State, v: View, i: nat, x: Sender)
    requires Core(c, s, v) && i < |s.senders|
    requires !s.senders[i].pc.LinkNext? && !x.pc.LinkNext?
    requires Held(s.senders[i].pc) == Held(x.pc)
    requires SenderInv(s, x)
    ensures Core(c, s.(senders := s.senders[i := x]), v)
  {
    var t := s.(senders := s.senders[i := x]);
    ChainKept(s, t, v, v);
    PartitionKept(c, s, t, v);
    FreeListKept(s, t, v, v);
    PendingKept(s, t, v, v);
    ContentsKept(s, t, v, v);
    SendersKept(s, t, i, 0);
  }

  /** Node n is owned by a sender, so it is neither on the free list nor in the chain. */
  lemma HeldApart(c: Config, s: State, v: View, i: nat, n: nat)
    requires Core(c, s, v) && i < |s.senders| && Held(s.senders[i].pc) == To(n)
    ensures OwnedBy(v, n, BySender(i))
    ensures forall p: nat | p < |v.free| :: v.free[p] != n
    ensures forall k: nat | v.f <= k < |v.order| :: v.order[k] != n
    ensures forall j: nat | j < |s.senders| && j != i :: Held(s.senders[j].pc) != To(n)
    ensures Freeing(s.receiver) != To(n)
  {
    assert OwnedBy(v, n, BySender(i));
    forall p: nat | p < |v.free|
      ensures v.free[p] != n
    {
      assert OwnedBy(v, v.free[p], InFree(p));
    }
    forall k: nat | v.f <= k < |v.order|
      ensures v.order[k] != n
    {
      assert OwnedBy(v, v.order[k], InChain(k));
    }
  }

  /** Sender i moves on with the node it holds, and all else but that node stays. */
  ghost predicate OnlySender(s: State, t: State, i: nat, n: nat)
    requires i < |s.senders|
  {
    && t == s.(senders := t.senders, next := t.next, size := t.size, data := t.data)
    && |t.senders| == |s.senders| && SameBut(s, t, n)
    && (forall j: nat | j < |s.senders| && j != i :: t.senders[j] == s.senders[j])
    && Held(s.senders[i].pc) == To(n) == Held(t.senders[i].pc)
    && !s.senders[i].pc.LinkNext? && !t.senders[i].pc.LinkNext?
  }

  /** A sender may write the node it holds. */
  lemma OwnNodeMove(c: Config, s: State, v: View, i: nat, n: nat, t: State)
    requires Core(c, s, v) && i < |s.senders| && OnlySender(s, t, i, n)
    requires SenderInv(t, t.senders[i])
    ensures Core(c, t, v)
  {
    HeldApart(c, s, v, i, n);
    ChainKept(s, t, v, v);
    FreeListKept(s, t, v, v);
    PartitionKept(c, s, t, v);
    PendingKept(s, t, v, v);
    ContentsKept(s, t, v, v);
    SendersKept(s, t, i, n);
  }

  /** The sender writes a byte of the node it holds. */
  lemma CopyMove(c: Config, s: State, v: View, i: nat, n: nat, k: nat, t: State)
    requires Core(c, s, v) && i < |s.senders|
    requires s.senders[i].pc == CopyIn(n, k) && k < |s.senders[i].msg|
    requires n < |s.data| && k < |s.data[n]|
    requires t == At(s, i, CopyIn(n, k + 1)).(data := s.data[n := s.data[n][k := s.senders[i].msg[k]]])
    ensures Core(c, t, v)
  {
    var msg := s.senders[i].msg;
    assert SenderInv(s, s.senders[i]);
    assert msg[..k + 1] <= t.data[n] by {
      assert t.data[n] == s.data[n][k := msg[k]];
      assert forall x: nat | x <= k :: msg[x] == t.data[n][x];
    }
    OwnNodeMove(c, s, v, i, n, t);
  }

  /** The sender writes the size of the node it holds. */
  lemma SizeMove(c: Config, s: State, v: View, i: nat, n: nat, t: State)
    requires Core(c, s, v) && i < |s.senders| && s.senders[i].pc == SetSize(n)
    requires n < |s.size|
    requires t == At(s, i, ClearNext(n)).(size := s.size[n := |s.senders[i].msg|])
    ensures Core(c, t, v)
  {
    assert SenderInv(s, s.senders[i]);
    OwnNodeMove(c, s, v, i, n, t);
  }

  /** The sender clears the link of the node it holds. */
  lemma ClearMove(c: Config, s: State, v: View, i: nat, n: nat, t: State)
    requires Core(c, s, v) && i < |s.senders| && s.senders[i].pc == ClearNext(n)
    requires n < |s.next|
    requires t == At(s, i, ReadLast(n)).(next := s.next[n := Null])
    ensures Core(c, t, v)
  {
    assert SenderInv(s, s.senders[i]);
    OwnNodeMove(c, s, v, i, n, t);
  }

  lemma PopPartition(c: Config, s: State, t: State, v: View, i: nat)
    requires Partition(c, s, v) && v.free != [] && i < |s.senders| == |t.senders|
    requires t.receiver == s.receiver
    requires forall j: nat | j < |s.senders| && j != i :: t.senders[j] == s.senders[j]
    requires Held(s.senders[i].pc) == Null && Held(t.senders[i].pc) == Top(v.free)
    ensures OwnedBy(v, v.free[|v.free| - 1], InFree(|v.free| - 1))
    ensures Partition(c, t, AfterPop(v, i))
  {
    assert OwnedBy(v, v.free[|v.free| - 1], InFree(|v.free| - 1));
    var w := AfterPop(v, i);
    forall m: nat | m < |w.own|
      ensures Claimed(t, w, m)
    {
      assert Claimed(s, v, m);
    }
    forall p: nat | p < |w.free|
      ensures OwnedBy(w, w.free[p], InFree(p))
    {
      assert OwnedBy(v, v.free[p], InFree(p));
    }
    forall k: nat | w.f <= k < |w.order|
      ensures OwnedBy(w, w.order[k], InChain(k))
    {
      assert OwnedBy(v, v.order[k], InChain(k));
    }
  }

  lemma PopFreeList(s: State, t: State, v: View, w: View)
    requires FreeList(s, v) && v.free != [] && w.free == v.free[..|v.free| - 1]
    requires t.next == s.next && NextIs(s, v.free[|v.free| - 1], t.freeHead)
    ensures FreeList(t, w)
  {
    assert v.free[..|v.free| - 1] == w.free;
    forall p: nat | p < |w.free|
      ensures t.next[w.free[p]] == Top(w.free[..p])
    {
      assert w.free[..p] == v.free[..p];
    }
  }

  /** Taking a free node concerns neither the other senders nor the receiver. */
  lemma PopOthers(s: State, v: View, i: nat, t: State)
    requires SendersInv(s) && ReceiverInv(s, v) && Contents(s, v) && i < |s.senders|
    requires s.senders[i].pc.PopCas? && v.free != [] && v.free[|v.free| - 1] < |v.own|
    requires s.senders[i].pc.node < |s.data|
    requires t == At(s, i, CopyIn(s.senders[i].pc.node, 0)).(freeHead := s.senders[i].pc.captured)
    ensures SendersInv(t) && ReceiverInv(t, AfterPop(v, i)) && Contents(t, AfterPop(v, i))
  {
    assert s.senders[i].msg[..0] == [];
    SendersKept(s, t, i, 0);
    ContentsKept(s, t, v, AfterPop(v, i));
  }

  /** The successful CAS in PopFree: the captured link is still the node's link. */
  lemma PopMove(c: Config, s: State, v: View, i: nat, t: State)
    requires Core(c, s, v) && i < |s.senders|
    requires s.senders[i].pc.PopCas? && s.freeHead == To(s.senders[i].pc.node)
    requires NextIs(s, s.senders[i].pc.node, s.senders[i].pc.captured)
    requires s.senders[i].pc.node < |s.data|
    requires t == At(s, i, CopyIn(s.senders[i].pc.node, 0)).(freeHead := s.senders[i].pc.captured)
    ensures v.free != [] && OwnedBy(v, v.free[|v.free| - 1], InFree(|v.free| - 1))
    ensures Core(c, t, AfterPop(v, i))
  {
    PopPartition(c, s, t, v, i);
    var w := AfterPop(v, i);
    PopFreeList(s, t, v, w);
    PopOthers(s, v, i, t);
    ChainKept(s, t, v, w);
    PendingKept(s, t, v, w);
  }

  lemma PublishPartition(c: Config, s: State, t: State, v: View, i: nat, n: nat)
    requires Partition(c, s, v) && i < |s.senders| == |t.senders| && v.f <= |v.order|
    requires t.receiver == s.receiver
    requires forall j: nat | j < |s.senders| && j != i :: t.senders[j] == s.senders[j]
    requires Held(s.senders[i].pc) == To(n) && Held(t.senders[i].pc) == Null
    requires n < |v.own|
    ensures Partition(c, t, AfterPublish(v, n))
  {
    var w := AfterPublish(v, n);
    assert OwnedBy(v, n, BySender(i));
    forall m: nat | m < |w.own|
      ensures Claimed(t, w, m)
    {
      assert Claimed(s, v, m);
    }
    forall p: nat | p < |w.free|
      ensures OwnedBy(w, w.free[p], InFree(p))
    {
      assert OwnedBy(v, v.free[p], InFree(p));
    }
    forall k: nat | w.f <= k < |w.order|
      ensures OwnedBy(w, w.order[k], InChain(k))
    {
      assert k < |v.order| ==> OwnedBy(v, v.order[k], InChain(k));
    }
  }

  lemma PublishChain(s: State, t: State, v: View, i: nat, n: nat, o: nat)
    requires Chain(s, v) && n < |v.own| && o == s.last
    requires NextIs(s, n, Null)
    requires t.next == s.next && t.first == s.first && t.last == n && |t.published| == |s.published| + 1
    requires LinksNext(t, i, n, o)
    requires forall j: nat, m: nat, l: nat | LinksNext(s, j, m, l) :: LinksNext(t, j, m, l)
    ensures Chain(t, AfterPublish(v, n))
  {
    var w := AfterPublish(v, n);
    forall k: nat | w.f < k < |w.order|
      ensures LinkedOrPending(t, w.order[k - 1], w.order[k])
    {
      if k < |v.order| {
        assert LinkedOrPending(s, v.order[k - 1], v.order[k]);
        if s.next[v.order[k - 1]] == Null {
          var j: nat :| LinksNext(s, j, v.order[k], v.order[k - 1]);
          assert LinksNext(t, j, v.order[k], v.order[k - 1]);
        }
      }
    }
  }

  lemma PublishPending(s: State, t: State, v: View, i: nat, n: nat, o: nat)
    requires Pending(s, v) && i < |s.senders| == |t.senders| && n < |v.own|
    requires |v.order| > 0 && OwnedBy(v, o, InChain(|v.order| - 1)) && NextIs(s, o, Null)
    requires OwnedBy(v, n, BySender(i)) && t.next == s.next
    requires forall j: nat | j < |s.senders| && j != i :: t.senders[j] == s.senders[j]
    requires !s.senders[i].pc.LinkNext? && LinksNext(t, i, n, o)
    ensures Pending(t, AfterPublish(v, n))
  {
    var w := AfterPublish(v, n);
    forall j: nat | j < |t.senders| && t.senders[j].pc.LinkNext?
      ensures PendingAt(t, w, t.senders[j].pc.node, t.senders[j].pc.oldLast)
    {
      if j != i {
        assert PendingAt(s, v, s.senders[j].pc.node, s.senders[j].pc.oldLast);
      }
    }
    forall j: nat | j < |t.senders| && t.senders[j].pc.LinkNext? && j != i
      ensures t.senders[j].pc.node != n
    {
      assert PendingAt(s, v, s.senders[j].pc.node, s.senders[j].pc.oldLast);
    }
  }

  lemma PublishContents(s: State, t: State, v: View, n: nat, msg: Message)
    requires Contents(s, v) && n < |v.own| && Stored(s, n, msg)
    requires t.size == s.size && t.data == s.data && t.published == s.published + [msg]
    ensures Contents(t, AfterPublish(v, n))
  {
    var w := AfterPublish(v, n);
    forall k: nat | w.f <= k < |w.order| && k >= 1
      ensures Stored(t, w.order[k], t.published[k - 1])
    {
      if k < |v.order| {
        assert Stored(s, v.order[k], s.published[k - 1]);
      }
    }
  }

  /** Publishing concerns neither the other senders nor the receiver. */
  lemma PublishOthers(s: State, v: View, i: nat, n: nat, t: State)
    requires SendersInv(s) && ReceiverInv(s, v) && i < |s.senders|
    requires t == At(s, i, LinkNext(n, s.last)).(last := n, published := s.published + [s.senders[i].msg])
    requires |s.published| >= v.f && n < |v.own|
    ensures SendersInv(t) && ReceiverInv(t, AfterPublish(v, n))
  {
    SendersKept(s, t, i, n);
  }

  /** The successful CAS on m_last publishes the message. */
  lemma PublishMove(c: Config, s: State, v: View, i: nat, n: nat, t: State)
    requires Core(c, s, v) && i < |s.senders|
    requires s.senders[i].pc == CasLast(n, s.last)
    requires t == At(s, i, LinkNext(n, s.last)).(last := n, published := s.published + [s.senders[i].msg])
    ensures n < |v.own|
    ensures Core(c, t, AfterPublish(v, n))
  {
    assert SenderInv(s, s.senders[i]);
    assert OwnedBy(v, n, BySender(i));
    assert OwnedBy(v, v.order[|v.order| - 1], InChain(|v.order| - 1));
    assert LinksNext(t, i, n, s.last);
    PublishPartition(c, s, t, v, i, n);
    PublishChain(s, t, v, i, n, s.last);
    PublishPending(s, t, v, i, n, s.last);
    PublishContents(s, t, v, n, s.senders[i].msg);
    PublishOthers(s, v, i, n, t);
    FreeListKept(s, t, v, AfterPublish(v, n));
  }

  lemma LinkChain(c: Config, s: State, t: State, v: View, i: nat, n: nat, o: nat)
    requires Partition(c, s, v) && Chain(s, v) && PendingAt(s, v, n, o)
    requires LinksNext(s, i, n, o)
    requires |t.next| == |s.next| && t.next == s.next[o := To(n)]
    requires t.first == s.first && t.last == s.last && t.published == s.published
    requires forall j: nat, m: nat, l: nat | LinksNext(s, j, m, l) && j != i :: LinksNext(t, j, m, l)
    ensures Chain(t, v)
  {
    assert Claimed(s, v, o) && Claimed(s, v, n);
    forall k: nat | v.f < k < |v.order|
      ensures LinkedOrPending(t, v.order[k - 1], v.order[k])
    {
      assert LinkedOrPending(s, v.order[k - 1], v.order[k]);
      assert OwnedBy(v, v.order[k - 1], InChain(k - 1));
      if v.order[k - 1] != o && s.next[v.order[k - 1]] == Null {
        var j: nat :| LinksNext(s, j, v.order[k], v.order[k - 1]);
        assert LinksNext(t, j, v.order[k], v.order[k - 1]);
      }
    }
  }

  lemma LinkPending(s: State, t: State, v: View, i: nat, n: nat, o: nat)
    requires Pending(s, v) && LinksNext(s, i, n, o) && |s.senders| == |t.senders|
    requires o < |s.next| && t.next == s.next[o := To(n)]
    requires !t.senders[i].pc.LinkNext?
    requires forall j: nat | j < |s.senders| && j != i :: t.senders[j] == s.senders[j]
    requires forall k: nat | v.f <= k < |v.order| :: OwnedBy(v, v.order[k], InChain(k))
    requires forall m: nat | m < |v.own| :: Claimed(s, v, m)
    ensures Pending(t, v)
  {
    assert PendingAt(s, v, n, o);
    forall j: nat | j < |t.senders| && t.senders[j].pc.LinkNext?
      ensures PendingAt(t, v, t.senders[j].pc.node, t.senders[j].pc.oldLast)
    {
      var m, l := s.senders[j].pc.node, s.senders[j].pc.oldLast;
      assert PendingAt(s, v, m, l);
      assert Claimed(s, v, m) && Claimed(s, v, n);
    }
  }

  /** The pending link write completes. */
  lemma LinkMove(c: Config, s: State, v: View, i: nat, n: nat, o: nat, t: State)
    requires Core(c, s, v) && LinksNext(s, i, n, o)
    requires o < |s.next|
    requires t == At(s, i, Idle(QueueOk)).(next := s.next[o := To(n)])
    ensures Core(c, t, v)
  {
    assert PendingAt(s, v, n, o);
    PartitionKept(c, s, t, v);
    LinkChain(c, s, t, v, i, n, o);
    LinkPending(s, t, v, i, n, o);
    forall p: nat | p < |v.free|
      ensures v.free[p] != o
    {
      assert OwnedBy(v, v.free[p], InFree(p));
    }
    FreeListKept(s, t, v, v);
    SendersKept(s, t, i, o);
    ContentsKept(s, t, v, v);
  }

  /** Only the receiver's program counter and its deliveries change; it holds the same node. */
  lemma ReceiverQuiet(c: Config, s: State, v: View, t: State)
    requires Core(c, s, v)
    requires t == s.(receiver := t.receiver, received := t.received)
    requires ReceiverInv(t, v)
    requires Freeing(s.receiver) == Freeing(t.receiver)
    ensures Core(c, t, v)
  {
    PartitionKept(c, s, t, v);
    ChainKept(s, t, v, v);
    PendingKept(s, t, v, v);
    FreeListKept(s, t, v, v);
    ContentsKept(s, t, v, v);
    SendersKept(s, t, |s.senders|, 0);
  }

  lemma AdvancePartition(c: Config, s: State, t: State, v: View)
    requires Partition(c, s, v) && v.f < |v.order| && t.senders == s.senders
    requires Freeing(s.receiver) == Null && Freeing(t.receiver) == To(v.order[v.f])
    ensures v.order[v.f] < |v.own|
    ensures Partition(c, t, AfterAdvance(v))
  {
    var o := v.order[v.f];
    assert OwnedBy(v, o, InChain(v.f));
    var w := AfterAdvance(v);
    forall m: nat | m < |w.own|
      ensures Claimed(t, w, m)
    {
      assert Claimed(s, v, m);
    }
    forall p: nat | p < |w.free|
      ensures OwnedBy(w, w.free[p], InFree(p))
    {
      assert OwnedBy(v, v.free[p], InFree(p));
    }
    forall k: nat | w.f <= k < |w.order|
      ensures OwnedBy(w, w.order[k], InChain(k))
    {
      assert OwnedBy(v, v.order[k], InChain(k));
    }
  }

  lemma AdvanceChain(s: State, t: State, v: View)
    requires Chain(s, v) && v.f + 1 < |v.order| && v.order[v.f] < |v.own|
    requires t.first == To(v.order[v.f + 1]) && t.last == s.last && t.next == s.next
    requires t.senders == s.senders && t.published == s.published
    ensures Chain(t, AfterAdvance(v))
  {
    var w := AfterAdvance(v);
    forall k: nat | w.f < k < |w.order|
      ensures LinkedOrPending(t, w.order[k - 1], w.order[k])
    {
      assert LinkedOrPending(s, v.order[k - 1], v.order[k]);
      if s.next[v.order[k - 1]] == Null {
        var j: nat :| LinksNext(s, j, v.order[k], v.order[k - 1]);
        assert LinksNext(t, j, v.order[k], v.order[k - 1]);
      }
    }
  }

  /** Node o is linked already, so no pending write concerns it or the node after it. */
  lemma AdvancePending(s: State, t: State, v: View)
    requires Pending(s, v) && v.f < |v.order| && t.senders == s.senders && t.next == s.next
    requires OwnedBy(v, v.order[v.f], InChain(v.f))
    requires v.order[v.f] < |s.next| && s.next[v.order[v.f]] != Null
    requires forall n: nat | n < |v.own| :: Claimed(s, v, n)
    ensures Pending(t, AfterAdvance(v))
  {
    var w := AfterAdvance(v);
    forall j: nat | j < |t.senders| && t.senders[j].pc.LinkNext?
      ensures PendingAt(t, w, t.senders[j].pc.node, t.senders[j].pc.oldLast)
    {
      var m, l := s.senders[j].pc.node, s.senders[j].pc.oldLast;
      assert PendingAt(s, v, m, l);
      assert Claimed(s, v, l);
    }
  }

  /** The receiver advances m_first to the node it read. */
  lemma AdvanceMove(c: Config, s: State, v: View, my: nat, t: State)
    requires Core(c, s, v) && s.first.To? && s.receiver == Advance(s.first.node, my)
    requires t == s.(first := To(my), receiver := PushHead(s.first.node, my))
    ensures v.f < |v.order| && v.order[v.f] < |v.own|
    ensures Core(c, t, AfterAdvance(v))
  {
    assert LinkedOrPending(s, v.order[v.f + 1 - 1], v.order[v.f + 1]);
    assert OwnedBy(v, v.order[v.f], InChain(v.f));
    AdvancePartition(c, s, t, v);
    AdvanceChain(s, t, v);
    AdvancePending(s, t, v);
    var w := AfterAdvance(v);
    ContentsKept(s, t, v, w);
    SendersKept(s, t, |s.senders|, 0);
    FreeListKept(s, t, v, w);
  }

  /** The receiver's node is neither in a list nor with a sender. */
  lemma FreeingApart(c: Config, s: State, v: View, n: nat)
    requires Partition(c, s, v) && Freeing(s.receiver) == To(n)
    ensures OwnedBy(v, n, ByReceiver)
    ensures forall p: nat | p < |v.free| :: v.free[p] != n
    ensures forall k: nat | v.f <= k < |v.order| :: v.order[k] != n
    ensures forall j: nat | j < |s.senders| :: Held(s.senders[j].pc) != To(n)
  {
    forall p: nat | p < |v.free|
      ensures v.free[p] != n
    {
      assert OwnedBy(v, v.free[p], InFree(p));
    }
    forall k: nat | v.f <= k < |v.order|
      ensures v.order[k] != n
    {
      assert OwnedBy(v, v.order[k], InChain(k));
    }
  }

  /** PushFree writes the link of the node being freed. */
  lemma PushLinkMove(c: Config, s: State, v: View, o: nat, my: nat, h: Link, t: State)
    requires Core(c, s, v) && s.receiver == PushLink(o, my, h)
    requires o < |s.next|
    requires t == s.(next := s.next[o := h], receiver := PushCas(o, my, h))
    ensures Core(c, t, v)
  {
    FreeingApart(c, s, v, o);
    PartitionKept(c, s, t, v);
    ChainKept(s, t, v, v);
    PendingKept(s, t, v, v);
    FreeListKept(s, t, v, v);
    SendersKept(s, t, |s.senders|, o);
    ContentsKept(s, t, v, v);
  }

  lemma PushPartition(c: Config, s: State, t: State, v: View, o: nat)
    requires Partition(c, s, v) && t.senders == s.senders
    requires Freeing(s.receiver) == To(o) && Freeing(t.receiver) == Null
    ensures o < |v.own|
    ensures Partition(c, t, AfterPush(v, o))
  {
    FreeingApart(c, s, v, o);
    var w := AfterPush(v, o);
    forall m: nat | m < |w.own|
      ensures Claimed(t, w, m)
    {
      assert Claimed(s, v, m);
    }
    forall p: nat | p < |w.free|
      ensures OwnedBy(w, w.free[p], InFree(p))
    {
      assert p < |v.free| ==> OwnedBy(v, v.free[p], InFree(p));
    }
    forall k: nat | w.f <= k < |w.order|
      ensures OwnedBy(w, w.order[k], InChain(k))
    {
      assert OwnedBy(v, v.order[k], InChain(k));
    }
  }

  lemma PushFreeList(s: State, t: State, v: View, o: nat)
    requires FreeList(s, v) && o < |v.own| && t.next == s.next && t.freeHead == To(o)
    requires NextIs(s, o, s.freeHead)
    ensures FreeList(t, AfterPush(v, o))
  {
    var w := AfterPush(v, o);
    forall p: nat | p < |w.free|
      ensures w.free[p] < |t.next| && t.next[w.free[p]] == Top(w.free[..p])
    {
      assert w.free[..p] == v.free[..p];
      assert v.free[..|v.free|] == v.free;
    }
  }

  /** Freeing a node concerns neither the senders nor the messages. */
  lemma PushOthers(s: State, v: View, o: nat, my: nat, t: State)
    requires SendersInv(s) && ReceiverInv(s, v) && Contents(s, v) && o < |v.own|
    requires s.receiver == PushCas(o, my, s.freeHead) && t == s.(freeHead := To(o), receiver := ReadSize(my))
    ensures SendersInv(t) && ReceiverInv(t, AfterPush(v, o)) && Contents(t, AfterPush(v, o))
  {
    SendersKept(s, t, |s.senders|, o);
    ContentsKept(s, t, v, AfterPush(v, o));
  }

  lemma PushChain(c: Config, s: State, v: View, o: nat, t: State)
    requires Partition(c, s, v) && Chain(s, v) && Pending(s, v) && Freeing(s.receiver) == To(o)
    requires t == s.(freeHead := To(o), receiver := t.receiver)
    ensures o < |v.own| && Chain(t, AfterPush(v, o)) && Pending(t, AfterPush(v, o))
  {
    FreeingApart(c, s, v, o);
    ChainKept(s, t, v, AfterPush(v, o));
    PendingKept(s, t, v, AfterPush(v, o));
  }

  /** The successful CAS in PushFree. */
  lemma PushMove(c: Config, s: State, v: View, o: nat, my: nat, t: State)
    requires Core(c, s, v) && s.receiver == PushCas(o, my, s.freeHead)
    requires t == s.(freeHead := To(o), receiver := ReadSize(my))
    ensures o < |v.own|
    ensures Core(c, t, AfterPush(v, o))
  {
    PushPartition(c, s, t, v, o);
    PushFreeList(s, t, v, o);
    PushChain(c, s, v, o, t);
    PushOthers(s, v, o, my, t);
  }

  /** The steps in which a sender only reads, or loses a CAS. */
  ghost predicate ReadsOnly(s: State, x: Sender) {
    match x.pc
    case PopHead => true
    case PopNext(n) => true
    case PopCas(n, l) => s.freeHead != To(n)
    case CopyIn(n, k) => k >= |x.msg|
    case ReadLast(n) => true
    case CasLast(n, o) => s.last != o
    case _ => false
  }

  lemma SenderReadInv(c: Config, s: State, v: View, i: nat)
    requires Inv(c, s, v) && Enabled(c, s, SenderMove(i)) && ReadsOnly(s, s.senders[i])
    ensures Inv(c, SenderStep(c, s, i), v)
  {
    var x := SenderStep(c, s, i).senders[i];
    assert SenderInv(s, s.senders[i]);
    assert s.senders[i].pc.PopHead? && v.free != [] ==>
        OwnedBy(v, v.free[|v.free| - 1], InFree(|v.free| - 1));
    QuietMove(c, s, v, i, x);
  }

  lemma SenderCasInv(c: Config, s: State, v: View, i: nat, t: State)
    requires Inv(c, s, v) && Enabled(c, s, SenderMove(i)) && !ReadsOnly(s, s.senders[i])
    requires Fresh(s, SenderMove(i))
    requires s.senders[i].pc.PopCas? || s.senders[i].pc.CasLast?
    requires t == SenderStep(c, s, i)
    ensures Inv(c, t, NextView(c, s, v, SenderMove(i)))
  {
    match s.senders[i].pc {
      case PopCas(n, l) => PopMove(c, s, v, i, t);
      case CasLast(n, o) => PublishMove(c, s, v, i, n, t);
    }
  }

  lemma SenderWriteInv(c: Config, s: State, v: View, i: nat, t: State)
    requires Inv(c, s, v) && Enabled(c, s, SenderMove(i)) && !ReadsOnly(s, s.senders[i])
    requires !s.senders[i].pc.PopCas? && !s.senders[i].pc.CasLast?
    requires t == SenderStep(c, s, i)
    ensures Inv(c, t, v)
  {
    match s.senders[i].pc {
      case CopyIn(n, k) => CopyMove(c, s, v, i, n, k, t);
      case SetSize(n) => SizeMove(c, s, v, i, n, t);
      case ClearNext(n) => ClearMove(c, s, v, i, n, t);
      case LinkNext(n, o) => LinkMove(c, s, v, i, n, o, t);
    }
  }

  /** The receiver reads a field or a byte, or loses its CAS. */
  lemma ReceiverReadInv(c: Config, s: State, v: View, t: State)
    requires Inv(c, s, v) && Enabled(c, s, ReceiverMove) && t == ReceiverStep(c, s)
    requires s.receiver.CheckLast? || s.receiver.ReadNext? || s.receiver.PushHead?
          || (s.receiver.PushCas? && s.receiver.head != s.freeHead)
    ensures Inv(c, t, v)
  {
    assert ReceiverInv(t, v);
    ReceiverQuiet(c, s, v, t);
  }

  lemma ReceiverCopyInv(c: Config, s: State, v: View, t: State)
    requires Inv(c, s, v) && Enabled(c, s, ReceiverMove) && t == ReceiverStep(c, s)
    requires s.receiver.ReadSize? || s.receiver.CopyOut? || s.receiver.ReturnSize?
    ensures Inv(c, t, v)
  {
    assert Stored(s, v.order[v.f], s.published[v.f - 1]);
    assert ReceiverInv(t, v);
    ReceiverQuiet(c, s, v, t);
  }

  lemma ReceiverWriteInv(c: Config, s: State, v: View, t: State)
    requires Inv(c, s, v) && Enabled(c, s, ReceiverMove) && t == ReceiverStep(c, s)
    requires s.receiver.Advance? || s.receiver.PushLink?
          || (s.receiver.PushCas? && s.receiver.head == s.freeHead)
    ensures Inv(c, t, NextView(c, s, v, ReceiverMove))
  {
    match s.receiver {
      case Advance(o, my) => AdvanceMove(c, s, v, my, t);
      case PushLink(o, my, h) => PushLinkMove(c, s, v, o, my, h, t);
      case PushCas(o, my, h) => PushMove(c, s, v, o, my, t);
    }
  }

  lemma ReceiverStepInv(c: Config, s: State, v: View)
    requires Inv(c, s, v) && Enabled(c, s, ReceiverMove)
    ensures Inv(c, ReceiverStep(c, s), NextView(c, s, v, ReceiverMove))
  {
    var t := ReceiverStep(c, s);
    if s.receiver.ReadSize? || s.receiver.CopyOut? || s.receiver.ReturnSize? {
      ReceiverCopyInv(c, s, v, t);
    } else if s.receiver.Advance? || s.receiver.PushLink? || (s.receiver.PushCas? && s.receiver.head == s.freeHead) {
      ReceiverWriteInv(c, s, v, t);
    } else {
      ReceiverReadInv(c, s, v, t);
    }
  }

  /** One step of any thread keeps the invariant, if it is not a swap that installs a link out of date. */
  lemma StepInv(c: Config, s: State, v: View, e: Event)
    requires Inv(c, s, v) && Enabled(c, s, e) && Fresh(s, e)
    ensures Inv(c, Apply(c, s, e), NextView(c, s, v, e))
  {
    match e {
      case StartSend(i, msg) => QuietMove(c, s, v, i, Apply(c, s, e).senders[i]);
      case SenderMove(i) =>
        if ReadsOnly(s, s.senders[i]) {
          SenderReadInv(c, s, v, i);
        } else if s.senders[i].pc.PopCas? || s.senders[i].pc.CasLast? {
          SenderCasInv(c, s, v, i, Apply(c, s, e));
        } else {
          SenderWriteInv(c, s, v, i, Apply(c, s, e));
        }
      case StartReceive(capacity) => ReceiverQuiet(c, s, v, Apply(c, s, e));
      case ReceiverMove => ReceiverStepInv(c, s, v);
    }
  }

  // ---------------------------------------------------------------------------
  // Whole runs
  // ---------------------------------------------------------------------------

  ghost predicate Good(c: Config, s: State) {
    exists v: View :: Inv(c, s, v)
  }

  lemma {:induction false} RunInv(c: Config, run: seq<State>)
    requires Usable(c) && IsFreshRun(c, run)
    ensures Good(c, run[|run| - 1])
  {
    if |run| == 1 {
      InitInv(c, run[0]);
      assert Inv(c, run[0], InitView(c));
    } else {
      var prev := run[..|run| - 1];
      assert forall k: nat | k + 1 < |prev| :: FreshNext(c, prev[k], prev[k + 1]) by {
        forall k: nat | k + 1 < |prev|
          ensures FreshNext(c, prev[k], prev[k + 1])
        {
          assert FreshNext(c, run[k], run[k + 1]);
        }
      }
      RunInv(c, prev);
      var s := prev[|prev| - 1];
      var v: View :| Inv(c, s, v);
      assert FreshNext(c, run[|run| - 2], run[|run| - 1]);
      var e :| Enabled(c, s, e) && Fresh(s, e) && run[|run| - 1] == Apply(c, s, e);
      StepInv(c, s, v, e);
      assert Inv(c, run[|run| - 1], NextView(c, s, v, e));
    }
  }

  /**
   With any number of senders, as long as no successful swap installs a link out of date, every
   run delivers a prefix of the published messages, in order and byte for byte, and never crashes.
   */
  lemma FreshRunsAreFaithful(c: Config, run: seq<State>)
    requires Usable(c) && IsFreshRun(c, run)
    ensures Faithful(run[|run| - 1]) && run[|run| - 1].first.To? && !run[|run| - 1].receiver.Crashed?
  {
    RunInv(c, run);
  }

  /** Free list, chain and message contents agree with one owner per node. */
  ghost predicate Owned(c: Config, s: State, v: View) {
    Partition(c, s, v) && FreeList(s, v) && Chain(s, v) && Pending(s, v) && Contents(s, v)
  }

  ghost predicate OneOwnerEach(c: Config, s: State) {
    exists v: View :: Owned(c, s, v)
  }

  /**
   At the end of every such run each node has exactly one owner: the free list, the
   publish-order chain from m_first to m_last, one sender, or the receiver; and an
   unlinked neighbour pair in the chain is one sender's pending link write.
   */
  lemma EachNodeHasOneOwner(c: Config, run: seq<State>)
    requires Usable(c) && IsFreshRun(c, run)
    ensures OneOwnerEach(c, run[|run| - 1])
  {
    RunInv(c, run);
    var v: View :| Inv(c, run[|run| - 1], v);
    assert Owned(c, run[|run| - 1], v);
  }

  // ---------------------------------------------------------------------------
  // What the answers of Receive mean
  // ---------------------------------------------------------------------------

  ghost predicate LinkOutstanding(s: State, o: nat, n: nat) {
    exists i: nat :: LinksNext(s, i, n, o)
  }

  /**
   Receive answers "no more messages" only when everything published was delivered, or
   when a sender stands between its CAS on m_last and linking the next undelivered message.
   */
  lemma EmptyAnswerIsHonest(c: Config, s: State, v: View)
    requires Inv(c, s, v) && Enabled(c, s, ReceiverMove)
    requires s.receiver.CheckLast? || s.receiver.ReadNext?
    ensures ReceiverStep(c, s).receiver == Waiting(NoMoreMsgs) ==>
              || |s.received| == |s.published|
              || (v.f + 1 < |v.order| && LinkOutstanding(s, v.order[v.f], v.order[v.f + 1]))
    ensures s.receiver.CheckLast? && |s.received| == |s.published| ==>
              ReceiverStep(c, s).receiver == Waiting(NoMoreMsgs)
  {
    var last := |v.order| - 1;
    assert OwnedBy(v, v.order[v.f], InChain(v.f)) && OwnedBy(v, v.order[last], InChain(last));
    if s.receiver.ReadNext? {
      assert LinkedOrPending(s, v.order[v.f + 1 - 1], v.order[v.f + 1]);
    }
  }

  /** Some sender has published a node and not yet linked it. */
  ghost predicate OwesLink(s: State) {
    exists i: nat :: i < |s.senders| && s.senders[i].pc.LinkNext?
  }

  lemma OutstandingIsOwed(s: State, o: nat, n: nat)
    requires LinkOutstanding(s, o, n)
    ensures OwesLink(s)
  {
    var i: nat :| LinksNext(s, i, n, o);
  }

  lemma EmptyAnswerOrOwed(c: Config, s: State, v: View)
    requires Inv(c, s, v) && Enabled(c, s, ReceiverMove) && (s.receiver.CheckLast? || s.receiver.ReadNext?)
    requires ReceiverStep(c, s).receiver == Waiting(NoMoreMsgs)
    ensures |s.received| == |s.published| || OwesLink(s)
  {
    EmptyAnswerIsHonest(c, s, v);
    if |s.received| != |s.published| {
      OutstandingIsOwed(s, v.order[v.f], v.order[v.f + 1]);
    }
  }

  /** Over whole runs: an empty answer while messages are undelivered means that some sender still owes a link. */
  lemma EmptyAnswersInRuns(c: Config, run: seq<State>, s: State)
    requires Usable(c) && IsFreshRun(c, run) && s == run[|run| - 1] && TypeOk(c, s)
    requires s.receiver.CheckLast? || s.receiver.ReadNext?
    requires ReceiverStep(c, s).receiver == Waiting(NoMoreMsgs)
    ensures |s.received| == |s.published| || OwesLink(s)
  {
    RunInv(c, run);
    var v: View :| Inv(c, s, v);
    EmptyAnswerOrOwed(c, s, v);
  }
}
