/**
 The priority buffer queue: a pool of byte-slot offsets kept in a ring of 32-bit counters,
 and the stable heap that maps priorities to offsets.  It refines a list of messages in
 arrival order from which the oldest message of the highest priority is taken.
 */
module PriorityBufferQueue {
  import opened BufferBytes
  import opened PriorityOrder
  import opened StableHeap
  import opened MachineWords

  // ---------------------------------------------------------------------------
  // The slot offsets
  // ---------------------------------------------------------------------------

  ghost function Ids(es: seq<Entry>): (r: seq<nat>)
    ensures |r| == |es| && forall k: nat | k < |es| :: r[k] == es[k].id
  {
    if es == [] then [] else Ids(es[..|es| - 1]) + [es[|es| - 1].id]
  }

  lemma IdsAppend(es: seq<Entry>, e: Entry)
    ensures Ids(es + [e]) == Ids(es) + [e.id]
  {
    assert (es + [e])[..|es|] == es;
  }

  lemma IdsWithout(es: seq<Entry>, k: nat)
    requires k < |es|
    ensures Ids(Without(es, k)) == Without(Ids(es), k)
  {
    var a, b := Ids(Without(es, k)), Without(Ids(es), k);
    forall j: nat | j < |a|
      ensures a[j] == b[j]
    {
    }
  }

  /** All slot offsets, in order. */
  ghost function AllOffsets(depth: nat, msgSize: nat): (r: seq<nat>)
    ensures |r| == depth
  {
    if depth == 0 then [] else AllOffsets(depth - 1, msgSize) + [SlotStart(depth - 1, msgSize)]
  }

  lemma {:induction false} AllOffsetsAre(depth: nat, msgSize: nat)
    ensures forall k: nat | k < depth :: AllOffsets(depth, msgSize)[k] == SlotStart(k, msgSize)
  {
    if depth == 0 {
    } else {
      AllOffsetsAre(depth - 1, msgSize);
    }
  }

  lemma SlotFits(n: nat, depth: nat, msgSize: nat)
    requires n <= msgSize && depth > 0 && Addressable(depth, msgSize)
    ensures n < WORD
  {
    MulLe(1, depth, SlotSize(msgSize));
  }

  /** Free offsets and offsets in use are together each slot's offset exactly once. */
  ghost predicate Conserved(pool: seq<nat>, used: seq<nat>, depth: nat, msgSize: nat) {
    multiset(pool) + multiset(used) == multiset(AllOffsets(depth, msgSize))
  }

  lemma ConservedSize(pool: seq<nat>, used: seq<nat>, depth: nat, msgSize: nat)
    requires Conserved(pool, used, depth, msgSize)
    ensures |pool| + |used| == depth
  {
    assert |multiset(pool) + multiset(used)| == |pool| + |used|;
  }

  lemma {:induction false} OffsetOnce(x: nat, depth: nat, msgSize: nat)
    ensures multiset(AllOffsets(depth, msgSize))[x] <= 1
    ensures multiset(AllOffsets(depth, msgSize))[x] == 1 ==> exists j: nat :: j < depth && x == SlotStart(j, msgSize)
  {
    if depth == 0 {
    } else {
      var init, last := AllOffsets(depth - 1, msgSize), SlotStart(depth - 1, msgSize);
      OffsetOnce(x, depth - 1, msgSize);
      assert multiset(AllOffsets(depth, msgSize)) == multiset(init) + multiset{last};
      if x in init {
        var j: nat :| j < depth - 1 && x == SlotStart(j, msgSize);
        SlotBytesDisjoint(j, depth - 1, msgSize);
      }
    }
  }

  /** An offset that occurs twice among pool and used would occur twice among all. */
  lemma OffsetsApart(a: nat, b: nat, depth: nat, msgSize: nat)
    requires a != b
    requires multiset(AllOffsets(depth, msgSize))[a] == 1 && multiset(AllOffsets(depth, msgSize))[b] == 1
    ensures Apart(a, b, msgSize)
  {
    OffsetOnce(a, depth, msgSize);
    OffsetOnce(b, depth, msgSize);
    var i: nat :| i < depth && a == SlotStart(i, msgSize);
    var j: nat :| j < depth && b == SlotStart(j, msgSize);
    if i < j {
      SlotBytesDisjoint(i, j, msgSize);
    } else {
      SlotBytesDisjoint(j, i, msgSize);
    }
  }

  /** The first free offset lies in the buffer, apart from every offset in use. */
  lemma FreeOffsetApart(pool: seq<nat>, used: seq<nat>, depth: nat, msgSize: nat)
    requires Conserved(pool, used, depth, msgSize) && pool != []
    ensures pool[0] + SlotSize(msgSize) <= SlotStart(depth, msgSize)
    ensures forall k: nat | k < |used| :: Apart(used[k], pool[0], msgSize)
  {
    var x, all := pool[0], multiset(AllOffsets(depth, msgSize));
    assert x in multiset(pool);
    OffsetOnce(x, depth, msgSize);
    assert all[x] == 1;
    var j: nat :| j < depth && x == SlotStart(j, msgSize);
    SlotBytesDisjoint(j, depth, msgSize);
    forall k: nat | k < |used|
      ensures Apart(used[k], x, msgSize)
    {
      assert used[k] in multiset(used);
      OffsetOnce(used[k], depth, msgSize);
      assert used[k] != x;
      OffsetsApart(used[k], x, depth, msgSize);
    }
  }

  lemma CheckoutConserves(pool: seq<nat>, used: seq<nat>, depth: nat, msgSize: nat)
    requires Conserved(pool, used, depth, msgSize) && pool != []
    ensures Conserved(pool[1..], used + [pool[0]], depth, msgSize)
  {
    assert pool == [pool[0]] + pool[1..];
  }

  lemma ReturnConserves(pool: seq<nat>, used: seq<nat>, k: nat, depth: nat, msgSize: nat)
    requires Conserved(pool, used, depth, msgSize) && k < |used|
    ensures Conserved(pool + [used[k]], Without(used, k), depth, msgSize)
    ensures Conserved(pool, Without(used, k) + [used[k]], depth, msgSize)
  {
    WithoutMultiset(used, k);
    assert used[k] in multiset(used);
  }

  lemma RequeueConserves(pool: seq<nat>, es: seq<Entry>, k: nat, e: Entry, depth: nat, msgSize: nat)
    requires Conserved(pool, Ids(es), depth, msgSize) && k < |es| && e.id == es[k].id
    ensures Conserved(pool, Ids(Without(es, k) + [e]), depth, msgSize)
  {
    ReturnConserves(pool, Ids(es), k, depth, msgSize);
    IdsWithout(es, k);
    IdsAppend(Without(es, k), e);
  }

  lemma RemoveConserves(pool: seq<nat>, es: seq<Entry>, k: nat, depth: nat, msgSize: nat)
    requires Conserved(pool, Ids(es), depth, msgSize) && k < |es|
    ensures Conserved(pool + [es[k].id], Ids(Without(es, k)), depth, msgSize)
    ensures |pool| < depth
  {
    ConservedSize(pool, Ids(es), depth, msgSize);
    ReturnConserves(pool, Ids(es), k, depth, msgSize);
    IdsWithout(es, k);
  }

  lemma AddConserves(pool: seq<nat>, es: seq<Entry>, e: Entry, depth: nat, msgSize: nat)
    requires Conserved(pool, Ids(es), depth, msgSize) && pool != [] && e.id == pool[0]
    ensures Conserved(pool[1..], Ids(es + [e]), depth, msgSize)
  {
    CheckoutConserves(pool, Ids(es), depth, msgSize);
    IdsAppend(es, e);
  }

  // ---------------------------------------------------------------------------
  // The stored messages
  // ---------------------------------------------------------------------------

  /** A heap entry stands for a message whose bytes are in its slot. */
  ghost predicate StandsFor(d: seq<Byte>, msgSize: nat, e: Entry, m: Ranked) {
    e.value == m.priority && |m.bytes| <= msgSize && Holds(d, e.id, m.bytes)
  }

  ghost predicate AllStandFor(d: seq<Byte>, msgSize: nat, es: seq<Entry>, contents: seq<Ranked>) {
    && |es| == |contents|
    && forall k: nat {:trigger StandsFor(d, msgSize, es[k], contents[k])} | k < |es| ::
         StandsFor(d, msgSize, es[k], contents[k])
  }

  lemma StandForLast(d: seq<Byte>, msgSize: nat, es: seq<Entry>, contents: seq<Ranked>, e: Entry, m: Ranked)
    requires AllStandFor(d, msgSize, es, contents) && e.value == m.priority
    requires |m.bytes| <= msgSize && |m.bytes| < WORD && e.id + SlotSize(msgSize) <= |d|
    requires forall k: nat | k < |es| :: Apart(es[k].id, e.id, msgSize)
    ensures AllStandFor(Written(d, e.id, m.bytes), msgSize, es + [e], contents + [m])
  {
    WrittenHolds(d, e.id, m.bytes);
    forall k: nat | k < |es|
      ensures StandsFor(Written(d, e.id, m.bytes), msgSize, es[k], contents[k])
    {
      assert StandsFor(d, msgSize, es[k], contents[k]);
      WrittenElsewhere(d, e.id, m.bytes, es[k].id, contents[k].bytes);
    }
  }

  lemma StandForWithout(d: seq<Byte>, msgSize: nat, es: seq<Entry>, contents: seq<Ranked>, k: nat)
    requires AllStandFor(d, msgSize, es, contents) && k < |es|
    ensures AllStandFor(d, msgSize, Without(es, k), Without(contents, k))
  {
  }

  lemma StandForRequeued(d: seq<Byte>, msgSize: nat, es: seq<Entry>, contents: seq<Ranked>, k: nat, e: Entry)
    requires AllStandFor(d, msgSize, es, contents) && k < |es| && e.id == es[k].id && e.value == es[k].value
    ensures AllStandFor(d, msgSize, Without(es, k) + [e], Without(contents, k) + [contents[k]])
  {
    StandForWithout(d, msgSize, es, contents, k);
    assert StandsFor(d, msgSize, es[k], contents[k]);
  }

  lemma ForemostAgrees(d: seq<Byte>, msgSize: nat, es: seq<Entry>, contents: seq<Ranked>, k: nat)
    requires AllStandFor(d, msgSize, es, contents) && Highest(es, k)
    ensures Foremost(contents, k)
  {
    forall j: nat | j < |contents|
      ensures contents[j].priority <= contents[k].priority
    {
      assert StandsFor(d, msgSize, es[j], contents[j]) && StandsFor(d, msgSize, es[k], contents[k]);
    }
  }

  lemma BestAgrees(d: seq<Byte>, msgSize: nat, es: seq<Entry>, contents: seq<Ranked>)
    requires AllStandFor(d, msgSize, es, contents) && es != []
    ensures BestIndex(es) == Best(contents)
  {
    assert Values(es) == Priorities(contents) by {
      forall k: nat | k < |es|
        ensures Values(es)[k] == Priorities(contents)[k]
      {
        assert StandsFor(d, msgSize, es[k], contents[k]);
      }
    }
  }

  // ---------------------------------------------------------------------------
  // The pool ring
  // ---------------------------------------------------------------------------

  /** Ring positions starts, starts + 1, ... hold the free offsets, first to be used first. */
  ghost predicate PoolHolds(ring: seq<nat>, starts: nat, pool: seq<nat>, depth: nat) {
    && |ring| == depth && |pool| <= depth
    && (depth > 0 ==> forall k: nat | k < |pool| :: ring[RingSlot(starts + k, depth)] == pool[k])
  }

  lemma PoolTake(ring: seq<nat>, starts: nat, pool: seq<nat>, depth: nat)
    requires PoolHolds(ring, starts, pool, depth) && pool != []
    ensures ring[RingSlot(starts, depth)] == pool[0]
    ensures PoolHolds(ring, starts + 1, pool[1..], depth)
  {
    assert ring[RingSlot(starts + 0, depth)] == pool[0];
    forall k: nat | k < |pool| - 1
      ensures ring[RingSlot(starts + 1 + k, depth)] == pool[1..][k]
    {
      assert ring[RingSlot(starts + (k + 1), depth)] == pool[k + 1];
    }
  }

  lemma PoolGive(ring: seq<nat>, starts: nat, pool: seq<nat>, depth: nat, x: nat)
    requires PoolHolds(ring, starts, pool, depth) && |pool| < depth
    requires WrapsEvenly(depth) || starts + |pool| < WORD
    ensures PoolHolds(ring[RingSlot(starts + |pool|, depth) := x], starts, pool + [x], depth)
  {
    var ring', pool' := ring[RingSlot(starts + |pool|, depth) := x], pool + [x];
    forall k: nat | k < |pool'|
      ensures ring'[RingSlot(starts + k, depth)] == pool'[k]
    {
      if k < |pool| {
        LiveSlotsDiffer(starts + k, starts + |pool|, depth);
        assert ring[RingSlot(starts + k, depth)] == pool[k];
      }
    }
  }

  lemma {:induction false} InitialPool(ring: seq<nat>, depth: nat, msgSize: nat)
    requires ring == AllOffsets(depth, msgSize) && depth < WORD
    ensures PoolHolds(ring, 0, ring, depth)
  {
    if depth > 0 {
      forall k: nat | k < |ring|
        ensures ring[RingSlot(0 + k, depth)] == ring[k]
      {
        assert Cut(k) == k;
      }
    }
  }

  /** initialize: entry ii of the pool is the offset of slot ii. */
  method FillIndexes(indexes: array<nat>, depth: nat, msgSize: nat)
    requires indexes.Length == depth && Addressable(depth, msgSize)
    modifies indexes
    ensures indexes[..] == AllOffsets(depth, msgSize)
  {
    AllOffsetsAre(depth, msgSize);
    for ii := 0 to depth
      invariant forall k: nat | k < ii :: indexes[k] == SlotStart(k, msgSize)
    {
      BufferIndexExact(ii, depth, msgSize);
      indexes[ii] := BufferIndex(ii, depth, msgSize);
    }
  }

  /** The ring of free slot offsets. */
  class OffsetPool {
    const depth: nat
    const indexes: array<nat>
    var startIndex: nat                // 32-bit, free running
    var stopIndex: nat                 // 32-bit, free running

    ghost var starts: nat              // checkouts so far, without wrap-around
    ghost var free: seq<nat>           // free offsets, first to be used first

    ghost predicate Valid()
      reads this, indexes
    {
      && depth < WORD / 2
      && startIndex == Cut(starts) && stopIndex == Cut(starts + |free|)
      && PoolHolds(indexes[..], starts, free, depth)
    }

    /** The next return does not reuse a ring position early. */
    ghost predicate RingSound()
      reads this
    {
      depth > 0 ==> WrapsEvenly(depth) || starts + |free| < WORD
    }

    constructor Create(depth: nat, msgSize: nat)
      requires Addressable(depth, msgSize) && depth < WORD / 2
      ensures Valid() && fresh(indexes) && this.depth == depth
      ensures free == AllOffsets(depth, msgSize) && starts == 0
    {
      this.depth := depth;
      indexes := new nat[depth](_ => 0);
      startIndex, stopIndex := 0, Cut(depth);
      starts, free := 0, AllOffsets(depth, msgSize);
      new;
      FillIndexes(indexes, depth, msgSize);
      InitialPool(indexes[..], depth, msgSize);
    }

    /** checkoutIndex: takes the next free offset; its assertion never fires. */
    method Checkout() returns (index: nat)
      requires Valid() && free != []
      modifies this
      ensures Valid() && free == old(free)[1..] && index == old(free)[0] && starts == old(starts) + 1
    {
      PoolTake(indexes[..], starts, free, depth);
      RemIs(startIndex, depth);
      index := indexes[startIndex % depth];
      CutNext(starts);
      startIndex := Cut(startIndex + 1);
      AgeIsTrue(starts + |free|, starts + 1);
      var diff := Minus(stopIndex, startIndex);
      assert diff <= depth;
      starts := starts + 1;
      free := free[1..];
    }

    /** returnIndex: puts an offset back behind the other free ones; its assertion never fires. */
    method Return(index: nat)
      requires Valid() && |free| < depth && RingSound()
      modifies this, indexes
      ensures Valid() && free == old(free) + [index] && starts == old(starts)
    {
      PoolGive(indexes[..], starts, free, depth, index);
      RemIs(stopIndex, depth);
      indexes[stopIndex % depth] := index;
      CutNext(starts + |free|);
      stopIndex := Cut(stopIndex + 1);
      AgeIsTrue(starts + |free| + 1, starts);
      var diff := Minus(stopIndex, startIndex);
      assert diff <= depth;
      free := free + [index];
    }
  }

  class BufferQueue {
    const depth: nat
    const msgSize: nat
    const heap: MaxHeap
    const pool: OffsetPool
    const data: array<Byte>
    var count: nat
    var maxCount: nat

    ghost var run: seq<Call>           // all calls so far
    ghost var history: History         // what they have done; the waiting messages are oldest first

    /** Sizes fit, and the arrays do not overlap. */
    ghost predicate Shape() {
      && Addressable(depth, msgSize) && depth < WORD / 2
      && data.Length == SlotStart(depth, msgSize) && heap.heap.Length == depth && pool.depth == depth
      && data as object != pool.indexes as object && data as object != heap.heap as object
      && pool.indexes as object != heap.heap as object
    }

    /** Each waiting message is in a slot of its own, and all other slots are free. */
    ghost predicate Stores(waiting: seq<Ranked>)
      reads this, heap, heap.heap, pool, pool.indexes, data
    {
      && Shape() && pool.Valid() && heap.Valid()
      && Conserved(pool.free, Ids(heap.contents), depth, msgSize)
      && AllStandFor(data[..], msgSize, heap.contents, waiting)
    }

    /** What every call keeps, however many there have been. */
    ghost predicate Valid()
      reads this, heap, heap.heap, pool, pool.indexes, data
    {
      && Stores(history.waiting)
      && AddsUp(history)
      && count == |history.waiting| <= maxCount == history.peak <= depth
      && heap.pushes == |history.accepted| + history.refused && pool.starts == |history.accepted|
    }

    /** The heap tells ages apart, and the calls have done what they do to a stable priority list. */
    ghost predicate Stable()
      reads this, heap
    {
      heap.Stable() && history == DoAll(depth, run)
    }

    /** A pop with this capacity may find that the message it takes fits. */
    ghost predicate MayFit(capacity: nat)
      reads this
    {
      exists k: nat :: Foremost(history.waiting, k) && |history.waiting[k].bytes| <= capacity
    }

    /** The counters of the pool always differ by the number of free slots, modulo 2^32. */
    lemma PoolCounts()
      requires Valid()
      ensures |pool.free| == depth - count && Minus(pool.stopIndex, pool.startIndex) == depth - count
    {
      ConservedSize(pool.free, Ids(heap.contents), depth, msgSize);
      AgeIsTrue(pool.starts + |pool.free|, pool.starts);
    }

    /** With fewer than 2^32 - depth accepted pushes and refused pops, the next call finds the counters sound. */
    lemma EarlyRunsAreSound()
      requires Valid() && |history.accepted| + history.refused + depth < WORD
      ensures pool.RingSound() && (depth > 0 ==> heap.Young())
    {
      ConservedSize(pool.free, Ids(heap.contents), depth, msgSize);
    }

    /** If all pops had room, only accepted pushes count. */
    lemma RoomyRunsAreSound()
      requires Valid() && Stable()
      ensures AlwaysRoom(depth, run) && |history.accepted| + depth < WORD ==>
                pool.RingSound() && (depth > 0 ==> heap.Young())
    {
      if AlwaysRoom(depth, run) && |history.accepted| + depth < WORD {
        RoomRefusesNone(depth, run);
        EarlyRunsAreSound();
      }
    }

    constructor Create(depth: nat, msgSize: nat)
      requires Addressable(depth, msgSize) && depth < WORD / 2
      ensures Valid() && Stable() && fresh(heap) && fresh(heap.heap) && fresh(pool) && fresh(pool.indexes)
      ensures fresh(data) && this.depth == depth && this.msgSize == msgSize
      ensures data.Length == depth * (4 + msgSize)
      ensures run == [] && history == EMPTY
    {
      this.depth, this.msgSize := depth, msgSize;
      var h := new MaxHeap.Create(depth);
      var p := new OffsetPool.Create(depth, msgSize);
      SlotStartIs(depth, msgSize);
      heap, pool := h, p;
      data := new Byte[depth * SlotSize(msgSize)](_ => 0);
      count, maxCount := 0, 0;
      run, history := [], EMPTY;
    }

    /** Stores the message in a free slot and enters it into the heap. */
    method Enqueue(buffer: seq<Byte>, priority: int)
      requires Valid() && |buffer| <= msgSize && count < depth
      modifies pool, heap, heap.heap, data
      ensures Stores(history.waiting + [Ranked(buffer, priority)])
      ensures heap.pushes == old(heap.pushes) + 1 && pool.starts == old(pool.starts) + 1
      ensures old(heap.Stable() && heap.Young()) ==> heap.Stable()
    {
      ghost var es, m := heap.contents, Ranked(buffer, priority);
      ConservedSize(pool.free, Ids(es), depth, msgSize);
      FreeOffsetApart(pool.free, Ids(es), depth, msgSize);
      SlotFits(|buffer|, depth, msgSize);
      ghost var e := Entry(priority, heap.pushes, pool.free[0]);
      AddConserves(pool.free, es, e, depth, msgSize);
      StandForLast(data[..], msgSize, es, history.waiting, e, m);
      var index := pool.Checkout();
      var ret := heap.Push(priority, index);
      assert ret && heap.contents == es + [e];
      EnqueueBuffer(buffer, data, index);
    }

    /** Counts a message that has been stored. */
    method CountIn(ghost m: Ranked)
      requires Stores(history.waiting + [m]) && AddsUp(history)
      requires count == |history.waiting| <= maxCount == history.peak <= depth && count < depth
      requires heap.pushes == |history.accepted| + history.refused + 1 && pool.starts == |history.accepted| + 1
      modifies `history, `count, `maxCount
      ensures Valid() && history == Pushed(depth, old(history), m)
    {
      history := Pushed(depth, history, m);
      count := count + 1;
      if count > maxCount {
        maxCount := count;
      }
    }

    /** Appends the message unless the queue is full. */
    method Push(buffer: seq<Byte>, priority: int) returns (ok: bool)
      requires Valid() && |buffer| <= msgSize
      modifies this, pool, heap, heap.heap, data
      ensures Valid() && run == old(run) + [PushCall(Ranked(buffer, priority))]
      ensures ok <==> |old(history).waiting| < depth
      ensures history == Pushed(depth, old(history), Ranked(buffer, priority))
      ensures old(Stable()) && (ok ==> old(heap.Young())) ==> Stable()
    {
      ghost var m := Ranked(buffer, priority);
      DoMore(depth, run, PushCall(m));
      run := run + [PushCall(m)];
      if count == depth {
        return false;
      }
      Enqueue(buffer, priority);
      CountIn(m);
      return true;
    }

    /** The caller's buffer is none of the queue's own arrays. */
    ghost predicate Foreign(buffer: array<Byte>) {
      buffer != data && buffer as object != heap.heap as object && buffer as object != pool.indexes as object
    }

    /** The heap has given out entry k of es, which holds this priority and offset. */
    ghost predicate TakenOut(es: seq<Entry>, k: nat, priority: int, index: nat)
      reads heap
    {
      k < |es| && heap.contents == Without(es, k) && index == es[k].id && priority == es[k].value
    }

    /** Takes the entry of a best message off the heap. */
    method PopEntry() returns (index: nat, priority: int, ghost k: nat)
      requires Valid() && history.waiting != []
      modifies heap, heap.heap
      ensures heap.Valid() && pool.Valid() && heap.pushes == old(heap.pushes)
      ensures TakenOut(old(heap.contents), k, priority, index)
      ensures Foremost(history.waiting, k)
      ensures priority == history.waiting[k].priority && Holds(data[..], index, history.waiting[k].bytes)
      ensures old(heap.Stable()) ==> heap.Stable() && k == Best(history.waiting)
      ensures old(heap.Young()) ==> heap.Young()
    {
      ghost var es, waiting := heap.contents, history.waiting;
      BestAgrees(data[..], msgSize, es, waiting);
      var ret;
      ret, priority, index, k := heap.Pop();
      assert ret && heap.contents == Without(es, k);
      ForemostAgrees(data[..], msgSize, es, waiting, k);
      assert StandsFor(data[..], msgSize, es[k], waiting[k]);
    }

    /** dequeueBuffer for the message at `index`; the heap and the pool are not touched. */
    method CopyOut(buffer: array<Byte>, capacity: nat, index: nat, ghost m: Ranked) returns (ok: bool, size: nat)
      requires Shape() && heap.Valid() && pool.Valid() && Holds(data[..], index, m.bytes)
      requires capacity <= buffer.Length && Foreign(buffer)
      modifies buffer
      ensures heap.Valid() && pool.Valid()
      ensures size == |m.bytes| && (ok <==> size <= capacity)
      ensures buffer[..] == if ok then m.bytes + old(buffer[size..]) else old(buffer[..])
    {
      ok, size := DequeueBuffer(buffer, capacity, data, index, m.bytes);
    }

    /** Enters the entry of message k again, as the newest. */
    method Requeue(priority: int, index: nat, ghost es: seq<Entry>, ghost k: nat)
      requires Shape() && heap.Valid() && pool.Valid() && TakenOut(es, k, priority, index)
      requires Conserved(pool.free, Ids(es), depth, msgSize)
      requires AllStandFor(data[..], msgSize, es, history.waiting)
      modifies heap, heap.heap
      ensures Stores(Left(history.waiting, k, false))
      ensures heap.pushes == old(heap.pushes) + 1
      ensures old(heap.Stable() && heap.Young()) ==> heap.Stable()
    {
      ghost var e := Entry(priority, heap.pushes, index);
      RequeueConserves(pool.free, es, k, e, depth, msgSize);
      StandForRequeued(data[..], msgSize, es, history.waiting, k, e);
      ConservedSize(pool.free, Ids(es), depth, msgSize);
      var ret := heap.Push(priority, index);
      assert ret && heap.contents == Without(es, k) + [e];
    }

    /** Gives the slot of message k back to the pool. */
    method Release(priority: int, index: nat, ghost es: seq<Entry>, ghost k: nat)
      requires Shape() && heap.Valid() && pool.Valid() && TakenOut(es, k, priority, index) && pool.RingSound()
      requires Conserved(pool.free, Ids(es), depth, msgSize)
      requires AllStandFor(data[..], msgSize, es, history.waiting)
      modifies pool, pool.indexes
      ensures Stores(Left(history.waiting, k, true))
      ensures pool.starts == old(pool.starts)
    {
      RemoveConserves(pool.free, es, k, depth, msgSize);
      StandForWithout(data[..], msgSize, es, history.waiting, k);
      pool.Return(index);
    }

    /** Once the copy is done or refused: gives the slot back, or enters the message again. */
    method Settle(ok: bool, priority: int, index: nat, ghost es: seq<Entry>, ghost k: nat)
      requires Shape() && heap.Valid() && pool.Valid() && TakenOut(es, k, priority, index)
      requires ok ==> pool.RingSound()
      requires Conserved(pool.free, Ids(es), depth, msgSize)
      requires AllStandFor(data[..], msgSize, es, history.waiting)
      modifies pool, pool.indexes, heap, heap.heap
      ensures Stores(Left(history.waiting, k, ok))
      ensures heap.pushes == old(heap.pushes) + (if ok then 0 else 1) && pool.starts == old(pool.starts)
      ensures old(heap.Stable()) && (ok || old(heap.Young())) ==> heap.Stable()
    {
      if !ok {
        Requeue(priority, index, es, k);
        return;
      }
      Release(priority, index, es, k);
    }

    /** Takes the entry of a best message off the heap and copies the message out if there is room. */
    method TakeEntry(buffer: array<Byte>, capacity: nat)
      returns (ok: bool, size: nat, priority: int, index: nat, ghost k: nat)
      requires Valid() && history.waiting != []
      requires capacity <= buffer.Length && Foreign(buffer)
      modifies heap, heap.heap, buffer
      ensures heap.Valid() && pool.Valid() && heap.pushes == old(heap.pushes)
      ensures TakenOut(old(heap.contents), k, priority, index)
      ensures Foremost(history.waiting, k) && priority == history.waiting[k].priority
      ensures size == |history.waiting[k].bytes| && (ok <==> size <= capacity)
      ensures buffer[..] == if ok then history.waiting[k].bytes + old(buffer[size..]) else old(buffer[..])
      ensures old(heap.Stable()) ==> heap.Stable() && k == Best(history.waiting)
      ensures old(heap.Young()) ==> heap.Young()
    {
      index, priority, k := PopEntry();
      ok, size := CopyOut(buffer, capacity, index, history.waiting[k]);
    }

    /** Takes a best message, or, if the buffer is too small, enters it again as the newest. */
    method Dequeue(buffer: array<Byte>, capacity: nat)
      returns (ok: bool, size: nat, priority: int, ghost k: nat)
      requires Valid() && history.waiting != [] && (MayFit(capacity) ==> pool.RingSound())
      requires capacity <= buffer.Length && Foreign(buffer)
      modifies pool, pool.indexes, heap, heap.heap, buffer
      ensures Foremost(history.waiting, k) && Stores(Left(history.waiting, k, ok))
      ensures heap.pushes == old(heap.pushes) + (if ok then 0 else 1) && pool.starts == old(pool.starts)
      ensures size == |history.waiting[k].bytes| && priority == history.waiting[k].priority
      ensures ok <==> size <= capacity
      ensures buffer[..] == if ok then history.waiting[k].bytes + old(buffer[size..]) else old(buffer[..])
      ensures old(heap.Stable()) ==> k == Best(history.waiting)
      ensures old(heap.Stable()) && (!ok ==> old(heap.Young())) ==> heap.Stable()
    {
      ghost var es := heap.contents;
      var index;
      ok, size, priority, index, k := TakeEntry(buffer, capacity);
      assert ok ==> MayFit(capacity);
      Settle(ok, priority, index, es, k);
    }

    /** Accounts for message k, which has been taken or entered again. */
    method CountOut(ok: bool, ghost k: nat)
      requires k < |history.waiting| && AddsUp(history)
      requires count == |history.waiting| <= maxCount == history.peak <= depth
      requires heap.pushes == |history.accepted| + history.refused + (if ok then 0 else 1)
      requires pool.starts == |history.accepted|
      modifies `history, `count
      ensures history == Popped(old(history), k, ok)
      ensures old(Stores(Left(history.waiting, k, ok))) ==> Valid()
    {
      AddsUpPopped(history, k, ok);
      history := Popped(history, k, ok);
      if !ok {
        return;
      }
      count := count - 1;
    }

    /**
     Takes the oldest message of the highest priority, or, if the heap no longer tells ages apart,
     some message of the highest priority.  A buffer that is too small learns the size; the
     message stays, but it now counts as the newest.
     */
    method Pop(buffer: array<Byte>, capacity: nat) returns (ok: bool, size: nat, priority: int, ghost k: nat)
      requires Valid() && (MayFit(capacity) ==> pool.RingSound())
      requires capacity <= buffer.Length && Foreign(buffer)
      modifies this, pool, pool.indexes, heap, heap.heap, buffer
      ensures Valid() && run == old(run) + [PopCall(capacity)]
      ensures old(history).waiting == [] ==>
                !ok && size == 0 && history == old(history) && buffer[..] == old(buffer[..])
      ensures old(history).waiting != [] ==>
                && Foremost(old(history).waiting, k)
                && (old(Stable()) ==> k == Best(old(history).waiting))
                && var m := old(history).waiting[k];
                && size == |m.bytes| && priority == m.priority && (ok <==> size <= capacity)
                && history == Popped(old(history), k, ok)
                && buffer[..] == if ok then m.bytes + old(buffer[size..]) else old(buffer[..])
      ensures old(Stable()) && (ok || old(history).waiting == [] || old(heap.Young())) ==> Stable()
    {
      DoMore(depth, run, PopCall(capacity));
      run := run + [PopCall(capacity)];
      if count == 0 {
        return false, 0, 0, 0;
      }
      ok, size, priority, k := Dequeue(buffer, capacity);
      CountOut(ok, k);
    }
  }
}
