/**
 The first-in-first-out buffer queue: a ring of byte slots with free-running 32-bit head
 and tail counters, refining a bounded sequence of messages.
 */
module FifoBufferQueue {
  import opened BufferBytes
  import opened MachineWords
  import opened Sequences

  /** The offset used by push number n. */
  ghost function OffsetOf(n: nat, depth: nat, msgSize: nat): nat {
    if depth == 0 then 0 else SlotStart(RingSlot(n, depth), msgSize)
  }

  /** The offsets of the waiting messages: those of their push numbers. */
  ghost function RingOffsets(popped: nat, n: nat, depth: nat, msgSize: nat): (r: seq<nat>)
    ensures |r| == n && forall k: nat | k < n :: r[k] == OffsetOf(popped + k, depth, msgSize)
  {
    if n == 0 then [] else RingOffsets(popped, n - 1, depth, msgSize) + [OffsetOf(popped + n - 1, depth, msgSize)]
  }

  /** The next push uses a slot apart from all waiting messages. */
  lemma NextOffsetApart(popped: nat, n: nat, depth: nat, msgSize: nat)
    requires n < depth && (WrapsEvenly(depth) || popped + n < WORD)
    ensures OffsetOf(popped + n, depth, msgSize) + SlotSize(msgSize) <= SlotStart(depth, msgSize)
    ensures forall k: nat | k < n ::
              Apart(RingOffsets(popped, n, depth, msgSize)[k], OffsetOf(popped + n, depth, msgSize), msgSize)
  {
    var j := RingSlot(popped + n, depth);
    SlotBytesDisjoint(j, depth, msgSize);
    forall k: nat | k < n
      ensures Apart(RingOffsets(popped, n, depth, msgSize)[k], OffsetOf(popped + n, depth, msgSize), msgSize)
    {
      var i := RingSlot(popped + k, depth);
      LiveSlotsDiffer(popped + k, popped + n, depth);
      if i < j {
        SlotBytesDisjoint(i, j, msgSize);
      } else {
        SlotBytesDisjoint(j, i, msgSize);
      }
    }
  }

  /** Without the oldest message, the others are where they were. */
  lemma DropOldest(d: seq<Byte>, depth: nat, msgSize: nat, popped: nat, contents: seq<Message>)
    requires contents != []
    requires AllHeld(d, msgSize, RingOffsets(popped, |contents|, depth, msgSize), contents)
    ensures AllHeld(d, msgSize, RingOffsets(popped + 1, |contents| - 1, depth, msgSize), contents[1..])
  {
    var offsets := RingOffsets(popped, |contents|, depth, msgSize);
    assert RingOffsets(popped + 1, |contents| - 1, depth, msgSize) == offsets[1..];
    forall k: nat | k < |contents| - 1
      ensures Fits(d, msgSize, offsets[1..][k], contents[1..][k])
    {
      assert Fits(d, msgSize, offsets[k + 1], contents[k + 1]);
    }
  }

  // ---------------------------------------------------------------------------
  // Whole runs
  // ---------------------------------------------------------------------------

  datatype Call = PushCall(bytes: Message) | PopCall(capacity: nat)

  /** What one call does to a queue of at most `depth` messages, oldest first. */
  ghost function After(depth: nat, contents: seq<Message>, c: Call): seq<Message> {
    match c
    case PushCall(bytes) => if |contents| < depth then contents + [bytes] else contents
    case PopCall(capacity) => if contents != [] && |contents[0]| <= capacity then contents[1..] else contents
  }

  /** The waiting messages after the calls of a run on an empty queue. */
  ghost function Contents(depth: nat, run: seq<Call>): seq<Message> {
    if run == [] then [] else After(depth, Contents(depth, run[..|run| - 1]), run[|run| - 1])
  }

  /** The messages that pushes accepted, in order. */
  ghost function Accepted(depth: nat, run: seq<Call>): seq<Message> {
    if run == [] then []
    else
      var before, c := run[..|run| - 1], run[|run| - 1];
      Accepted(depth, before) + (if c.PushCall? && |Contents(depth, before)| < depth then [c.bytes] else [])
  }

  /** The messages that pops returned, in order. */
  ghost function Delivered(depth: nat, run: seq<Call>): seq<Message> {
    if run == [] then []
    else
      var before, c := run[..|run| - 1], run[|run| - 1];
      var waiting := Contents(depth, before);
      Delivered(depth, before)
      + (if c.PopCall? && waiting != [] && |waiting[0]| <= c.capacity then [waiting[0]] else [])
  }

  /** The largest number of messages waiting after any call of the run. */
  ghost function Peak(depth: nat, run: seq<Call>): nat {
    if run == [] then 0
    else
      var before, now := Peak(depth, run[..|run| - 1]), |Contents(depth, run)|;
      if now > before then now else before
  }

  lemma TakeOldest(delivered: seq<Message>, waiting: seq<Message>)
    requires waiting != []
    ensures delivered + waiting == (delivered + [waiting[0]]) + waiting[1..]
  {
    Regroup(delivered, [waiting[0]], waiting[1..]);
    assert waiting == [waiting[0]] + waiting[1..];
  }

  /** Nothing is lost, invented or reordered: pops return exactly a prefix of what pushes accepted. */
  lemma {:induction false} FirstInFirstOut(depth: nat, run: seq<Call>)
    ensures Accepted(depth, run) == Delivered(depth, run) + Contents(depth, run)
    ensures |Contents(depth, run)| <= depth
  {
    if run == [] {
    } else {
      var before, c := run[..|run| - 1], run[|run| - 1];
      var waiting := Contents(depth, before);
      FirstInFirstOut(depth, before);
      if c.PushCall? {
        Regroup(Delivered(depth, before), waiting, [c.bytes]);
      } else if waiting != [] {
        TakeOldest(Delivered(depth, before), waiting);
      }
    }
  }

  /** The peak is reached after some call, and never exceeded after any. */
  lemma {:induction false} PeakIsLargest(depth: nat, run: seq<Call>)
    ensures forall n: nat | n <= |run| :: |Contents(depth, run[..n])| <= Peak(depth, run)
    ensures exists n: nat :: n <= |run| && |Contents(depth, run[..n])| == Peak(depth, run)
  {
    assert run[..|run|] == run;
    if run == [] {
    } else {
      var before := run[..|run| - 1];
      PeakIsLargest(depth, before);
      forall n: nat | n <= |run|
        ensures |Contents(depth, run[..n])| <= Peak(depth, run)
      {
        if n < |run| {
          assert before[..n] == run[..n];
        }
      }
      var m: nat :| m <= |before| && |Contents(depth, before[..m])| == Peak(depth, before);
      assert before[..m] == run[..m];
    }
  }

  /** The state that a run leads to. */
  ghost predicate Reached(depth: nat, run: seq<Call>, contents: seq<Message>, pushed: nat, maxCount: nat) {
    contents == Contents(depth, run) && pushed == |Accepted(depth, run)| && maxCount == Peak(depth, run)
  }

  /** One more call leads one step further. */
  lemma OneMoreCall(depth: nat, run: seq<Call>, c: Call, contents: seq<Message>, pushed: nat, maxCount: nat)
    requires Reached(depth, run, contents, pushed, maxCount)
    ensures var after := After(depth, contents, c);
            Reached(depth, run + [c], after, if c.PushCall? && |contents| < depth then pushed + 1 else pushed,
                    if |after| > maxCount then |after| else maxCount)
  {
    assert (run + [c])[..|run|] == run;
  }

  class BufferQueue {
    const depth: nat
    const msgSize: nat
    const data: array<Byte>
    var head: nat                      // 32-bit, free running
    var tail: nat                      // 32-bit, free running
    var count: nat
    var maxCount: nat

    ghost var run: seq<Call>           // all calls so far
    ghost var pushed: nat              // accepted pushes so far, without wrap-around
    ghost var popped: nat
    ghost var contents: seq<Message>   // oldest first

    ghost predicate Valid()
      reads this, data
    {
      && Addressable(depth, msgSize) && depth < WORD
      && data.Length == SlotStart(depth, msgSize)
      && count == |contents| == pushed - popped
      && head == Cut(popped) && tail == Cut(pushed)
      && count <= maxCount <= depth
      && (depth > 0 ==> WrapsEvenly(depth) || pushed <= WORD)
      && AllHeld(data[..], msgSize, RingOffsets(popped, |contents|, depth, msgSize), contents)
      && Reached(depth, run, contents, pushed, maxCount)
    }

    /** The next push does not reuse a slot early: the counter has not wrapped, or wrapping is harmless. */
    ghost predicate RingSound()
      reads this
    {
      depth > 0 ==> WrapsEvenly(depth) || pushed < WORD
    }

    /** The number of waiting messages is the 32-bit difference of the two counters. */
    lemma CountIsDifference()
      requires Valid()
      ensures count == Minus(tail, head)
    {
      AgeIsTrue(pushed, popped);
    }

    constructor Create(depth: nat, msgSize: nat)
      requires Addressable(depth, msgSize) && depth < WORD
      ensures Valid() && fresh(data) && this.depth == depth && this.msgSize == msgSize
      ensures data.Length == depth * (4 + msgSize)
      ensures run == []
    {
      this.depth, this.msgSize := depth, msgSize;
      SlotStartIs(depth, msgSize);
      data := new Byte[depth * SlotSize(msgSize)](_ => 0);
      head, tail, count, maxCount := 0, 0, 0, 0;
      run, pushed, popped, contents := [], 0, 0, [];
    }

    method Enqueue(buffer: seq<Byte>)
      requires Valid() && |buffer| <= msgSize && count < depth && RingSound()
      modifies data, `tail, `pushed
      ensures pushed == old(pushed) + 1 && tail == Cut(pushed)
      ensures AllHeld(data[..], msgSize, RingOffsets(popped, |contents| + 1, depth, msgSize), contents + [buffer])
    {
      ghost var at := OffsetOf(pushed, depth, msgSize);
      NextOffsetApart(popped, count, depth, msgSize);
      ghost var offsets := RingOffsets(popped, count, depth, msgSize);
      WriteFresh(data[..], msgSize, offsets, contents, at, buffer);
      assert RingOffsets(popped, count + 1, depth, msgSize) == offsets + [at];
      BufferIndexExact(tail, depth, msgSize);
      var index := BufferIndex(tail, depth, msgSize);
      EnqueueBuffer(buffer, data, index);
      CutNext(pushed);
      tail := Cut(tail + 1);
      pushed := pushed + 1;
    }

    /** Appends the message unless the queue is full. */
    method Push(buffer: seq<Byte>) returns (ok: bool)
      requires Valid() && |buffer| <= msgSize && (count < depth ==> RingSound())
      modifies this, data
      ensures Valid()
      ensures run == old(run) + [PushCall(buffer)]
      ensures ok <==> |old(contents)| < depth
      ensures contents == if ok then old(contents) + [buffer] else old(contents)
    {
      OneMoreCall(depth, run, PushCall(buffer), contents, pushed, maxCount);
      if count == depth {
        run := run + [PushCall(buffer)];
        return false;
      }
      Enqueue(buffer);
      run := run + [PushCall(buffer)];
      contents := contents + [buffer];
      count := count + 1;
      if count > maxCount {
        maxCount := count;
      }
      return true;
    }

    /** Takes the oldest message; a buffer that is too small only learns its size. */
    method Pop(buffer: array<Byte>, capacity: nat) returns (ok: bool, size: nat)
      requires Valid() && capacity <= buffer.Length && buffer != data
      modifies this, buffer
      ensures Valid() && run == old(run) + [PopCall(capacity)]
      ensures ok <==> old(contents) != [] && |old(contents)[0]| <= capacity
      ensures size == if old(contents) == [] then 0 else |old(contents)[0]|
      ensures ok ==> contents == old(contents)[1..] && buffer[..] == old(contents)[0] + old(buffer[size..])
      ensures !ok ==> contents == old(contents) && buffer[..] == old(buffer[..])
    {
      OneMoreCall(depth, run, PopCall(capacity), contents, pushed, maxCount);
      if count == 0 {
        run := run + [PopCall(capacity)];
        return false, 0;
      }
      BufferIndexExact(head, depth, msgSize);
      ghost var offsets := RingOffsets(popped, count, depth, msgSize);
      assert offsets[0] == OffsetOf(popped + 0, depth, msgSize) && Fits(data[..], msgSize, offsets[0], contents[0]);
      var index := BufferIndex(head, depth, msgSize);
      ok, size := DequeueBuffer(buffer, capacity, data, index, contents[0]);
      run := run + [PopCall(capacity)];
      if !ok {
        return;
      }
      DropOldest(data[..], depth, msgSize, popped, contents);
      CutNext(popped);
      head := Cut(head + 1);
      count := count - 1;
      popped := popped + 1;
      contents := contents[1..];
    }
  }
}
