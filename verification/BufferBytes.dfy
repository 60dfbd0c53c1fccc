/**
 The byte layout shared by both buffer queues: `depth` slots of four size bytes followed by
 at most `msgSize` message bytes, and the 32-bit arithmetic that picks a slot.
 */
module BufferBytes {
  import opened MachineWords

  /** Bytes of one slot: sizeof(NATIVE_INT_TYPE) + msgSize. */
  function SlotSize(msgSize: nat): nat {
    4 + msgSize
  }

  /** The whole buffer can be addressed with 32-bit offsets. */
  ghost predicate Addressable(depth: nat, msgSize: nat) {
    depth * SlotSize(msgSize) <= WORD
  }

  /** The remainder a % d, by repeated subtraction. */
  ghost function Rem(a: nat, d: nat): (r: nat)
    requires d > 0
    ensures r < d
  {
    if a < d then a else Rem(a - d, d)
  }

  /** The ring position of a free-running counter after it was cut to 32 bits. */
  ghost function RingSlot(n: nat, depth: nat): (j: nat)
    requires depth > 0
    ensures j < depth
  {
    Rem(Cut(n), depth)
  }

  /** The depth divides 2^32, so the counters wrap from the last slot to the first. */
  ghost predicate WrapsEvenly(depth: nat) {
    depth > 0 && Rem(WORD, depth) == 0
  }

  /** getBufferIndex: the byte offset of a slot, cut to 32 bits. */
  function BufferIndex(index: nat, depth: nat, msgSize: nat): nat
    requires depth > 0
  {
    Cut((index % depth) * SlotSize(msgSize))
  }

  // ---------------------------------------------------------------------------
  // Arithmetic
  // ---------------------------------------------------------------------------

  lemma {:induction false} RemIs(a: nat, d: nat)
    requires d > 0
    ensures Rem(a, d) == a % d
  {
    if a < d {
    } else {
      RemIs(a - d, d);
      ModShift(a, d);
    }
  }

  lemma MulLe(a: nat, b: nat, m: nat)
    requires a <= b
    ensures a * m <= b * m
  {
  }

  lemma ModShift(a: nat, d: nat)
    requires a >= d > 0
    ensures (a - d) % d == a % d
  {
    var q, r := a / d, a % d;
    var q', r' := (a - d) / d, (a - d) % d;
    var z := q - q' - 1;
    assert d * z == d * q - d * q' - d == r' - r;
    if z >= 1 {
      MulLe(1, z, d);
    } else if z <= -1 {
      MulLe(1, -z, d);
    }
  }

  /** Two numbers less than d apart have different remainders. */
  lemma {:induction false} RemaindersDiffer(a: nat, b: nat, d: nat)
    requires a < b < a + d
    ensures Rem(a, d) != Rem(b, d)
  {
    if a >= d {
      RemaindersDiffer(a - d, b - d, d);
    } else if b >= d {
      assert Rem(b - d, d) == b - d;
    }
  }

  /** Adding a multiple of d keeps the remainder. */
  lemma {:induction false} RemShift(a: nat, w: nat, d: nat)
    requires d > 0 && Rem(w, d) == 0
    ensures Rem(a + w, d) == Rem(a, d)
    decreases w
  {
    if w < d {
    } else {
      RemShift(a, w - d, d);
    }
  }

  /** Cutting the counter to 32 bits does not change its slot when the depth divides 2^32. */
  lemma {:induction false} CutKeepsSlot(n: nat, depth: nat)
    requires WrapsEvenly(depth)
    ensures RingSlot(n, depth) == Rem(n, depth)
  {
    if n < WORD {
    } else {
      assert Cut(n) == Cut(n - WORD);
      CutKeepsSlot(n - WORD, depth);
      RemShift(n - WORD, WORD, depth);
    }
  }

  /** Counters that are both live, hence less than depth apart, use different slots. */
  lemma LiveSlotsDiffer(n: nat, m: nat, depth: nat)
    requires n < m < n + depth
    requires WrapsEvenly(depth) || m < WORD
    ensures RingSlot(n, depth) != RingSlot(m, depth)
  {
    RemaindersDiffer(n, m, depth);
    if WrapsEvenly(depth) {
      CutKeepsSlot(n, depth);
      CutKeepsSlot(m, depth);
    }
  }

  /** No two live counters ever share a slot. */
  ghost predicate SlotsNeverCollide(depth: nat)
    requires depth > 0
  {
    forall n: nat, m: nat | n < m < n + depth :: RingSlot(n, depth) != RingSlot(m, depth)
  }

  /** Taking the remainder off leaves a multiple. */
  lemma {:induction false} RemTaken(w: nat, d: nat)
    requires d > 0
    ensures Rem(w, d) <= w && Rem(w - Rem(w, d), d) == 0
  {
    if w < d {
    } else {
      RemTaken(w - d, d);
    }
  }

  /**
   The free-running 32-bit counters are safe for ever exactly when the depth divides 2^32.
   Otherwise the slot of counter 2^32, which is 0 again, is still in use.
   */
  lemma SafeForeverIffDivides(depth: nat)
    requires 0 < depth < WORD
    ensures SlotsNeverCollide(depth) <==> WORD % depth == 0
  {
    RemIs(WORD, depth);
    if WORD % depth == 0 {
      forall n: nat, m: nat | n < m < n + depth
        ensures RingSlot(n, depth) != RingSlot(m, depth)
      {
        LiveSlotsDiffer(n, m, depth);
      }
    } else {
      RemTaken(WORD, depth);
      var n: nat := WORD - Rem(WORD, depth);
      assert RingSlot(n, depth) == 0 && RingSlot(WORD, depth) == 0;
      assert n < WORD < n + depth;
    }
  }

  /** The byte offset of slot j: the sizes of the slots before it. */
  ghost function SlotStart(j: nat, msgSize: nat): nat {
    if j == 0 then 0 else SlotStart(j - 1, msgSize) + SlotSize(msgSize)
  }

  lemma {:induction false} SlotStartIs(j: nat, msgSize: nat)
    ensures SlotStart(j, msgSize) == j * SlotSize(msgSize)
  {
    if j == 0 {
    } else {
      SlotStartIs(j - 1, msgSize);
    }
  }

  /** Different slots occupy disjoint bytes of the buffer. */
  lemma {:induction false} SlotBytesDisjoint(i: nat, j: nat, msgSize: nat)
    requires i < j
    ensures SlotStart(i, msgSize) + SlotSize(msgSize) <= SlotStart(j, msgSize)
  {
    if i + 1 == j {
    } else {
      SlotBytesDisjoint(i, j - 1, msgSize);
    }
  }

  /** getBufferIndex computes the slot's offset without being cut. */
  lemma BufferIndexExact(index: nat, depth: nat, msgSize: nat)
    requires depth > 0 && Addressable(depth, msgSize)
    ensures BufferIndex(index, depth, msgSize) == SlotStart(Rem(index, depth), msgSize)
    ensures BufferIndex(index, depth, msgSize) + SlotSize(msgSize) <= SlotStart(depth, msgSize)
  {
    RemIs(index, depth);
    SlotStartIs(Rem(index, depth), msgSize);
    SlotStartIs(depth, msgSize);
    SlotBytesDisjoint(Rem(index, depth), depth, msgSize);
  }

  // ---------------------------------------------------------------------------
  // Contents of a slot
  // ---------------------------------------------------------------------------

  /** The four bytes of a 32-bit size, as memcpy lays them out on a little-endian machine. */
  function SizeBytes(n: nat): (r: seq<Byte>)
    requires n < WORD
    ensures |r| == 4
  {
    [n % 0x100, (n / 0x100) % 0x100, (n / 0x1_0000) % 0x100, n / 0x100_0000]
  }

  function SizeFrom(b: seq<Byte>): nat
    requires |b| == 4
  {
    (b[0] as nat) + (b[1] as nat) * 0x100 + (b[2] as nat) * 0x1_0000 + (b[3] as nat) * 0x100_0000
  }

  lemma SizeRoundTrip(n: nat)
    requires n < WORD
    ensures SizeFrom(SizeBytes(n)) == n
  {
    assert n / 0x100 / 0x100 == n / 0x1_0000 && n / 0x1_0000 / 0x100 == n / 0x100_0000;
  }

  /** Offset `at` holds a message: its size, then its bytes. */
  ghost predicate Holds(d: seq<Byte>, at: nat, msg: seq<Byte>) {
    && |msg| < WORD
    && at + 4 + |msg| <= |d|
    && d[at..at + 4] == SizeBytes(|msg|)
    && d[at + 4..at + 4 + |msg|] == msg
  }

  ghost function Written(d: seq<Byte>, at: nat, msg: seq<Byte>): (r: seq<Byte>)
    requires |msg| < WORD && at + 4 + |msg| <= |d|
    ensures |r| == |d|
  {
    d[..at] + SizeBytes(|msg|) + msg + d[at + 4 + |msg|..]
  }

  lemma WrittenHolds(d: seq<Byte>, at: nat, msg: seq<Byte>)
    requires |msg| < WORD && at + 4 + |msg| <= |d|
    ensures Holds(Written(d, at, msg), at, msg)
  {
  }

  /** Writing one slot leaves the message of every other slot alone. */
  lemma WrittenElsewhere(d: seq<Byte>, at: nat, msg: seq<Byte>, other: nat, kept: seq<Byte>)
    requires |msg| < WORD && at + 4 + |msg| <= |d| && Holds(d, other, kept)
    requires at + 4 + |msg| <= other || other + 4 + |kept| <= at
    ensures Holds(Written(d, at, msg), other, kept)
  {
    var w := Written(d, at, msg);
    assert forall k: nat | k < |d| && (k < at || at + 4 + |msg| <= k) :: w[k] == d[k];
    assert w[other..other + 4] == d[other..other + 4];
    assert w[other + 4..other + 4 + |kept|] == d[other + 4..other + 4 + |kept|];
  }

  /** Two offsets whose slots do not overlap. */
  ghost predicate Apart(a: nat, b: nat, msgSize: nat) {
    a + SlotSize(msgSize) <= b || b + SlotSize(msgSize) <= a
  }

  /** A slot holds a message of at most msgSize bytes. */
  ghost predicate Fits(d: seq<Byte>, msgSize: nat, at: nat, msg: seq<Byte>) {
    |msg| <= msgSize && Holds(d, at, msg)
  }

  /** Each offset holds the message of the same position. */
  ghost predicate AllHeld(d: seq<Byte>, msgSize: nat, offsets: seq<nat>, contents: seq<seq<Byte>>) {
    && |offsets| == |contents|
    && forall k: nat {:trigger Fits(d, msgSize, offsets[k], contents[k])} | k < |contents| ::
         Fits(d, msgSize, offsets[k], contents[k])
  }

  /** Writing a free slot adds its message behind the others and disturbs none of them. */
  lemma WriteFresh(d: seq<Byte>, msgSize: nat, offsets: seq<nat>, contents: seq<seq<Byte>>, at: nat, msg: seq<Byte>)
    requires AllHeld(d, msgSize, offsets, contents)
    requires |msg| <= msgSize && |msg| < WORD && at + SlotSize(msgSize) <= |d|
    requires forall k: nat | k < |offsets| :: Apart(offsets[k], at, msgSize)
    ensures AllHeld(Written(d, at, msg), msgSize, offsets + [at], contents + [msg])
  {
    WrittenHolds(d, at, msg);
    forall k: nat | k < |contents|
      ensures Fits(Written(d, at, msg), msgSize, offsets[k], contents[k])
    {
      assert Fits(d, msgSize, offsets[k], contents[k]);
      WrittenElsewhere(d, at, msg, offsets[k], contents[k]);
    }
  }

  /** enqueueBuffer: copies the size and then the bytes into the buffer. */
  method EnqueueBuffer(buffer: seq<Byte>, data: array<Byte>, index: nat)
    requires |buffer| < WORD && index + 4 + |buffer| <= data.Length
    modifies data
    ensures data[..] == Written(old(data[..]), index, buffer)
  {
    var size := SizeBytes(|buffer|);
    ghost var d := data[..];
    forall k | 0 <= k < 4 {
      data[index + k] := size[k];
    }
    var at := index + 4;
    forall k | 0 <= k < |buffer| {
      data[at + k] := buffer[k];
    }
    ghost var w := Written(d, index, buffer);
    assert forall k | 0 <= k < data.Length :: data[k] == w[k];
  }

  /** dequeueBuffer: copies a message out, or reports its size when the buffer is too small. */
  method DequeueBuffer(buffer: array<Byte>, capacity: nat, data: array<Byte>, index: nat, ghost msg: seq<Byte>)
      returns (ok: bool, size: nat)
    requires Holds(data[..], index, msg) && capacity <= buffer.Length && buffer != data
    modifies buffer
    ensures size == |msg| && (ok <==> |msg| <= capacity)
    ensures ok ==> buffer[..] == msg + old(buffer[|msg|..])
    ensures !ok ==> buffer[..] == old(buffer[..])
  {
    SizeRoundTrip(|msg|);
    assert data[index..index + 4] == data[..][index..index + 4];
    size := SizeFrom(data[index..index + 4]);
    if size > capacity {
      return false, size;
    }
    var at := index + 4;
    assert data[at..at + |msg|] == data[..][at..at + |msg|];
    forall k | 0 <= k < size {
      buffer[k] := data[at + k];
    }
    assert forall k | 0 <= k < size :: buffer[k] == data[at..at + |msg|][k];
    ok := true;
  }
}
