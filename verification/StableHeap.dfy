/**
 The stable binary max heap behind the priority queue: highest value first, oldest first
 among equal values.  Age is kept in a 32-bit push counter that wraps around.
 */
module StableHeap {
  import opened MachineWords

  /** One slot of the heap array, as the program stores it. */
  datatype HeapNode = HeapNode(value: int, order: nat, id: nat)

  /** What a slot means: `stamp` is the number of pushes before this one, without wrap-around. */
  datatype Entry = Entry(value: int, stamp: nat, id: nat)

  /** a leaves the heap before b. */
  ghost predicate Before(a: Entry, b: Entry) {
    a.value > b.value || (a.value == b.value && a.stamp < b.stamp)
  }

  /**
   a may stay above b: strictly before it where the order is stable, and otherwise at least as
   high.  Stability hangs on the push counter, the order by value on nothing.
   */
  ghost predicate Precedes(a: Entry, b: Entry, stable: bool) {
    if stable then Before(a, b) else a.value >= b.value
  }

  ghost predicate Sorted(s: seq<Entry>) {
    forall i: nat, j: nat | i < j < |s| :: s[i].stamp < s[j].stamp
  }

  ghost predicate DistinctStamps(s: seq<Entry>) {
    forall i: nat, j: nat | i < j < |s| :: s[i].stamp != s[j].stamp
  }

  /** The first position of the highest value. */
  ghost function FirstMax(values: seq<int>): (k: nat)
    requires values != []
    ensures k < |values|
    ensures forall j: nat | j < |values| :: values[j] <= values[k]
    ensures forall j: nat | j < k :: values[j] < values[k]
  {
    if |values| == 1 then 0
    else
      var k := FirstMax(values[..|values| - 1]);
      if values[|values| - 1] > values[k] then |values| - 1 else k
  }

  ghost function Values(s: seq<Entry>): (v: seq<int>)
    ensures |v| == |s| && forall i: nat | i < |s| :: v[i] == s[i].value
  {
    seq(|s|, (i: nat) requires i < |s| => s[i].value)
  }

  /** The position of the oldest entry among those of the highest value, oldest first. */
  ghost function BestIndex(s: seq<Entry>): (k: nat)
    requires s != []
    ensures k < |s|
    ensures forall j: nat | j < |s| :: s[j].value <= s[k].value
    ensures forall j: nat | j < k :: s[j].value < s[k].value
  {
    FirstMax(Values(s))
  }

  /** No entry has a higher value than the one at k. */
  ghost predicate Highest(s: seq<Entry>, k: nat) {
    k < |s| && forall j: nat | j < |s| :: s[j].value <= s[k].value
  }

  /** The sequence with position k taken out. */
  ghost function Without<T>(s: seq<T>, k: nat): (r: seq<T>)
    requires k < |s|
    ensures |r| == |s| - 1
    ensures forall j: nat {:trigger r[j]} | j < |r| :: r[j] == if j < k then s[j] else s[j + 1]
  {
    s[..k] + s[k + 1..]
  }

  lemma WithoutMultiset<T>(s: seq<T>, k: nat)
    requires k < |s|
    ensures multiset(Without(s, k)) == multiset(s) - multiset{s[k]}
  {
    assert s == s[..k] + [s[k]] + s[k + 1..];
  }

  lemma SortedWithout(s: seq<Entry>, k: nat)
    requires Sorted(s) && k < |s|
    ensures Sorted(Without(s, k))
  {
  }

  // ---------------------------------------------------------------------------
  // The heap order
  // ---------------------------------------------------------------------------

  function Parent(i: nat): nat
    requires i > 0
  {
    (i - 1) / 2
  }

  ghost predicate Ordered(s: seq<Entry>, i: nat, stable: bool)
    requires 0 < i < |s|
  {
    Precedes(s[Parent(i)], s[i], stable)
  }

  ghost predicate HeapOrder(s: seq<Entry>, stable: bool) {
    forall i: nat | 0 < i < |s| :: Ordered(s, i, stable)
  }

  lemma StableIsOrdered(s: seq<Entry>, stable: bool)
    requires HeapOrder(s, stable)
    ensures HeapOrder(s, false)
  {
    forall i: nat | 0 < i < |s|
      ensures Ordered(s, i, false)
    {
      assert Ordered(s, i, stable);
    }
  }

  /** The root leaves before everything else. */
  lemma {:induction false} RootFirst(s: seq<Entry>, i: nat, stable: bool)
    requires HeapOrder(s, stable) && 0 < i < |s|
    ensures Precedes(s[0], s[i], stable)
  {
    assert Ordered(s, i, stable);
    if Parent(i) == 0 {
    } else {
      RootFirst(s, Parent(i), stable);
    }
  }

  /** The root has the highest value, and in a stable heap it is what a stable priority list gives out next. */
  lemma RootIsBest(s: seq<Entry>, contents: seq<Entry>, stable: bool) returns (k: nat)
    requires s != [] && HeapOrder(s, stable) && Sorted(contents) && multiset(s) == multiset(contents)
    ensures Highest(contents, k) && contents[k] == s[0]
    ensures stable ==> k == BestIndex(contents)
  {
    assert s[0] in multiset(contents);
    k :| k < |contents| && contents[k] == s[0];
    forall j: nat | j < |contents|
      ensures contents[j] == s[0] || Precedes(s[0], contents[j], stable)
    {
      assert contents[j] in multiset(s);
      var i: nat :| i < |s| && s[i] == contents[j];
      if i > 0 {
        RootFirst(s, i, stable);
      }
    }
    var b := BestIndex(contents);
    assert contents[b] == s[0] || Precedes(s[0], contents[b], stable);
  }

  /** Heap order holds except between `hole` and its parent. */
  ghost predicate OrderButUp(s: seq<Entry>, hole: nat, stable: bool) {
    && hole < |s|
    && (forall i: nat | 0 < i < |s| && i != hole :: Ordered(s, i, stable))
    && (forall i: nat | 0 < i < |s| && Parent(i) == hole && hole > 0 :: Precedes(s[Parent(hole)], s[i], stable))
  }

  /** Heap order holds except between `hole` and its children. */
  ghost predicate OrderButDown(s: seq<Entry>, hole: nat, stable: bool) {
    && (forall i: nat | 0 < i < |s| && Parent(i) != hole :: Ordered(s, i, stable))
    && (forall i: nat | 0 < i < |s| && Parent(i) == hole && hole > 0 :: Precedes(s[Parent(hole)], s[i], stable))
  }

  ghost function Swapped(s: seq<Entry>, a: nat, b: nat): (t: seq<Entry>)
    requires a < |s| && b < |s|
    ensures |t| == |s|
    ensures multiset(t) == multiset(s)
    ensures DistinctStamps(s) ==> DistinctStamps(t)
  {
    s[a := s[b]][b := s[a]]
  }

  lemma UpStep(s: seq<Entry>, hole: nat, stable: bool)
    requires OrderButUp(s, hole, stable) && 0 < hole && !Precedes(s[Parent(hole)], s[hole], stable) && DistinctStamps(s)
    ensures OrderButUp(Swapped(s, Parent(hole), hole), Parent(hole), stable)
  {
    var p := Parent(hole);
    var t := Swapped(s, p, hole);
    forall i: nat | 0 < i < |t| && i != p
      ensures Ordered(t, i, stable)
    {
      if i != hole { assert Ordered(s, i, stable); }
    }
    forall i: nat | 0 < i < |t| && Parent(i) == p && p > 0
      ensures Precedes(t[Parent(p)], t[i], stable)
    {
      assert Ordered(s, p, stable);
      if i != hole { assert Ordered(s, i, stable); }
    }
  }

  lemma UpDone(s: seq<Entry>, hole: nat, stable: bool)
    requires OrderButUp(s, hole, stable) && (hole == 0 || Precedes(s[Parent(hole)], s[hole], stable))
    ensures HeapOrder(s, stable)
  {
  }

  /** The entry at a does not leave after the one at b, if there is one. */
  ghost predicate NotAfter(s: seq<Entry>, a: nat, b: nat, stable: bool)
    requires a < |s|
  {
    b < |s| && b != a ==> Precedes(s[a], s[b], stable)
  }

  lemma DownStep(s: seq<Entry>, hole: nat, c: nat, stable: bool)
    requires OrderButDown(s, hole, stable) && c < |s| && (c == 2 * hole + 1 || c == 2 * hole + 2)
    requires Precedes(s[c], s[hole], stable)
    requires NotAfter(s, c, 2 * hole + 1, stable) && NotAfter(s, c, 2 * hole + 2, stable)
    ensures OrderButDown(Swapped(s, hole, c), c, stable)
  {
    var t := Swapped(s, hole, c);
    forall i: nat | 0 < i < |t| && Parent(i) != c
      ensures Ordered(t, i, stable)
    {
      if Parent(i) != hole { assert Ordered(s, i, stable); }
    }
    forall i: nat | 0 < i < |t| && Parent(i) == c
      ensures Precedes(t[Parent(c)], t[i], stable)
    {
      assert Ordered(s, i, stable);
    }
  }

  lemma DownDone(s: seq<Entry>, hole: nat, stable: bool)
    requires OrderButDown(s, hole, stable)
    requires hole < |s| ==> NotAfter(s, hole, 2 * hole + 1, stable) && NotAfter(s, hole, 2 * hole + 2, stable)
    ensures HeapOrder(s, stable)
  {
    forall i: nat | 0 < i < |s|
      ensures Ordered(s, i, stable)
    {
    }
  }

  // ---------------------------------------------------------------------------
  // The wrapped push counter
  // ---------------------------------------------------------------------------

  /** What the array holds for an entry: the stamp is cut to 32 bits. */
  function Stored(e: Entry): HeapNode {
    HeapNode(e.value, Cut(e.stamp), e.id)
  }

  /** All entries were pushed before. */
  ghost predicate Past(s: seq<Entry>, pushes: nat) {
    forall i: nat | i < |s| :: s[i].stamp < pushes
  }

  /** Every age fits in a word. */
  ghost predicate AgesFit(s: seq<Entry>, pushes: nat) {
    forall i: nat | i < |s| :: pushes < s[i].stamp + WORD
  }

  lemma PastAll(s: seq<Entry>, t: seq<Entry>, pushes: nat)
    requires Past(s, pushes) && multiset(t) <= multiset(s)
    ensures Past(t, pushes)
  {
    forall i: nat | i < |t|
      ensures t[i].stamp < pushes
    {
      assert t[i] in multiset(t);
      assert t[i] in s;
    }
  }

  lemma AgesFitAll(s: seq<Entry>, t: seq<Entry>, pushes: nat)
    requires AgesFit(s, pushes) && multiset(t) <= multiset(s)
    ensures AgesFit(t, pushes)
  {
    forall i: nat | i < |t|
      ensures pushes < t[i].stamp + WORD
    {
      assert t[i] in multiset(t);
      assert t[i] in s;
    }
  }

  /** The age of an entry as the program sees it. */
  function Age(e: Entry, pushes: nat): nat {
    Minus(Cut(pushes), Cut(e.stamp))
  }

  /** The program takes a rather than b. */
  predicate Wins(a: Entry, b: Entry, pushes: nat) {
    a.value > b.value || (a.value == b.value && Age(a, pushes) > Age(b, pushes))
  }

  lemma WinsIsBefore(a: Entry, b: Entry, pushes: nat)
    requires a.stamp < pushes < a.stamp + WORD && b.stamp < pushes < b.stamp + WORD
    ensures Wins(a, b, pushes) <==> Before(a, b)
  {
    AgeIsTrue(pushes, a.stamp);
    AgeIsTrue(pushes, b.stamp);
  }

  lemma AgeAfterOneTurn(e: Entry, pushes: nat)
    requires e.stamp + WORD <= pushes < e.stamp + 2 * WORD
    ensures Age(e, pushes) == pushes - e.stamp - WORD
  {
    AgeIsTrue(pushes - WORD, e.stamp);
    assert Cut(pushes - WORD) == Cut(pushes);
  }

  /**
   The older of two equals is taken first exactly until it is 2^32 pushes old, unless the younger
   one was pushed a whole turn of the counter later.
   */
  lemma OlderWinsIff(a: Entry, b: Entry, pushes: nat)
    requires a.value == b.value && a.stamp < b.stamp < pushes < b.stamp + WORD && pushes < a.stamp + 2 * WORD
    ensures Wins(a, b, pushes) <==> pushes < a.stamp + WORD || a.stamp + WORD < b.stamp
  {
    AgeIsTrue(pushes, b.stamp);
    if pushes < a.stamp + WORD {
      AgeIsTrue(pushes, a.stamp);
    } else {
      AgeAfterOneTurn(a, pushes);
    }
  }

  /** The first two pushes, 2^32 pushes later: the program takes the younger one. */
  lemma YoungerWins(value: int, a: nat, b: nat)
    ensures Wins(Entry(value, 1, b), Entry(value, 0, a), WORD)
    ensures Before(Entry(value, 0, a), Entry(value, 1, b))
  {
    AgeAfterOneTurn(Entry(value, 0, a), WORD);
    AgeIsTrue(WORD, 1);
  }

  /** A new entry at the bottom: only its own place can be wrong. */
  lemma AppendBottom(s: seq<Entry>, e: Entry, stable: bool)
    requires HeapOrder(s, stable) && DistinctStamps(s) && Past(s, e.stamp)
    ensures OrderButUp(s + [e], |s|, stable) && DistinctStamps(s + [e])
  {
    var up := s + [e];
    forall i: nat | 0 < i < |up| && i != |s|
      ensures Ordered(up, i, stable)
    {
      assert Ordered(s, i, stable);
    }
  }

  /** The new entry e has risen to `index`; the other entries of `base` are where they were or below. */
  ghost predicate Rising(base: seq<Entry>, e: Entry, up: seq<Entry>, index: nat, stable: bool) {
    && |up| == |base| + 1 && index < |up| && up[index] == e
    && DistinctStamps(up) && OrderButUp(up, index, stable)
    && multiset(up) == multiset(base) + multiset{e}
    && forall i: nat | i < |up| && i != index :: up[i].stamp < e.stamp
  }

  lemma RiseStart(base: seq<Entry>, e: Entry, stable: bool)
    requires HeapOrder(base, stable) && DistinctStamps(base) && Past(base, e.stamp)
    ensures Rising(base, e, base + [e], |base|, stable)
  {
    AppendBottom(base, e, stable);
  }

  lemma RiseStep(base: seq<Entry>, e: Entry, up: seq<Entry>, index: nat, stable: bool)
    requires Rising(base, e, up, index, stable) && index > 0 && e.value > up[Parent(index)].value
    ensures Rising(base, e, Swapped(up, Parent(index), index), Parent(index), stable)
  {
    UpStep(up, index, stable);
  }

  lemma RiseDone(base: seq<Entry>, e: Entry, up: seq<Entry>, index: nat, stable: bool)
    requires Rising(base, e, up, index, stable) && (index == 0 || e.value <= up[Parent(index)].value)
    ensures HeapOrder(up, stable)
  {
    UpDone(up, index, stable);
  }

  /** The last entry takes the root's place. */
  ghost function RootReplaced(s: seq<Entry>): (t: seq<Entry>)
    requires s != []
    ensures |t| == |s| - 1
    ensures forall i: nat | i < |t| :: t[i] == if i == 0 then s[|s| - 1] else s[i]
  {
    s[0 := s[|s| - 1]][..|s| - 1]
  }

  /** It leaves all entries but the old root, in heap order except below the root. */
  lemma RemoveRoot(s: seq<Entry>, stable: bool)
    requires s != [] && HeapOrder(s, stable) && DistinctStamps(s)
    ensures multiset(RootReplaced(s)) == multiset(s) - multiset{s[0]}
    ensures OrderButDown(RootReplaced(s), 0, stable) && DistinctStamps(RootReplaced(s))
  {
    var last := |s| - 1;
    var t := RootReplaced(s);
    if last == 0 {
      assert s == [s[0]];
    } else {
      assert s == [s[0]] + s[1..last] + [s[last]];
      assert t == [s[last]] + s[1..last];
    }
    forall i: nat | 0 < i < |t| && Parent(i) != 0
      ensures Ordered(t, i, stable)
    {
      assert Ordered(s, i, stable);
    }
  }

  /** What a pop takes, and what it leaves before the new root has sunk to its place. */
  lemma PopPlan(s: seq<Entry>, contents: seq<Entry>, pushes: nat, stable: bool) returns (k: nat)
    requires s != [] && HeapOrder(s, stable) && DistinctStamps(s)
    requires Sorted(contents) && multiset(s) == multiset(contents)
    requires stable ==> AgesFit(s, pushes)
    ensures Highest(contents, k) && contents[k] == s[0] && (stable ==> k == BestIndex(contents))
    ensures Sorted(Without(contents, k)) && multiset(RootReplaced(s)) == multiset(Without(contents, k))
    ensures DistinctStamps(RootReplaced(s)) && OrderButDown(RootReplaced(s), 0, stable)
    ensures stable ==> AgesFit(RootReplaced(s), pushes)
  {
    k := RootIsBest(s, contents, stable);
    RemoveRoot(s, stable);
    WithoutMultiset(contents, k);
    SortedWithout(contents, k);
    if stable {
      AgesFitAll(s, RootReplaced(s), pushes);
    }
  }

  /** What a push adds: the entry e at its place in `up`. */
  lemma PushPlan(s: seq<Entry>, contents: seq<Entry>, e: Entry, up: seq<Entry>, index: nat, stable: bool)
    requires Past(s, e.stamp) && Sorted(contents) && multiset(s) == multiset(contents)
    requires Rising(s, e, up, index, stable)
    ensures Past(up, e.stamp + 1) && Sorted(contents + [e]) && multiset(up) == multiset(contents + [e])
    ensures AgesFit(contents, e.stamp + 1) ==> AgesFit(up, e.stamp + 1)
  {
    PastAll(s, contents, e.stamp);
    PastAll(contents + [e], up, e.stamp + 1);
    if AgesFit(contents, e.stamp + 1) {
      AgesFitAll(contents + [e], up, e.stamp + 1);
    }
  }

  class MaxHeap {
    const heap: array<HeapNode>
    var size: nat
    var order: nat                 // 32-bit count of pushes

    ghost var pushes: nat          // the same count without wrap-around
    ghost var entries: seq<Entry>  // what each used slot of the array means
    ghost var contents: seq<Entry> // the same entries, oldest first

    ghost predicate Matches()
      reads this, heap
    {
      && size == |entries| <= heap.Length < WORD / 2
      && order == Cut(pushes) && Past(entries, pushes)
      && forall i: nat | i < size :: heap[i] == Stored(entries[i])
    }

    /** The array holds the contents with a highest value on top, however long the heap has run. */
    ghost predicate Valid()
      reads this, heap
    {
      && Matches()
      && HeapOrder(entries, false)
      && DistinctStamps(entries)
      && Sorted(contents)
      && multiset(entries) == multiset(contents)
      && |contents| == size
    }

    /** Equal values are in order of age as well: no waiting entry has seen 2^32 pushes. */
    ghost predicate Stable()
      reads this
    {
      AgesFit(entries, pushes) && HeapOrder(entries, true)
    }

    /** No waiting entry has seen a full 2^32 - 1 pushes, so one more push keeps all ages apart. */
    ghost predicate Young()
      reads this
    {
      AgesFit(contents, pushes + 1)
    }

    constructor Create(capacity: nat)
      requires capacity < WORD / 2
      ensures Valid() && Stable() && fresh(heap) && heap.Length == capacity
      ensures contents == [] && pushes == 0
    {
      heap := new HeapNode[capacity](_ => HeapNode(0, 0, 0));
      size, order := 0, 0;
      pushes, entries, contents := 0, [], [];
    }

    /** The slot with the larger value, or the one that looks older of two equals. */
    method Max(a: nat, b: nat) returns (r: nat)
      requires Matches() && a < size && b < size
      ensures r == if Wins(entries[a], entries[b], pushes) then a else b
    {
      var aValue, bValue := heap[a].value, heap[b].value;
      if aValue == bValue {
        var aAge := Minus(order, heap[a].order);
        var bAge := Minus(order, heap[b].order);
        if aAge > bAge {
          return a;
        }
        return b;
      }
      if aValue > bValue {
        return a;
      }
      return b;
    }

    method Swap(a: nat, b: nat)
      requires Matches() && a < size && b < size
      modifies heap, this`entries
      ensures Matches()
      ensures entries == Swapped(old(entries), a, b)
    {
      var temp := heap[a];
      heap[a] := heap[b];
      heap[b] := temp;
      entries := Swapped(entries, a, b);
    }

    /** Of two slots the one that wins may stay above the other. */
    lemma WinnerPrecedes(a: nat, b: nat, stable: bool)
      requires Matches() && DistinctStamps(entries) && a < size && b < size && a != b
      requires stable ==> AgesFit(entries, pushes)
      ensures if Wins(entries[a], entries[b], pushes) then Precedes(entries[a], entries[b], stable)
              else Precedes(entries[b], entries[a], stable)
    {
      if stable {
        WinsIsBefore(entries[a], entries[b], pushes);
      }
    }

    /** A node or whichever of its children leaves first. */
    method LargestOf(index: nat, ghost stable: bool) returns (largest: nat)
      requires Matches() && DistinctStamps(entries) && 2 * index + 1 < size
      requires stable ==> AgesFit(entries, pushes)
      ensures largest < size && (largest == index || largest == 2 * index + 1 || largest == 2 * index + 2)
      ensures NotAfter(entries, largest, index, stable)
      ensures NotAfter(entries, largest, 2 * index + 1, stable) && NotAfter(entries, largest, 2 * index + 2, stable)
    {
      var left, right := 2 * index + 1, 2 * index + 2;
      largest := index;
      WinnerPrecedes(left, largest, stable);
      largest := Max(left, largest);
      if right < size {
        WinnerPrecedes(right, largest, stable);
        largest := Max(right, largest);
      }
    }

    /** Sinks the root to its place. */
    method Heapify(ghost stable: bool)
      requires Matches() && DistinctStamps(entries) && OrderButDown(entries, 0, stable)
      requires stable ==> AgesFit(entries, pushes)
      modifies heap, this`entries
      ensures Matches() && DistinctStamps(entries) && HeapOrder(entries, stable)
      ensures stable ==> AgesFit(entries, pushes)
      ensures multiset(entries) == old(multiset(entries))
    {
      var index: nat := 0;
      var maxIter := size + 1;
      var maxCount := 0;
      while index <= size && maxCount < maxIter
        invariant index <= size && maxCount == 0 && maxIter == size + 1 && (index == 0 || index < size)
        invariant Matches() && DistinctStamps(entries) && OrderButDown(entries, index, stable)
        invariant multiset(entries) == old(multiset(entries))
        decreases size - index
      {
        var left, right := 2 * index + 1, 2 * index + 2;
        assert index < left < right < WORD;
        if left >= size {
          break;
        }
        if stable {
          AgesFitAll(old(entries), entries, pushes);
        }
        var largest := LargestOf(index, stable);
        if largest == index {
          break;
        }
        DownStep(entries, index, largest, stable);
        Swap(index, largest);
        index := largest;
      }
      assert maxCount < maxIter && index <= size;
      DownDone(entries, index, stable);
      if stable {
        AgesFitAll(old(entries), entries, pushes);
      }
    }

    /** Moves smaller parents down until the new entry's place is found; the place is left open. */
    method SiftUp(value: int, ghost e: Entry, ghost stable: bool) returns (index: nat, ghost up: seq<Entry>)
      requires Matches() && size < heap.Length && HeapOrder(entries, stable) && DistinctStamps(entries)
      requires e.value == value && e.stamp == pushes
      modifies heap
      ensures Rising(entries, e, up, index, stable) && HeapOrder(up, stable)
      ensures forall i: nat | i <= size && i != index :: heap[i] == Stored(up[i])
    {
      up := entries + [e];
      RiseStart(entries, e, stable);
      index := size;
      var maxIter := size + 1;
      var maxCount := 0;
      while index > 0 && maxCount < maxIter
        invariant index + maxCount <= size && maxIter == size + 1
        invariant Rising(entries, e, up, index, stable)
        invariant forall i: nat | i <= size && i != index :: heap[i] == Stored(up[i])
        decreases index
      {
        var parent := Parent(index);
        if value <= heap[parent].value {
          break;
        }
        heap[index] := heap[parent];
        RiseStep(entries, e, up, index, stable);
        up := Swapped(up, parent, index);
        index := parent;
        maxCount := maxCount + 1;
      }
      assert maxCount < maxIter && index <= size;
      RiseDone(entries, e, up, index, stable);
    }

    /** Writes the new entry into its place. */
    method Place(value: int, id: nat, index: nat, ghost up: seq<Entry>)
      requires |up| == size + 1 <= heap.Length < WORD / 2 && index <= size && order == Cut(pushes)
      requires up[index] == Entry(value, pushes, id) && Past(up, pushes + 1)
      requires forall i: nat | i <= size && i != index :: heap[i] == Stored(up[i])
      modifies heap, `size, `order, `entries, `pushes
      ensures Matches() && entries == up && pushes == old(pushes) + 1
    {
      heap[index] := HeapNode(value, order, id);
      size := size + 1;
      CutNext(pushes);
      order := Cut(order + 1);
      entries := up;
      pushes := pushes + 1;
    }

    /** Adds an entry behind all others of its value; refuses when the heap is full. */
    method Push(value: int, id: nat) returns (ok: bool)
      requires Valid()
      modifies this, heap
      ensures Valid()
      ensures ok <==> old(size) < heap.Length
      ensures ok ==> contents == old(contents) + [Entry(value, old(pushes), id)] && pushes == old(pushes) + 1
      ensures !ok ==> contents == old(contents) && pushes == old(pushes)
      ensures old(Stable()) && (ok ==> old(Young())) ==> Stable()
    {
      if size == heap.Length {
        return false;
      }
      ghost var e, stable := Entry(value, pushes, id), Stable() && Young();
      var index; ghost var up;
      index, up := SiftUp(value, e, stable);
      StableIsOrdered(up, stable);
      PushPlan(entries, contents, e, up, index, stable);
      contents := contents + [e];
      Place(value, id, index, up);
      return true;
    }

    /** Moves the last node to the root. */
    method DropRoot()
      requires Matches() && size > 0
      modifies heap, `size, `entries
      ensures Matches() && entries == RootReplaced(old(entries))
    {
      var index := size - 1;
      heap[0] := heap[index];
      size := size - 1;
      entries := RootReplaced(entries);
    }

    /** Removes and returns an entry of the highest value, in a stable heap the oldest of them. */
    method Pop() returns (ok: bool, value: int, id: nat, ghost k: nat)
      requires Valid()
      modifies this, heap
      ensures Valid() && pushes == old(pushes)
      ensures ok <==> old(contents) != []
      ensures ok ==>
                && Highest(old(contents), k) && contents == Without(old(contents), k)
                && value == old(contents)[k].value && id == old(contents)[k].id
      ensures !ok ==> contents == old(contents)
      ensures old(Stable()) ==> Stable() && (ok ==> k == BestIndex(old(contents)))
    {
      if size == 0 {
        return false, 0, 0, 0;
      }
      ghost var stable := Stable();
      k := PopPlan(entries, contents, pushes, stable);
      value, id := heap[0].value, heap[0].id;
      ok := true;
      DropRoot();
      contents := Without(contents, k);
      Heapify(stable);
      StableIsOrdered(entries, stable);
    }
  }
}
