/**
 The modular checksum of the file delivery protocol: the sum of the file's big-endian
 four-byte words, taken over chunks that need not be aligned.
 */
module CfdpChecksum {
  import opened MachineWords
  import opened Sequences

  lemma CutSum(a: nat, b: nat)
    ensures Cut(Cut(a) + b) == Cut(a + b)
  {
    var q, m := a / 0x1_0000_0000, (Cut(a) + b) / 0x1_0000_0000;
    QuotientIs(a + b, q + m, Cut(Cut(a) + b));
  }

  lemma QuotientIs(n: nat, q: nat, r: nat)
    requires n == 0x1_0000_0000 * q + r && r < WORD
    ensures Cut(n) == r
  {
    assert 0x1_0000_0000 * (n / 0x1_0000_0000 - q) == r - n % 0x1_0000_0000;
  }

  /** What a byte at this place in its word adds, the first place being the highest. */
  function Addend(b: Byte, place: nat): nat
    requires place < 4
  {
    var n: nat := b;
    match place
    case 0 => 0x100_0000 * n
    case 1 => 0x1_0000 * n
    case 2 => 0x100 * n
    case _ => n
  }

  /** The place in its word of the byte at this offset in the file. */
  function Place(offset: nat): (p: nat)
    ensures p < 4
  {
    offset % 4
  }

  lemma PlaceOfSum(offset: nat, position: nat, k: nat)
    requires Place(offset) == Place(position)
    ensures Place(offset + k) == Place(position + k)
  {
  }

  /** Cutting the position to 32 and to 8 bits does not change the place. */
  lemma PlaceOfTruncated(offset: nat)
    ensures Place(Cut(offset) % 256) == Place(offset)
  {
    var a, b := offset / 0x1_0000_0000, Cut(offset) / 256;
    assert offset == 0x1_0000_0000 * a + 256 * b + Cut(offset) % 256;
    assert offset == 4 * (0x4000_0000 * a + 64 * b) + Cut(offset) % 256;
  }

  lemma AfterFirstWord(offset: nat)
    ensures Place(offset + (4 - Place(offset))) == 0
  {
  }

  lemma PlaceOfNext(offset: nat)
    ensures Place(offset + 1) == if Place(offset) == 3 then 0 else Place(offset) + 1
  {
  }

  /** The sum of the bytes' weights, the first being at this offset in the file. */
  ghost function Sum(data: seq<Byte>, offset: nat): nat {
    if data == [] then 0
    else Sum(data[..|data| - 1], offset) + Addend(data[|data| - 1], Place(offset + |data| - 1))
  }

  lemma {:induction false} SumOfBoth(a: seq<Byte>, b: seq<Byte>, offset: nat, end: nat)
    requires end == offset + |a|
    ensures Sum(a + b, offset) == Sum(a, offset) + Sum(b, end)
  {
    if b == [] {
      assert a + b == a;
    } else {
      SumOfBoth(a, b[..|b| - 1], offset, end);
      assert (a + b)[..|a + b| - 1] == a + b[..|b| - 1];
    }
  }

  lemma SumOfPrefix(data: seq<Byte>, offset: nat, k: nat)
    requires k < |data|
    ensures Sum(data[..k + 1], offset) == Sum(data[..k], offset) + Addend(data[k], Place(offset + k))
  {
    assert data[..k + 1][..k] == data[..k];
  }

  /** One more byte, counted at any place that its offset comes down to. */
  lemma OneMoreByte(start: nat, word: seq<Byte>, offset: nat, k: nat)
    requires k < |word|
    ensures Cut(Cut(start + Sum(word[..k], offset)) + Addend(word[k], Place(offset + k)))
         == Cut(start + Sum(word[..k + 1], offset))
  {
    SumOfPrefix(word, offset, k);
    CutSum(start + Sum(word[..k], offset), Addend(word[k], Place(offset + k)));
  }

  lemma {:induction false} SumByPlace(data: seq<Byte>, offset: nat, place: nat)
    requires Place(offset) == Place(place)
    ensures Sum(data, offset) == Sum(data, place)
  {
    if data == [] {
    } else {
      SumByPlace(data[..|data| - 1], offset, place);
      PlaceOfSum(offset, place, |data| - 1);
    }
  }

  /** How many bytes of a chunk come before its first aligned word. */
  ghost function Head(n: nat, offset: nat): (first: nat)
    ensures first <= n
  {
    if Place(offset) == 0 then 0 else if n < 4 - Place(offset) then n else 4 - Place(offset)
  }

  /** The place behind the last whole word leaves room for one more in 32 bits. */
  ghost predicate Ends(n: nat, first: nat)
    requires first <= n
  {
    first + 4 * ((n - first) / 4) + 4 < WORD
  }

  /** The program has a finite run for this chunk. */
  ghost predicate Terminates(data: seq<Byte>, offset: nat) {
    offset < WORD && |data| < WORD && Ends(|data|, Head(|data|, offset))
  }

  /** The 32-bit index of the loop over the aligned words after k turns. */
  ghost function IndexAt(first: nat, k: nat): nat {
    if k == 0 then first else Cut(IndexAt(first, k - 1) + 4)
  }

  /** The test of that loop fails after k turns. */
  ghost predicate LeavesAt(n: nat, first: nat, k: nat) {
    Cut(IndexAt(first, k) + 4) > n
  }

  /** The index is at a word boundary of the file, or at the end. */
  ghost predicate InStep(n: nat, offset: nat, index: nat) {
    && Head(n, offset) <= index <= n && Place(index) == Place(Head(n, offset))
    && (index == n || Place(offset + index) == 0)
  }

  lemma HeadInStep(n: nat, offset: nat)
    ensures InStep(n, offset, Head(n, offset))
  {
    AfterFirstWord(offset);
  }

  lemma NoWrap(n: nat, first: nat, index: nat)
    requires first <= index <= n && Place(index) == Place(first) && Ends(n, first)
    ensures Cut(index + 4) == index + 4
  {
    assert index - first == 4 * ((index - first) / 4);
  }

  lemma SamePlaceAfterWord(i: nat)
    ensures Place(i + 4) == Place(i)
  {
  }

  lemma NextInStep(n: nat, offset: nat, index: nat)
    requires InStep(n, offset, index) && Ends(n, Head(n, offset))
    ensures Cut(index + 4) == index + 4
    ensures index + 4 <= n ==> Place(offset + index) == 0 && InStep(n, offset, index + 4)
  {
    NoWrap(n, Head(n, offset), index);
    if index + 4 <= n {
      SamePlaceAfterWord(index);
      SamePlaceAfterWord(offset + index);
    }
  }

  lemma {:induction false} IndexBeforeWrap(first: nat, k: nat)
    requires first + 4 * k < WORD
    ensures IndexAt(first, k) == first + 4 * k
  {
    if k == 0 {
    } else {
      IndexBeforeWrap(first, k - 1);
    }
  }

  lemma SamePlace(i: nat)
    ensures Place(Cut(i + 4)) == Place(i)
  {
    var q := (i + 4) / 0x1_0000_0000;
    assert i + 4 == 4 * (0x4000_0000 * q) + Cut(i + 4);
  }

  lemma {:induction false} IndexKeepsPlace(first: nat, k: nat)
    requires first < WORD
    ensures IndexAt(first, k) < WORD && Place(IndexAt(first, k)) == Place(first)
  {
    if k == 0 {
    } else {
      IndexKeepsPlace(first, k - 1);
      SamePlace(IndexAt(first, k - 1));
    }
  }

  /** The loop ends if and only if it does before the index wraps around. */
  lemma LoopEndsIff(n: nat, first: nat)
    requires first <= n < WORD
    ensures (exists k: nat :: LeavesAt(n, first, k)) <==> Ends(n, first)
  {
    var turns := (n - first) / 4;
    if Ends(n, first) {
      IndexBeforeWrap(first, turns);
      assert LeavesAt(n, first, turns);
    } else {
      forall k: nat ensures !LeavesAt(n, first, k) {
        IndexKeepsPlace(first, k + 1);
      }
    }
  }

  class Checksum {
    var value: nat

    ghost predicate Valid()
      reads this
    {
      value < WORD
    }

    constructor Create(value: nat)
      requires value < WORD
      ensures Valid() && this.value == value
    {
      this.value := value;
    }

    method AddByteAtOffset(b: Byte, offset: nat)
      requires Valid() && offset < 4
      modifies this
      ensures Valid() && value == Cut(old(value) + Addend(b, offset))
    {
      var addend := Addend(b, offset);
      value := Cut(value + addend);
    }

    /** The first k bytes of the word have been added. */
    ghost predicate Added(start: nat, word: seq<Byte>, position: nat, k: nat)
      requires k <= |word|
      reads this
    {
      Valid() && value == Cut(start + Sum(word[..k], position))
    }

    method AddByteOf(ghost start: nat, word: seq<Byte>, ghost position: nat, k: nat, offset: nat)
      requires k < |word| && Added(start, word, position, k) && offset == Place(position + k)
      modifies this
      ensures Added(start, word, position, k + 1)
    {
      OneMoreByte(start, word, position, k);
      AddByteAtOffset(word[k], offset);
    }

    method AddWordAligned(word: seq<Byte>)
      requires Valid() && |word| == 4
      modifies this
      ensures Valid() && value == Cut(old(value) + Sum(word, 0))
    {
      for i := 0 to 4
        invariant Added(old(value), word, 0, i)
      {
        AddByteOf(old(value), word, 0, i, i);
      }
      assert word[..4] == word;
    }

    method AddWordUnaligned(word: seq<Byte>, position: Byte)
      requires Valid() && |word| < 4
      modifies this
      ensures Valid() && value == Cut(old(value) + Sum(word, position))
    {
      var offset := Place(position);
      for i := 0 to |word|
        invariant Added(old(value), word, position, i) && offset == Place(position + i)
      {
        AddByteOf(old(value), word, position, i, offset);
        PlaceOfNext(position + i);
        offset := offset + 1;
        if offset == 4 {
          offset := 0;
        }
      }
      assert word[..|word|] == word;
    }

    /** What update has done when it has taken the first `index` bytes. */
    ghost predicate Taken(start: nat, data: seq<Byte>, offset: nat, index: nat)
      reads this
    {
      Valid() && index <= |data| && value == Cut(start + Sum(data[..index], offset))
    }

    method TakeUnaligned(ghost start: nat, data: seq<Byte>, offset: nat, index: nat, length: nat)
      requires offset < WORD && length < 4 && index + length <= |data|
      requires Taken(start, data, offset, index)
      modifies this
      ensures Taken(start, data, offset, index + length)
    {
      var word, position := data[index..index + length], Cut(offset + index) % 256;
      PlaceOfTruncated(offset + index);
      SumByPlace(word, offset + index, position);
      SumOfBoth(data[..index], word, offset, offset + index);
      assert data[..index + length] == data[..index] + word;
      CutSum(start + Sum(data[..index], offset), Sum(word, position));
      AddWordUnaligned(word, position);
    }

    method TakeAligned(ghost start: nat, data: seq<Byte>, offset: nat, index: nat)
      requires index + 4 <= |data| && Place(offset + index) == 0
      requires Taken(start, data, offset, index)
      modifies this
      ensures Taken(start, data, offset, index + 4)
    {
      var word := data[index..index + 4];
      SumByPlace(word, offset + index, 0);
      SumOfBoth(data[..index], word, offset, offset + index);
      assert data[..index + 4] == data[..index] + word;
      CutSum(start + Sum(data[..index], offset), Sum(word, 0));
      AddWordAligned(word);
    }

    /** The bytes before the first aligned word. */
    method TakeHead(data: seq<Byte>, offset: nat) returns (index: nat)
      requires Valid() && offset < WORD
      modifies this
      ensures Taken(old(value), data, offset, index) && InStep(|data|, offset, index)
    {
      index := 0;
      HeadInStep(|data|, offset);
      var offsetMod4 := Place(offset);
      if offsetMod4 != 0 {
        var wordLength := if |data| < 4 - offsetMod4 then |data| else 4 - offsetMod4;
        TakeUnaligned(value, data, offset, index, wordLength);
        index := index + wordLength;
      }
    }

    /** The aligned words. */
    method TakeWords(ghost start: nat, data: seq<Byte>, offset: nat, from: nat) returns (index: nat)
      requires Taken(start, data, offset, from) && InStep(|data|, offset, from)
      requires Ends(|data|, Head(|data|, offset))
      modifies this
      ensures Taken(start, data, offset, index) && |data| < index + 4
    {
      index := from;
      while Cut(index + 4) <= |data|
        invariant Taken(start, data, offset, index) && InStep(|data|, offset, index)
        decreases |data| - index
      {
        NextInStep(|data|, offset, index);
        TakeAligned(start, data, offset, index);
        index := index + 4;
      }
      NextInStep(|data|, offset, index);
    }

    /** Adds the bytes of a chunk that starts at `offset`, for all lengths for which the loop ends. */
    method Update(data: seq<Byte>, offset: nat)
      requires Valid() && Terminates(data, offset)
      modifies this
      ensures Valid() && value == Cut(old(value) + Sum(data, offset))
    {
      ghost var start := value;
      var index := TakeHead(data, offset);
      index := TakeWords(start, data, offset, index);
      if index < |data| {
        TakeUnaligned(start, data, offset, index, |data| - index);
      }
      assert data[..|data|] == data;
    }

    /** Chunk after chunk. */
    method UpdateAll(chunks: seq<Chunk>)
      requires Valid() && forall k: nat | k < |chunks| :: Terminates(chunks[k].data, chunks[k].offset)
      modifies this
      ensures Valid() && value == Updated(old(value), chunks)
    {
      for k := 0 to |chunks|
        invariant Valid() && Updated(value, chunks[k..]) == Updated(old(value), chunks)
      {
        assert chunks[k..][1..] == chunks[k + 1..];
        Update(chunks[k].data, chunks[k].offset);
      }
    }

    /**
     However a file is cut into chunks and whatever their order, the object ends up with the
     checksum of the whole file.
     */
    method UpdateWithFile(ghost file: seq<Byte>, ghost lengths: seq<nat>, received: seq<Chunk>)
      requires Valid() && value == 0 && |file| <= 0xFFFF_FFFB
      requires multiset(received) == multiset(Chunks(file, 0, lengths))
      modifies this
      ensures Valid() && value == FileChecksum(file)
    {
      ChunksTerminate(file, 0, lengths);
      forall k: nat | k < |received|
        ensures Terminates(received[k].data, received[k].offset)
      {
        assert received[k] in multiset(received);
        assert received[k] in Chunks(file, 0, lengths);
      }
      UpdateAll(received);
      ChunkingAndOrderDoNotMatter(file, lengths, received);
    }
  }

  // ---------------------------------------------------------------------------
  // Files in chunks
  // ---------------------------------------------------------------------------

  /** The byte at position k of a file filled up with zeros. */
  ghost function At(file: seq<Byte>, k: nat): Byte {
    if k < |file| then file[k] else 0
  }

  /** The n-th big-endian word of the file. */
  ghost function Word(file: seq<Byte>, n: nat): nat {
    0x100_0000 * At(file, 4 * n) as nat + 0x1_0000 * At(file, 4 * n + 1) as nat + 0x100 * At(file, 4 * n + 2) as nat
    + At(file, 4 * n + 3) as nat
  }

  /** The sum of the first n words. */
  ghost function Words(file: seq<Byte>, n: nat): nat {
    if n == 0 then 0 else Words(file, n - 1) + Word(file, n - 1)
  }

  /** The sum of the first k bytes of the filled-up file, by their weights. */
  ghost function FirstBytes(file: seq<Byte>, k: nat): nat {
    if k == 0 then 0 else FirstBytes(file, k - 1) + Addend(At(file, k - 1), Place(k - 1))
  }

  lemma FourMore(file: seq<Byte>, k: nat)
    requires Place(k) == 0
    ensures FirstBytes(file, k + 4)
         == FirstBytes(file, k)
          + 0x100_0000 * At(file, k) as nat + 0x1_0000 * At(file, k + 1) as nat + 0x100 * At(file, k + 2) as nat
          + At(file, k + 3) as nat
  {
    PlaceOfNext(k);
    PlaceOfNext(k + 1);
    PlaceOfNext(k + 2);
    assert FirstBytes(file, k + 1) == FirstBytes(file, k) + Addend(At(file, k), 0);
    assert FirstBytes(file, k + 2) == FirstBytes(file, k + 1) + Addend(At(file, k + 1), 1);
    assert FirstBytes(file, k + 3) == FirstBytes(file, k + 2) + Addend(At(file, k + 2), 2);
  }

  /** Word by word or byte by byte, the sum is the same. */
  lemma {:induction false} WordsAreBytes(file: seq<Byte>, n: nat)
    ensures Words(file, n) == FirstBytes(file, 4 * n)
  {
    if n == 0 {
    } else {
      WordsAreBytes(file, n - 1);
      FourMore(file, 4 * (n - 1));
    }
  }

  lemma {:induction false} PaddingAddsNothing(file: seq<Byte>, k: nat)
    requires k >= |file|
    ensures FirstBytes(file, k) == FirstBytes(file, |file|)
  {
    if k == |file| {
    } else {
      PaddingAddsNothing(file, k - 1);
    }
  }

  lemma {:induction false} FirstBytesAreSum(file: seq<Byte>, k: nat)
    requires k <= |file|
    ensures FirstBytes(file, k) == Sum(file[..k], 0)
  {
    if k == 0 {
    } else {
      FirstBytesAreSum(file, k - 1);
      SumOfPrefix(file, 0, k - 1);
    }
  }

  /** The checksum procedure of section 4.2 of CCSDS 727.0-B-4, for a null start value. */
  ghost function FileChecksum(file: seq<Byte>): nat {
    Cut(Words(file, (|file| + 3) / 4))
  }

  datatype Chunk = Chunk(offset: nat, data: seq<Byte>)

  /** The file from `offset` on, cut into chunks of these lengths. */
  ghost function Chunks(file: seq<Byte>, offset: nat, lengths: seq<nat>): seq<Chunk>
    requires offset <= |file|
    decreases |lengths|
  {
    if lengths == [] then [Chunk(offset, file[offset..])]
    else
      var end := if offset + lengths[0] <= |file| then offset + lengths[0] else |file|;
      [Chunk(offset, file[offset..end])] + Chunks(file, end, lengths[1..])
  }

  lemma {:induction false} ChunksTerminate(file: seq<Byte>, offset: nat, lengths: seq<nat>)
    requires offset <= |file| <= 0xFFFF_FFFB
    ensures forall c | c in Chunks(file, offset, lengths) :: Terminates(c.data, c.offset)
    decreases |lengths|
  {
    if lengths != [] {
      var end := if offset + lengths[0] <= |file| then offset + lengths[0] else |file|;
      ChunksTerminate(file, end, lengths[1..]);
    }
  }

  /** The value after an update with each of these chunks in turn. */
  ghost function Updated(value: nat, chunks: seq<Chunk>): nat
    decreases |chunks|
  {
    if chunks == [] then value else Updated(Cut(value + Sum(chunks[0].data, chunks[0].offset)), chunks[1..])
  }

  ghost function Total(chunks: seq<Chunk>): nat
    decreases |chunks|
  {
    if chunks == [] then 0 else Sum(chunks[0].data, chunks[0].offset) + Total(chunks[1..])
  }

  lemma {:induction false} UpdatedIsTotal(value: nat, chunks: seq<Chunk>)
    requires value < WORD
    ensures Updated(value, chunks) == Cut(value + Total(chunks))
    decreases |chunks|
  {
    if chunks == [] {
    } else {
      var s := Sum(chunks[0].data, chunks[0].offset);
      UpdatedIsTotal(Cut(value + s), chunks[1..]);
      CutSum(value + s, Total(chunks[1..]));
    }
  }

  lemma TotalOfOneMore(first: Chunk, rest: seq<Chunk>)
    ensures rest == [] ==> [first] + rest == [first]
    ensures Total([first] + rest) == Sum(first.data, first.offset) + Total(rest)
  {
    assert ([first] + rest)[1..] == rest;
  }

  lemma {:induction false} TotalOfChunks(file: seq<Byte>, offset: nat, lengths: seq<nat>)
    requires offset <= |file|
    ensures Total(Chunks(file, offset, lengths)) == Sum(file[offset..], offset)
    decreases |lengths|
  {
    if lengths == [] {
      TotalOfOneMore(Chunk(offset, file[offset..]), []);
    } else {
      var end := if offset + lengths[0] <= |file| then offset + lengths[0] else |file|;
      var first, rest := Chunk(offset, file[offset..end]), Chunks(file, end, lengths[1..]);
      TotalOfChunks(file, end, lengths[1..]);
      SplitAt(file, offset, end);
      SumOfBoth(first.data, file[end..], offset, end);
      TotalOfOneMore(first, rest);
    }
  }

  lemma {:induction false} TotalWithout(chunks: seq<Chunk>, k: nat)
    requires k < |chunks|
    ensures Total(chunks) == Sum(chunks[k].data, chunks[k].offset) + Total(chunks[..k] + chunks[k + 1..])
    decreases |chunks|
  {
    if k == 0 {
      assert chunks[..0] + chunks[1..] == chunks[1..];
    } else {
      TotalWithout(chunks[1..], k - 1);
      var rest := chunks[..k] + chunks[k + 1..];
      assert rest[1..] == chunks[1..][..k - 1] + chunks[1..][k..];
    }
  }

  lemma {:induction false} TotalOfPermuted(a: seq<Chunk>, b: seq<Chunk>)
    requires multiset(a) == multiset(b)
    ensures Total(a) == Total(b)
    decreases |a|
  {
    if a == [] {
      assert |multiset(b)| == 0;
    } else {
      assert a[0] in multiset(b);
      var k: nat :| k < |b| && b[k] == a[0];
      var rest := b[..k] + b[k + 1..];
      assert a == [a[0]] + a[1..];
      assert b == b[..k] + [b[k]] + b[k + 1..];
      assert multiset(a[1..]) == multiset(a) - multiset{a[0]};
      assert multiset(rest) == multiset(b) - multiset{b[k]};
      TotalOfPermuted(a[1..], rest);
      TotalWithout(b, k);
    }
  }

  lemma TotalOfWhole(file: seq<Byte>, lengths: seq<nat>)
    ensures Total(Chunks(file, 0, lengths)) == Sum(file, 0)
  {
    TotalOfChunks(file, 0, lengths);
    assert file[0..] == file;
  }

  lemma TotalOfReceived(file: seq<Byte>, lengths: seq<nat>, received: seq<Chunk>)
    requires multiset(received) == multiset(Chunks(file, 0, lengths))
    ensures Total(received) == Sum(file, 0)
  {
    TotalOfPermuted(received, Chunks(file, 0, lengths));
    TotalOfWhole(file, lengths);
  }

  lemma WholeFile(file: seq<Byte>)
    ensures FileChecksum(file) == Cut(Sum(file, 0))
  {
    var n := (|file| + 3) / 4;
    assert 4 * n >= |file|;
    WordsAreBytes(file, n);
    PaddingAddsNothing(file, 4 * n);
    FirstBytesAreSum(file, |file|);
    assert file[..|file|] == file;
  }

  /** However a file is cut into chunks and whatever their order, the checksum is that of the whole file. */
  lemma ChunkingAndOrderDoNotMatter(file: seq<Byte>, lengths: seq<nat>, received: seq<Chunk>)
    requires multiset(received) == multiset(Chunks(file, 0, lengths))
    ensures Updated(0, received) == FileChecksum(file)
  {
    UpdatedIsTotal(0, received);
    TotalOfReceived(file, lengths, received);
    WholeFile(file);
  }
}
