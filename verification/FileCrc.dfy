/**
 Reading files in pieces: the retry loop around the kernel's read, and the two file checksums
 that go through it chunk by chunk.  The byte step of the checksum is a parameter.
 */
module FileCrc {
  import opened MachineWords

  type CrcStep = (nat, Byte) -> nat

  const INITIAL_SEED: nat := 0xFFFF_FFFF
  const MAX_ITERATIONS: nat := 0xFFFF_FFFF
  const MAX_OFFSET: nat := 0x7FFF_FFFF

  /** What the kernel does with one read; `eager` says how much of what it could give it gives. */
  datatype Answer = Interrupted | Failed | Gives(eager: nat)

  datatype Status = OP_OK | NOT_OPENED | BAD_SIZE | OTHER_ERROR

  /** The checksum step over all bytes, first to last. */
  ghost function Fold(step: CrcStep, seed: nat, data: seq<Byte>): nat {
    if data == [] then seed else step(Fold(step, seed, data[..|data| - 1]), data[|data| - 1])
  }

  /** The register after k bytes. */
  ghost predicate Registers(step: CrcStep, seed: nat, data: seq<Byte>, r: seq<nat>) {
    |r| == |data| + 1 && r[0] == seed && forall k: nat | k < |data| :: r[k + 1] == step(r[k], data[k])
  }

  /** The fold is the last register of a chain that starts with the seed and takes one byte at a time, first to last. */
  lemma {:induction false} FoldIsLastRegister(step: CrcStep, seed: nat, data: seq<Byte>, r: seq<nat>)
    requires Registers(step, seed, data, r)
    ensures Fold(step, seed, data) == r[|data|]
  {
    if data == [] {
    } else {
      var n := |data| - 1;
      FoldIsLastRegister(step, seed, data[..n], r[..n + 1]);
      assert r[n + 1] == step(r[n], data[n]);
    }
  }

  lemma {:induction false} FoldOfBoth(step: CrcStep, seed: nat, a: seq<Byte>, b: seq<Byte>)
    ensures Fold(step, seed, a + b) == Fold(step, Fold(step, seed, a), b)
  {
    if b == [] {
      assert a + b == a;
    } else {
      FoldOfBoth(step, seed, a, b[..|b| - 1]);
      assert (a + b)[..|a + b| - 1] == a + b[..|b| - 1];
    }
  }

  /** Interrupted reads among the n calls from number `from` on. */
  ghost function Interruptions(answers: nat -> Answer, from: nat, n: nat): nat
    decreases n
  {
    if n == 0 then 0
    else Interruptions(answers, from, n - 1) + if answers(from + n - 1).Interrupted? then 1 else 0
  }

  ghost predicate AllInterrupted(answers: nat -> Answer, from: nat, n: nat) {
    forall k: nat | from <= k < from + n :: answers(k).Interrupted?
  }

  /** The outcome of a read; the retry limit is an assertion in the source. */
  datatype Outcome = Done(status: Status, bytes: seq<Byte>) | Asserts

  datatype Reply = Signal | Error | Got(bytes: seq<Byte>)

  /**
   The checksum methods return a status and store the checksum.  The retry limit is an assertion,
   and niceCRC32 adds up its place in the file in a signed 32-bit variable, which can overflow.
   */
  datatype CrcOutcome = CrcDone(status: Status, crc: nat) | CrcAsserts | Overflows

  /** A file that does not change, and a kernel that answers as it likes. */
  class File {
    const content: seq<Byte>
    const answers: nat -> Answer
    const opens: nat -> bool
    const seeks: nat -> bool
    var isOpen: bool
    var pos: nat
    var calls: nat
    var tries: nat

    constructor Create(content: seq<Byte>, answers: nat -> Answer, opens: nat -> bool, seeks: nat -> bool)
      ensures this.content == content && this.answers == answers && this.opens == opens && this.seeks == seeks
    {
      this.content, this.answers, this.opens, this.seeks := content, answers, opens, seeks;
      isOpen, pos, calls, tries := false, 0, 0, 0;
    }

    method Open() returns (status: Status)
      modifies `isOpen, `pos, `tries
      ensures tries == old(tries) + 1
      ensures if opens(old(tries)) then status == OP_OK && isOpen && pos == 0 else status == OTHER_ERROR
    {
      tries := tries + 1;
      if !opens(tries - 1) {
        return OTHER_ERROR;
      }
      isOpen, pos := true, 0;
      return OP_OK;
    }

    method Close()
      modifies `isOpen
      ensures !isOpen
    {
      isOpen := false;
    }

    method Seek(offset: nat) returns (status: Status)
      modifies `pos, `tries
      ensures tries == old(tries) + 1
      ensures if seeks(old(tries)) then status == OP_OK && pos == offset else status == OTHER_ERROR
    {
      tries := tries + 1;
      if !seeks(tries - 1) {
        return OTHER_ERROR;
      }
      pos := offset;
      return OP_OK;
    }

    /** The kernel's read: at least one of the next n bytes, unless there are none. */
    method KernelRead(n: nat) returns (r: Reply)
      requires n > 0
      modifies `pos, `calls
      ensures calls == old(calls) + 1
      ensures r.Signal? <==> answers(old(calls)).Interrupted?
      ensures r.Error? <==> answers(old(calls)).Failed?
      ensures !r.Got? ==> pos == old(pos)
      ensures r.Got? ==>
                && |r.bytes| <= n && pos == old(pos) + |r.bytes|
                && (r.bytes == [] <==> old(pos) >= |content|)
                && (r.bytes != [] ==> pos <= |content| && r.bytes == content[old(pos)..pos])
    {
      var a := answers(calls);
      calls := calls + 1;
      if a.Interrupted? {
        return Signal;
      } else if a.Failed? {
        return Error;
      } else if pos >= |content| {
        return Got([]);
      }
      var most := if n <= |content| - pos then n else |content| - pos;
      var m := if a.eager + 1 <= most then a.eager + 1 else most;
      r := Got(content[pos..pos + m]);
      pos := pos + m;
    }

    /** The bytes from `start` up to the present position have been read. */
    ghost predicate Read(start: nat, bytes: seq<Byte>)
      reads this
    {
      pos == start + |bytes| && (bytes != [] ==> pos <= |content| && bytes == content[start..pos])
    }

    /**
     File::read.  What is returned without error is the file from the old position on.  Without
     `waitForFull` it is empty exactly at the end of the file, and the retry assertion fires exactly
     if the first 2 * size kernel reads are interrupted.  With it, a short result means the end of
     the file, and the assertion can only fire after two interruptions.
     */
    method ReadBytes(size: nat, waitForFull: bool) returns (o: Outcome)
      modifies `pos, `calls
      ensures calls >= old(calls)
      ensures o.Done? && o.status == OP_OK ==> |o.bytes| <= size && Read(old(pos), o.bytes)
      ensures o.Done? && o.status == OP_OK && !waitForFull ==> (o.bytes == [] <==> old(pos) >= |content|)
      ensures o.Done? && o.status == OP_OK && waitForFull && |o.bytes| < size ==> pos >= |content|
      ensures o.Done? && o.status == NOT_OPENED <==> !isOpen
      ensures o.Done? && o.status == BAD_SIZE <==> isOpen && size == 0
      ensures o.Done? && o.status == OTHER_ERROR ==>
                exists k: nat :: old(calls) <= k < calls && answers(k).Failed?
      ensures o.Asserts? ==> Interruptions(answers, old(calls), calls - old(calls)) >= 2
      ensures isOpen && size > 0 && !waitForFull ==>
                (o.Asserts? <==> AllInterrupted(answers, old(calls), 2 * size))
    {
      if !isOpen {
        return Done(NOT_OPENED, []);
      }
      if size == 0 {
        return Done(BAD_SIZE, []);
      }
      var acc: seq<Byte> := [];
      var status := OP_OK;
      var maxIters: int := 2 * size;
      ghost var partials := 0;
      while maxIters > 0
        invariant calls >= old(calls) && |acc| < size && Read(old(pos), acc)
        invariant partials <= |acc| && (acc != [] ==> waitForFull)
        invariant maxIters == 2 * size - 2 * partials - Interruptions(answers, old(calls), calls - old(calls))
        invariant partials == 0 ==> AllInterrupted(answers, old(calls), calls - old(calls))
        invariant !waitForFull ==> partials == 0 && calls - old(calls) == 2 * size - maxIters
        decreases maxIters
      {
        var reply := KernelRead(size - |acc|);
        match reply
        case Signal =>
          maxIters := maxIters - 1;
          continue;
        case Error =>
          return Done(OTHER_ERROR, []);
        case Got(bytes) =>
          assert acc + bytes == acc || (acc + bytes != [] && acc + bytes == content[old(pos)..pos]);
          if |bytes| == size - |acc| {
            return Done(OP_OK, acc + bytes);
          } else if bytes == [] {
            return Done(OP_OK, acc);
          }
          acc := acc + bytes;
          if !waitForFull {
            return Done(OP_OK, acc);
          }
          partials := partials + 1;
          maxIters := maxIters - 1;
          maxIters := maxIters - 1;
      }
      return Asserts;
    }

    /** No read, open or seek fails, and no read for this many bytes is interrupted to its limit. */
    ghost predicate NoFaults(size: nat) {
      && (forall k: nat :: !answers(k).Failed?)
      && (forall k: nat :: !AllInterrupted(answers, k, 2 * size))
      && (forall k: nat :: opens(k)) && (forall k: nat :: seeks(k))
    }

    /** The inner loop of both checksums. */
    method Digest(step: CrcStep, seed: nat, chunk: seq<Byte>) returns (r: nat)
      ensures r == Fold(step, seed, chunk)
    {
      r := seed;
      for ci := 0 to |chunk|
        invariant r == Fold(step, seed, chunk[..ci])
      {
        assert chunk[..ci + 1][..ci] == chunk[..ci];
        r := step(r, chunk[ci]);
      }
      assert chunk[..|chunk|] == chunk;
    }

    lemma ReadIsNext(start: nat, bytes: seq<Byte>, step: CrcStep, seed: nat)
      requires Read(start, bytes) && bytes != []
      ensures start + |bytes| <= |content|
      ensures Fold(step, Fold(step, seed, content[..start]), bytes) == Fold(step, seed, content[..start + |bytes|])
    {
      FoldOfBoth(step, seed, content[..start], bytes);
      assert content[..start] + bytes == content[..start + |bytes|];
    }

    /** One turn of niceCRC32: opens the file, finds the place, reads a chunk and closes the file. */
    method ReadChunk(offset: nat) returns (r: Outcome)
      modifies `isOpen, `pos, `calls, `tries
      ensures r.Done? && r.status == OP_OK ==> Read(offset, r.bytes) && (r.bytes == [] <==> offset >= |content|)
      ensures NoFaults(4096) ==> r.Done? && r.status == OP_OK
    {
      var status := Open();
      if status != OP_OK {
        return Done(status, []);
      }
      status := Seek(offset);
      if status != OP_OK {
        return Done(status, []);
      }
      r := ReadBytes(4096, false);
      Close();
    }

    /** niceCRC32: opens, seeks, reads a chunk and closes, over and over. */
    method NiceCRC32(step: CrcStep) returns (o: CrcOutcome)
      modifies `isOpen, `pos, `calls, `tries
      ensures o.CrcDone? ==> o.crc == if o.status == OP_OK then Fold(step, 0xFFFF_FFFF, content) else 0
      ensures o.CrcDone? && o.status == OP_OK && content == [] ==> o.crc == 0xFFFF_FFFF
      ensures o.CrcDone? && o.status == OP_OK ==> |content| <= 0x7FFF_FFFF
      ensures o.Overflows? ==> |content| > 0x7FFF_FFFF
      ensures NoFaults(4096) ==> o.Overflows? || (o.CrcDone? && o.status == OP_OK)
    {
      var offset, seed, i := 0, INITIAL_SEED, 0;
      o := CrcDone(OTHER_ERROR, 0);
      assert content[..0] == [];
      while i < MAX_ITERATIONS
        invariant o == CrcDone(OTHER_ERROR, 0) && i <= offset <= |content| && offset <= MAX_OFFSET
        invariant seed == Fold(step, INITIAL_SEED, content[..offset])
        decreases MAX_ITERATIONS - i
      {
        var r := ReadChunk(offset);
        if r.Asserts? {
          return CrcAsserts;
        }
        if r.status == OP_OK && r.bytes != [] {
          ReadIsNext(offset, r.bytes, step, INITIAL_SEED);
          offset := offset + |r.bytes|;
          if offset > MAX_OFFSET {
            return Overflows;
          }
          seed := Digest(step, seed, r.bytes);
        } else if r.status == OP_OK {
          assert content[..offset] == content;
          return CrcDone(OP_OK, seed);
        } else {
          return CrcDone(r.status, 0);
        }
        i := i + 1;
      }
    }

    /** calculateCRC32: reads chunk by chunk from the start of the open file. */
    method CalculateCRC32(step: CrcStep) returns (o: CrcOutcome)
      modifies `pos, `calls, `tries
      ensures !o.Overflows?
      ensures o.CrcDone? ==> o.crc == if o.status == OP_OK then Fold(step, 0xFFFF_FFFF, content) else 0
      ensures o.CrcDone? && o.status == OP_OK && content == [] ==> o.crc == 0xFFFF_FFFF
      ensures isOpen && NoFaults(32) && |content| < 0xFFFF_FFFF ==> o.CrcDone? && o.status == OP_OK
    {
      if !isOpen {
        return CrcDone(NOT_OPENED, 0);
      }
      var status := Seek(0);
      if status != OP_OK {
        return CrcDone(status, 0);
      }
      var seed, numIters := INITIAL_SEED, 0;
      assert content[..0] == [];
      while numIters < MAX_ITERATIONS
        invariant numIters <= pos <= |content|
        invariant seed == Fold(step, INITIAL_SEED, content[..pos])
        decreases MAX_ITERATIONS - numIters
      {
        numIters := numIters + 1;
        ghost var start := pos;
        var r := ReadBytes(32, false);
        if r.Asserts? {
          return CrcAsserts;
        }
        if r.status != OP_OK {
          return CrcDone(r.status, 0);
        }
        if r.bytes == [] {
          assert content[..start] == content;
          return CrcDone(OP_OK, seed);
        }
        ReadIsNext(start, r.bytes, step, INITIAL_SEED);
        seed := Digest(step, seed, r.bytes);
      }
      return CrcDone(OTHER_ERROR, 0);
    }
  }
}
