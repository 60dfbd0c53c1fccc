/** Machine numbers: bytes, the messages made of them, and counts that are kept in 32-bit variables. */
module MachineWords {
  type Byte = n: nat | n < 256

  type Message = seq<Byte>

  /** One more than the largest 32-bit number. */
  const WORD: nat := 0x1_0000_0000

  /** What is left of a count in a 32-bit variable. */
  function Cut(n: nat): (r: nat)
    ensures r < WORD
  {
    n % 0x1_0000_0000
  }

  lemma CutNext(n: nat)
    ensures Cut(Cut(n) + 1) == Cut(n + 1)
  {
  }

  /** Subtraction of 32-bit unsigned numbers. */
  function Minus(a: nat, b: nat): (r: nat)
    requires a < WORD && b < WORD
    ensures r < WORD
  {
    (a - b) % 0x1_0000_0000
  }

  /** The wrapped difference of two counts is the true one exactly as long as that fits in a word. */
  lemma AgeIsTrue(now: nat, before: nat)
    requires before <= now
    ensures Minus(Cut(now), Cut(before)) == now - before <==> now < before + WORD
  {
  }
}
