/**
 The CRC of the motor controller's packets: a 16-bit register fed most significant bit
 first, polynomial 0x1021, start value 0, and the packet framing built on it.  Words are
 natural numbers, as in the program's language; binary digits are lists, the highest first.
 */
module Crc16 {
  import opened MachineWords
  import opened Sequences

  /** Exclusive or of two numbers, digit by digit. */
  function Xor(a: nat, b: nat): nat {
    if a == 0 && b == 0 then 0 else 2 * Xor(a / 2, b / 2) + if a % 2 != b % 2 then 1 else 0
  }

  /** One turn of the inner loop: shift, subtract the polynomial if a digit falls out, mask. */
  function Shift(crc: nat): nat {
    (if crc / 0x8000 % 2 == 1 then Xor(2 * crc, 0x1021) else 2 * crc) % 0x1_0000
  }

  ghost function ShiftBy(crc: nat, n: nat): nat {
    if n == 0 then crc else Shift(ShiftBy(crc, n - 1))
  }

  function Load(b: nat): nat {
    0x100 * b
  }

  /** The checksum of the data, by the byte loop. */
  ghost function Crc(data: seq<Byte>): nat {
    if data == [] then 0 else ShiftBy(Xor(Crc(data[..|data| - 1]), Load(data[|data| - 1])), 8)
  }

  method Compute(data: seq<Byte>) returns (crc: nat)
    ensures crc == Crc(data)
  {
    crc := 0;
    for k := 0 to |data|
      invariant crc == Crc(data[..k])
    {
      assert data[..k + 1][..k] == data[..k];
      crc := Xor(crc, Load(data[k]));
      ghost var r := crc;
      for n := 0 to 8
        invariant crc == ShiftBy(r, n)
      {
        if crc / 0x8000 % 2 == 1 {
          crc := Xor(2 * crc, 0x1021);
        } else {
          crc := 2 * crc;
        }
        crc := crc % 0x1_0000;
      }
    }
    assert data[..|data|] == data;
  }

  // ---------------------------------------------------------------------------
  // Binary digits
  // ---------------------------------------------------------------------------

  type Bits = seq<bool>

  ghost function Pow2(k: nat): nat {
    if k == 0 then 1 else 2 * Pow2(k - 1)
  }

  /** The k lowest binary digits of n. */
  ghost function Digits(n: nat, k: nat): (r: Bits)
    ensures |r| == k
  {
    if k == 0 then [] else Digits(n / 2, k - 1) + [n % 2 == 1]
  }

  ghost function Plus(s: Bits, t: Bits): (r: Bits)
    requires |s| == |t|
    ensures |r| == |s| && forall k: nat {:trigger r[k]} | k < |s| :: r[k] == (s[k] != t[k])
  {
    if s == [] then [] else Plus(s[..|s| - 1], t[..|s| - 1]) + [s[|s| - 1] != t[|s| - 1]]
  }

  lemma PlusMore(s: Bits, t: Bits, a: bool, b: bool)
    requires |s| == |t|
    ensures Plus(s + [a], t + [b]) == Plus(s, t) + [a != b]
  {
  }

  ghost function Zeros(k: nat): (r: Bits)
    ensures |r| == k && forall j: nat | j < k :: !r[j]
  {
    if k == 0 then [] else Zeros(k - 1) + [false]
  }

  lemma {:induction false} DigitsOfZero(k: nat)
    ensures Digits(0, k) == Zeros(k)
  {
    if k == 0 {
    } else {
      DigitsOfZero(k - 1);
    }
  }

  lemma XorHalves(a: nat, b: nat)
    ensures Xor(a, b) / 2 == Xor(a / 2, b / 2) && (Xor(a, b) % 2 == 1) == ((a % 2 == 1) != (b % 2 == 1))
  {
  }

  lemma {:induction false} DigitsOfXor(a: nat, b: nat, k: nat)
    ensures Digits(Xor(a, b), k) == Plus(Digits(a, k), Digits(b, k))
    decreases k
  {
    if k == 0 {
    } else {
      DigitsOfXor(a / 2, b / 2, k - 1);
      XorHalves(a, b);
      PlusMore(Digits(a / 2, k - 1), Digits(b / 2, k - 1), a % 2 == 1, b % 2 == 1);
    }
  }

  lemma {:induction false} DigitsInjective(a: nat, b: nat, k: nat)
    requires a < Pow2(k) && b < Pow2(k) && Digits(a, k) == Digits(b, k)
    ensures a == b
    decreases k
  {
    if k == 0 {
    } else {
      assert Digits(a, k)[..k - 1] == Digits(a / 2, k - 1) && Digits(b, k)[..k - 1] == Digits(b / 2, k - 1);
      assert Digits(a, k)[k - 1] == (a % 2 == 1) && Digits(b, k)[k - 1] == (b % 2 == 1);
      DigitsInjective(a / 2, b / 2, k - 1);
    }
  }

  lemma {:induction false} DropTop(n: nat, k: nat)
    ensures Digits(n, k + 1)[1..] == Digits(n, k)
    decreases k
  {
    if k == 0 {
    } else {
      DropTop(n / 2, k - 1);
    }
  }

  lemma {:induction false} TopDigit(n: nat, k: nat)
    requires n < Pow2(k + 1)
    ensures Digits(n, k + 1)[0] == (n >= Pow2(k))
    decreases k
  {
    if k > 0 {
      TopDigit(n / 2, k - 1);
    } else {
      assert Digits(n / 2, 0) == [];
    }
  }

  /** Digits beyond the k lowest do not show in them. */
  lemma {:induction false} DigitsMasked(n: nat, k: nat)
    requires n >= Pow2(k)
    ensures Digits(n - Pow2(k), k) == Digits(n, k)
    decreases k
  {
    if k == 0 {
    } else {
      DigitsMasked(n / 2, k - 1);
      assert (n - Pow2(k)) / 2 == n / 2 - Pow2(k - 1);
    }
  }

  lemma {:induction false} XorBound(a: nat, b: nat, k: nat)
    requires a < Pow2(k) && b < Pow2(k)
    ensures Xor(a, b) < Pow2(k)
    decreases k
  {
    if k == 0 {
    } else {
      XorBound(a / 2, b / 2, k - 1);
    }
  }

  lemma Pow2s()
    ensures Pow2(8) == 0x100 && Pow2(15) == 0x8000 && Pow2(16) == 0x1_0000 && Pow2(17) == 0x2_0000
  {
  }

  // ---------------------------------------------------------------------------
  // The register as a list of digits, of any width
  // ---------------------------------------------------------------------------

  ghost function Poly(width: nat, b: bool): (r: Bits)
    ensures |r| == width
  {
    if b then Digits(0x1021, width) else Zeros(width)
  }

  /** Feeding one digit of data. */
  ghost function Feed(r: Bits, b: bool): (t: Bits)
    requires r != []
    ensures |t| == |r|
  {
    Plus(r[1..] + [false], Poly(|r|, r[0] != b))
  }

  ghost function FeedAll(r: Bits, data: Bits): (t: Bits)
    requires r != []
    ensures |t| == |r|
  {
    if data == [] then r else Feed(FeedAll(r, data[..|data| - 1]), data[|data| - 1])
  }

  lemma FeedOneMore(r: Bits, s: Bits, b: bool)
    requires r != []
    ensures FeedAll(r, s + [b]) == Feed(FeedAll(r, s), b)
  {
    assert (s + [b])[..|s|] == s;
  }

  lemma LastSplits(s: Bits, t: Bits)
    requires t != []
    ensures s + t == (s + t[..|t| - 1]) + [t[|t| - 1]]
  {
  }

  lemma FeedPrefix(r: Bits, w: Bits, n: nat)
    requires r != [] && 0 < n <= |w|
    ensures FeedAll(r, w[..n]) == Feed(FeedAll(r, w[..n - 1]), w[n - 1])
  {
    assert w[..n] == w[..n - 1] + [w[n - 1]];
    FeedOneMore(r, w[..n - 1], w[n - 1]);
  }

  lemma {:induction false} FeedAllOfBoth(r: Bits, s: Bits, t: Bits)
    requires r != []
    ensures FeedAll(r, s + t) == FeedAll(FeedAll(r, s), t)
  {
    if t == [] {
      assert s + t == s;
    } else {
      FeedAllOfBoth(r, s, t[..|t| - 1]);
      LastSplits(s, t);
      FeedOneMore(r, s + t[..|t| - 1], t[|t| - 1]);
    }
  }

  lemma AllZero(d: Bits)
    requires forall k: nat | k < |d| :: !d[k]
    ensures d == Zeros(|d|)
  {
  }

  lemma PlusZero(s: Bits)
    ensures Plus(s, Zeros(|s|)) == s
  {
  }

  lemma ZeroPlus(s: Bits)
    ensures Plus(Zeros(|s|), s) == s
  {
  }

  lemma PlusZeroIff(s: Bits, t: Bits)
    requires |s| == |t|
    ensures Plus(s, t) == Zeros(|s|) <==> s == t
  {
    var p := Plus(s, t);
    if p == Zeros(|s|) {
      assert forall k: nat | k < |s| :: p[k] == (s[k] != t[k]);
    }
  }

  lemma TurnLoaded(r: Bits, w: Bits)
    requires |r| == |w| > 0
    ensures Feed(Plus(r, w), false) == Plus(Feed(r, w[0]), w[1..] + [false])
  {
  }

  /** A word with its n highest digits shifted out. */
  ghost function Rest(w: Bits, n: nat): (r: Bits)
    requires n <= |w|
    ensures |r| == |w| && forall k: nat {:trigger r[k]} | k < |w| :: r[k] == (k + n < |w| && w[k + n])
  {
    w[n..] + Zeros(n)
  }

  lemma RestMore(w: Bits, n: nat)
    requires 0 < n <= |w|
    ensures Rest(w, n - 1)[1..] + [false] == Rest(w, n) && Rest(w, n - 1)[0] == w[n - 1]
  {
    var r := Rest(w, n - 1);
    assert r[0] == w[n - 1];
  }

  lemma RestEnds(w: Bits)
    ensures Rest(w, 0) == w && Rest(w, |w|) == Zeros(|w|) && w[..0] == [] && w[..|w|] == w
  {
  }

  /** Adding a word to the register and shifting is feeding the word's digits, as far as they are shifted out. */
  lemma {:induction false} LoadIsFeed(r: Bits, w: Bits, n: nat)
    requires n <= |w| == |r| && r != []
    ensures FeedAll(Plus(r, w), Zeros(n)) == Plus(FeedAll(r, w[..n]), Rest(w, n))
  {
    if n == 0 {
      RestEnds(w);
    } else {
      LoadIsFeed(r, w, n - 1);
      FeedOneMore(Plus(r, w), Zeros(n - 1), false);
      FeedPrefix(r, w, n);
      RestMore(w, n);
      TurnLoaded(FeedAll(r, w[..n - 1]), Rest(w, n - 1));
    }
  }

  lemma PolyLinear(width: nat, a: bool, b: bool)
    ensures Poly(width, a != b) == Plus(Poly(width, a), Poly(width, b))
  {
  }

  lemma PlusRegroup(x: Bits, y: Bits, p: Bits, q: Bits)
    requires |x| == |y| == |p| == |q|
    ensures Plus(Plus(x, y), Plus(p, q)) == Plus(Plus(x, p), Plus(y, q))
  {
  }

  lemma FeedLinear(r: Bits, s: Bits, a: bool, b: bool)
    requires |r| == |s| > 0
    ensures Feed(Plus(r, s), a != b) == Plus(Feed(r, a), Feed(s, b))
  {
    var x, y, p, q := r[1..] + [false], s[1..] + [false], Poly(|r|, r[0] != a), Poly(|r|, s[0] != b);
    assert Plus(r, s)[1..] + [false] == Plus(x, y);
    PolyLinear(|r|, r[0] != a, s[0] != b);
    PlusRegroup(x, y, p, q);
  }

  lemma {:induction false} FeedAllLinear(r: Bits, s: Bits, x: Bits, y: Bits)
    requires |x| == |y| && |r| == |s| > 0
    ensures FeedAll(Plus(r, s), Plus(x, y)) == Plus(FeedAll(r, x), FeedAll(s, y))
  {
    if x == [] {
    } else {
      var n := |x| - 1;
      FeedAllLinear(r, s, x[..n], y[..n]);
      FeedLinear(FeedAll(r, x[..n]), FeedAll(s, y[..n]), x[n], y[n]);
      assert Plus(x, y)[..n] == Plus(x[..n], y[..n]);
    }
  }

  /** A digit that falls out of the register shows in the lowest digit, as the polynomial is odd. */
  lemma TurnEnds(r: Bits)
    requires r != []
    ensures var t := Feed(r, false); t[|r| - 1] == r[0]
  {
    assert Digits(0x1021, |r|)[|r| - 1] == (0x1021 % 2 == 1);
  }

  lemma TurnInjective(r: Bits, s: Bits)
    requires |r| == |s| > 0 && Feed(r, false) == Feed(s, false)
    ensures r == s
  {
    TurnEnds(r);
    TurnEnds(s);
    var f, g := Feed(r, false), Feed(s, false);
    forall k: nat | k < |r|
      ensures r[k] == s[k]
    {
      if k > 0 {
        assert f[k - 1] == g[k - 1];
      }
    }
  }

  lemma ZeroStays(width: nat)
    requires width > 0
    ensures Feed(Zeros(width), false) == Zeros(width)
  {
    AllZero(Zeros(width)[1..] + [false]);
    PlusZero(Zeros(width));
  }

  /** Turns without data change no register to zero but the zero register. */
  lemma {:induction false} TurnsZeroIff(r: Bits, n: nat)
    requires r != []
    ensures FeedAll(r, Zeros(n)) == Zeros(|r|) <==> r == Zeros(|r|)
  {
    if n == 0 {
    } else {
      TurnsZeroIff(r, n - 1);
      FeedOneMore(r, Zeros(n - 1), false);
      ZeroStays(|r|);
      if FeedAll(r, Zeros(n)) == Zeros(|r|) {
        TurnInjective(FeedAll(r, Zeros(n - 1)), Zeros(|r|));
      }
    }
  }

  /** Feeding a register a word leaves it zero exactly when the word is what the register holds. */
  lemma WordCancelsIff(r: Bits, w: Bits)
    requires |r| == |w| > 0
    ensures FeedAll(r, w) == Zeros(|r|) <==> r == w
  {
    LoadIsFeed(r, w, |w|);
    RestEnds(w);
    PlusZero(FeedAll(r, w));
    TurnsZeroIff(Plus(r, w), |w|);
    PlusZeroIff(r, w);
  }

  /** Some digits, filled up with zeros. */
  ghost function Padded(e: Bits, width: nat): (w: Bits)
    requires |e| <= width
    ensures |w| == width && forall k: nat {:trigger w[k]} | k < width :: w[k] == (k < |e| && e[k])
  {
    e + Zeros(width - |e|)
  }

  lemma PaddedParts(e: Bits, width: nat)
    requires |e| <= width
    ensures Padded(e, width)[..|e|] == e && Rest(Padded(e, width), |e|) == Zeros(width)
  {
  }

  lemma PaddedZeroIff(e: Bits, width: nat)
    requires |e| <= width
    ensures Padded(e, width) == Zeros(width) <==> e == Zeros(|e|)
  {
    var w := Padded(e, width);
    assert forall k: nat | k < |e| :: w[k] == e[k];
  }

  /** At most as many digits as the register is wide leave the zero register zero exactly when they are all zero. */
  lemma ShortFeed(e: Bits, width: nat)
    requires |e| <= width && width > 0
    ensures FeedAll(Zeros(width), e) == Zeros(width) <==> e == Zeros(|e|)
  {
    var w := Padded(e, width);
    PaddedParts(e, width);
    PaddedZeroIff(e, width);
    LoadIsFeed(Zeros(width), w, |e|);
    PlusZero(FeedAll(Zeros(width), e));
    ZeroPlus(w);
    TurnsZeroIff(w, |e|);
  }

  lemma LeadingZeros(k: nat, e: Bits, width: nat)
    requires width > 0
    ensures FeedAll(Zeros(width), Zeros(k) + e) == FeedAll(Zeros(width), e)
  {
    FeedAllOfBoth(Zeros(width), Zeros(k), e);
    TurnsZeroIff(Zeros(width), k);
  }

  /** A run of zeros, no more digits than the register is wide, and zeros again. */
  lemma MiddleDoesNotCancel(d: Bits, k: nat, e: Bits, m: nat, width: nat)
    requires |e| <= width && width > 0 && d == Zeros(k) + e + Zeros(m)
    ensures FeedAll(Zeros(width), d) == Zeros(width) <==> e == Zeros(|e|)
  {
    LeadingZeros(k, e, width);
    FeedAllOfBoth(Zeros(width), Zeros(k) + e, Zeros(m));
    ShortFeed(e, width);
    TurnsZeroIff(FeedAll(Zeros(width), e), m);
  }

  lemma SplitInThree(d: Bits, k: nat, l: nat)
    requires k <= l <= |d|
    ensures d == d[..k] + d[k..l] + d[l..]
  {
  }

  /** Digits that are all zero outside a part, and in the part. */
  lemma ZeroOutside(d: Bits, k: nat, l: nat)
    requires k <= l <= |d| && forall i: nat | i < |d| && !(k <= i < l) :: !d[i]
    ensures d[..k] == Zeros(k) && d[l..] == Zeros(|d| - l)
    ensures d[k..l] == Zeros(l - k) ==> d == Zeros(|d|)
  {
    AllZero(d[..k]);
    AllZero(d[l..]);
    if d[k..l] == Zeros(l - k) {
      forall i: nat | i < |d|
        ensures !d[i]
      {
        if k <= i < l {
          assert d[i] == d[k..l][i - k];
        }
      }
      AllZero(d);
    }
  }

  /** A difference of digits that lies in as many consecutive places as the register is wide does not cancel. */
  lemma BurstDoesNotCancel(d: Bits, k: nat, width: nat)
    requires k <= |d| && width > 0 && forall i: nat | i < |d| && !(k <= i < k + width) :: !d[i]
    ensures FeedAll(Zeros(width), d) == Zeros(width) ==> d == Zeros(|d|)
  {
    var l := if k + width < |d| then k + width else |d|;
    ZeroOutside(d, k, l);
    SplitInThree(d, k, l);
    MiddleDoesNotCancel(d, k, d[k..l], |d| - l, width);
  }

  // ---------------------------------------------------------------------------
  // The checksum in terms of digits
  // ---------------------------------------------------------------------------

  lemma Doubled(crc: nat, width: nat)
    requires width > 0
    ensures Digits(2 * crc, width) == Digits(crc, width)[1..] + [false]
  {
    DropTop(crc, width - 1);
    assert Digits(2 * crc, width) == Digits(crc, width - 1) + [false];
  }

  lemma Masked(n: nat, m: nat, width: nat)
    requires Pow2(width) == 0x1_0000 && n < 0x2_0000 && m == n % 0x1_0000
    ensures Digits(m, width) == Digits(n, width)
  {
    if n >= 0x1_0000 {
      DigitsMasked(n, width);
      assert m == n - 0x1_0000;
    }
  }

  ghost predicate WordWidth(width: nat) {
    width > 0 && Pow2(width) == 0x1_0000 && Pow2(width - 1) == 0x8000 && Pow2(width + 1) == 0x2_0000
  }

  lemma ShiftOut(crc: nat, sum: nat, width: nat)
    requires 0x8000 <= crc < 0x1_0000 && WordWidth(width) && sum == Xor(2 * crc, 0x1021)
    ensures Digits(sum % 0x1_0000, width) == Plus(Digits(2 * crc, width), Digits(0x1021, width))
  {
    XorBound(2 * crc, 0x1021, width + 1);
    Masked(sum, sum % 0x1_0000, width);
    DigitsOfXor(2 * crc, 0x1021, width);
  }

  lemma ShiftIsFeed(crc: nat, width: nat)
    requires crc < 0x1_0000 && WordWidth(width)
    ensures Shift(crc) < 0x1_0000 && Digits(Shift(crc), width) == Feed(Digits(crc, width), false)
  {
    TopDigit(crc, width - 1);
    Doubled(crc, width);
    if crc >= 0x8000 {
      assert crc / 0x8000 % 2 == 1;
      ShiftOut(crc, Xor(2 * crc, 0x1021), width);
    } else {
      assert crc / 0x8000 % 2 == 0;
      Masked(2 * crc, 2 * crc % 0x1_0000, width);
      PlusZero(Digits(2 * crc, width));
    }
  }

  lemma {:induction false} ShiftByIsFeed(crc: nat, n: nat, width: nat)
    requires crc < 0x1_0000 && WordWidth(width)
    ensures ShiftBy(crc, n) < 0x1_0000 && Digits(ShiftBy(crc, n), width) == FeedAll(Digits(crc, width), Zeros(n))
  {
    if n == 0 {
    } else {
      ShiftByIsFeed(crc, n - 1, width);
      ShiftIsFeed(ShiftBy(crc, n - 1), width);
      FeedOneMore(Digits(crc, width), Zeros(n - 1), false);
    }
  }

  /** All digits of the data, the highest of each byte first. */
  ghost function BitsOf(data: seq<Byte>): (r: Bits)
    ensures |r| == 8 * |data|
  {
    if data == [] then [] else BitsOf(data[..|data| - 1]) + Digits(data[|data| - 1], 8)
  }

  lemma {:induction false} HighLow(hi: nat, lo: nat, n: nat, k: nat, width: nat)
    requires lo < Pow2(k) && n == hi * Pow2(k) + lo
    ensures Digits(n, width + k) == Digits(hi, width) + Digits(lo, k)
    decreases k
  {
    if k == 0 {
    } else {
      assert hi * Pow2(k) == 2 * (hi * Pow2(k - 1));
      assert n / 2 == hi * Pow2(k - 1) + lo / 2 && n % 2 == lo % 2;
      HighLow(hi, lo / 2, n / 2, k - 1, width);
    }
  }

  /** A width and a byte width, kept as variables. */
  ghost predicate Widths(width: nat, byte: nat) {
    WordWidth(width) && width == 2 * byte && Pow2(byte) == 0x100 && byte == 8
  }

  lemma TheWidths()
    ensures Widths(16, 8)
  {
    Pow2s();
  }

  lemma LoadedDigits(b: Byte, width: nat, byte: nat)
    requires Widths(width, byte)
    ensures Load(b) < 0x1_0000 && Digits(Load(b), width) == Digits(b, byte) + Zeros(byte)
  {
    HighLow(b, 0, Load(b), byte, byte);
    DigitsOfZero(byte);
  }

  lemma LoadedParts(w: Bits, s: Bits)
    requires w == s + Zeros(|s|)
    ensures w[..|s|] == s && Rest(w, |s|) == Zeros(|w|)
  {
  }

  lemma ByteStep(r: nat, b: Byte, width: nat, byte: nat)
    requires r < 0x1_0000 && Widths(width, byte)
    ensures var c := ShiftBy(Xor(r, Load(b)), byte);
            c < 0x1_0000 && Digits(c, width) == FeedAll(Digits(r, width), Digits(b, byte))
  {
    LoadedDigits(b, width, byte);
    XorBound(r, Load(b), width);
    ShiftByIsFeed(Xor(r, Load(b)), byte, width);
    DigitsOfXor(r, Load(b), width);
    LoadIsFeed(Digits(r, width), Digits(Load(b), width), byte);
    LoadedParts(Digits(Load(b), width), Digits(b, byte));
    PlusZero(FeedAll(Digits(r, width), Digits(b, byte)));
  }

  /** The byte loop feeds the digits of the data one by one. */
  lemma {:induction false} CrcIsFeed(data: seq<Byte>, width: nat, byte: nat)
    requires Widths(width, byte)
    ensures Crc(data) < 0x1_0000 && Digits(Crc(data), width) == FeedAll(Zeros(width), BitsOf(data))
  {
    if data == [] {
      DigitsOfZero(width);
    } else {
      var before, b := data[..|data| - 1], data[|data| - 1];
      CrcIsFeed(before, width, byte);
      ByteStep(Crc(before), b, width, byte);
      FeedAllOfBoth(Zeros(width), BitsOf(before), Digits(b, byte));
    }
  }

  // ---------------------------------------------------------------------------
  // Linearity
  // ---------------------------------------------------------------------------

  ghost function XorBytes(x: seq<Byte>, y: seq<Byte>): (r: seq<nat>)
    requires |x| == |y|
    ensures |r| == |x| && forall k: nat | k < |x| :: r[k] == Xor(x[k], y[k])
  {
    if x == [] then [] else XorBytes(x[..|x| - 1], y[..|y| - 1]) + [Xor(x[|x| - 1], y[|y| - 1])]
  }

  lemma PlusOfBoth(s: Bits, t: Bits, u: Bits, v: Bits)
    requires |s| == |t| && |u| == |v|
    ensures Plus(s, t) + Plus(u, v) == Plus(s + u, t + v)
  {
  }

  lemma {:induction false} BitsOfXor(x: seq<Byte>, y: seq<Byte>, sum: seq<Byte>, byte: nat)
    requires |x| == |y| && sum == XorBytes(x, y) && byte == 8
    ensures BitsOf(sum) == Plus(BitsOf(x), BitsOf(y))
  {
    if x == [] {
    } else {
      var n := |x| - 1;
      assert sum[..n] == XorBytes(x[..n], y[..n]);
      BitsOfXor(x[..n], y[..n], sum[..n], byte);
      DigitsOfXor(x[n], y[n], byte);
      PlusOfBoth(BitsOf(x[..n]), BitsOf(y[..n]), Digits(x[n], byte), Digits(y[n], byte));
    }
  }

  /** Feeding the difference of two messages gives the difference of their checksums. */
  lemma FeedOfSum(x: seq<Byte>, y: seq<Byte>, width: nat, byte: nat)
    requires |x| == |y| && Widths(width, byte)
    ensures FeedAll(Zeros(width), Plus(BitsOf(x), BitsOf(y))) == Plus(Digits(Crc(x), width), Digits(Crc(y), width))
  {
    CrcIsFeed(x, width, byte);
    CrcIsFeed(y, width, byte);
    FeedAllLinear(Zeros(width), Zeros(width), BitsOf(x), BitsOf(y));
    PlusZero(Zeros(width));
  }

  /** The checksum of a sum is the sum of the checksums. */
  lemma CrcLinear(x: seq<Byte>, y: seq<Byte>, sum: seq<Byte>)
    requires |x| == |y| && sum == XorBytes(x, y)
    ensures Crc(sum) == Xor(Crc(x), Crc(y))
  {
    var width, byte := 16, 8;
    TheWidths();
    FeedOfSum(x, y, width, byte);
    BitsOfXor(x, y, sum, byte);
    CrcIsFeed(sum, width, byte);
    CrcIsFeed(x, width, byte);
    CrcIsFeed(y, width, byte);
    DigitsOfXor(Crc(x), Crc(y), width);
    XorBound(Crc(x), Crc(y), width);
    DigitsInjective(Crc(sum), Xor(Crc(x), Crc(y)), width);
  }

  // ---------------------------------------------------------------------------
  // Detection
  // ---------------------------------------------------------------------------

  lemma BitsOfLast(data: seq<Byte>, byte: nat)
    requires data != [] && byte == 8
    ensures var n := |data| - 1;
            BitsOf(data)[..8 * n] == BitsOf(data[..n]) && BitsOf(data)[8 * n..] == Digits(data[n], byte)
  {
  }

  lemma {:induction false} BitsOfInjective(x: seq<Byte>, y: seq<Byte>, width: nat, byte: nat)
    requires |x| == |y| && BitsOf(x) == BitsOf(y) && Widths(width, byte)
    ensures x == y
  {
    if x == [] {
    } else {
      var n := |x| - 1;
      BitsOfLast(x, byte);
      BitsOfLast(y, byte);
      DigitsInjective(x[n], y[n], byte);
      BitsOfInjective(x[..n], y[..n], width, byte);
      LastOf(x);
      LastOf(y);
    }
  }

  /** Two messages agree except perhaps in `size` consecutive digits from digit k on. */
  ghost predicate WithinBurst(x: seq<Byte>, y: seq<Byte>, k: nat, size: nat)
    requires |x| == |y|
  {
    forall i: nat | i < 8 * |x| && !(k <= i < k + size) :: BitsOf(x)[i] == BitsOf(y)[i]
  }

  lemma BurstDetectedAt(x: seq<Byte>, y: seq<Byte>, k: nat, width: nat, byte: nat)
    requires |x| == |y| && x != y && Widths(width, byte) && k <= 8 * |x| && WithinBurst(x, y, k, width)
    ensures Crc(x) != Crc(y)
  {
    var d := Plus(BitsOf(x), BitsOf(y));
    BurstDoesNotCancel(d, k, width);
    FeedOfSum(x, y, width, byte);
    PlusZeroIff(Digits(Crc(x), width), Digits(Crc(y), width));
    PlusZeroIff(BitsOf(x), BitsOf(y));
    if BitsOf(x) == BitsOf(y) {
      BitsOfInjective(x, y, width, byte);
    }
  }

  /** Messages of equal length that differ within 16 consecutive digits have different checksums. */
  lemma BurstDetected(x: seq<Byte>, y: seq<Byte>, k: nat)
    requires |x| == |y| && x != y && WithinBurst(x, y, k, 16)
    ensures Crc(x) != Crc(y)
  {
    TheWidths();
    BurstDetectedAt(x, y, if k <= 8 * |x| then k else 0, 16, 8);
  }

  // ---------------------------------------------------------------------------
  // Parity
  // ---------------------------------------------------------------------------

  /** How many digits are set. */
  ghost function Ones(s: Bits): nat {
    if s == [] then 0 else Ones(s[..|s| - 1]) + if s[|s| - 1] then 1 else 0
  }

  ghost predicate Odd(s: Bits) {
    Ones(s) % 2 == 1
  }

  lemma OddMore(s: Bits, b: bool)
    ensures Odd(s + [b]) == (Odd(s) != b)
  {
    assert (s + [b])[..|s|] == s;
  }

  lemma {:induction false} OddPlus(s: Bits, t: Bits)
    requires |s| == |t|
    ensures Odd(Plus(s, t)) == (Odd(s) != Odd(t))
  {
    if s == [] {
      assert Plus(s, t) == [];
    } else {
      var n := |s| - 1;
      OddPlus(s[..n], t[..n]);
      LastOf(s);
      LastOf(t);
      OddMore(s[..n], s[n]);
      OddMore(t[..n], t[n]);
      OddMore(Plus(s[..n], t[..n]), s[n] != t[n]);
    }
  }

  lemma {:induction false} OddTail(s: Bits)
    requires s != []
    ensures Odd(s) == (s[0] != Odd(s[1..]))
  {
    var n := |s| - 1;
    LastOf(s);
    OddMore(s[..n], s[n]);
    if n == 0 {
      assert s[..0] == [] && s[1..] == [];
    } else {
      OddTail(s[..n]);
      assert s[1..] == s[..n][1..] + [s[n]];
      OddMore(s[..n][1..], s[n]);
    }
  }

  lemma {:induction false} ZerosAreEven(k: nat)
    ensures !Odd(Zeros(k))
  {
    if k == 0 {
      assert Zeros(0) == [];
    } else {
      ZerosAreEven(k - 1);
      OddMore(Zeros(k - 1), false);
    }
  }

  /** The polynomial has an odd number of terms besides the one that falls out of the register. */
  ghost predicate OddPoly(width: nat) {
    Odd(Digits(0x1021, width))
  }

  /** Whether a number has an odd number of binary digits set. */
  ghost predicate OddNumber(n: nat) {
    n > 0 && (OddNumber(n / 2) != (n % 2 == 1))
  }

  lemma {:induction false} OddDigits(n: nat, k: nat)
    requires n < Pow2(k)
    ensures Odd(Digits(n, k)) == OddNumber(n)
    decreases k
  {
    if k == 0 {
      assert Digits(n, 0) == [];
    } else {
      OddDigits(n / 2, k - 1);
      OddMore(Digits(n / 2, k - 1), n % 2 == 1);
    }
  }

  lemma PolyIsOdd(width: nat)
    requires WordWidth(width)
    ensures OddPoly(width)
  {
    OddDigits(0x1021, width);
    assert OddNumber(1) && OddNumber(0x10) && !OddNumber(0x81) && OddNumber(0x1021);
  }

  /** Feeding a digit changes the parity of the register exactly if the digit is set. */
  lemma FeedParity(r: Bits, b: bool)
    requires r != [] && OddPoly(|r|)
    ensures Odd(Feed(r, b)) == (Odd(r) != b)
  {
    OddPlus(r[1..] + [false], Poly(|r|, r[0] != b));
    OddMore(r[1..], false);
    OddTail(r);
    ZerosAreEven(|r|);
  }

  lemma {:induction false} FeedAllParity(r: Bits, data: Bits)
    requires r != [] && OddPoly(|r|)
    ensures Odd(FeedAll(r, data)) == (Odd(r) != Odd(data))
  {
    if data == [] {
      assert FeedAll(r, data) == r;
    } else {
      var n := |data| - 1;
      FeedAllParity(r, data[..n]);
      FeedParity(FeedAll(r, data[..n]), data[n]);
      LastOf(data);
      OddMore(data[..n], data[n]);
    }
  }

  lemma ParityAt(data: seq<Byte>, width: nat, byte: nat)
    requires Widths(width, byte)
    ensures Odd(Digits(Crc(data), width)) == Odd(BitsOf(data))
  {
    CrcIsFeed(data, width, byte);
    PolyIsOdd(width);
    FeedAllParity(Zeros(width), BitsOf(data));
    ZerosAreEven(width);
  }

  /** The checksum has an odd number of digits set exactly if the data has. */
  lemma ParityKept(data: seq<Byte>)
    ensures Ones(Digits(Crc(data), 16)) % 2 == Ones(BitsOf(data)) % 2
  {
    TheWidths();
    ParityAt(data, 16, 8);
  }

  /** Messages of equal length that differ in an odd number of digits, wherever they are, have different checksums. */
  lemma OddErrorsDetected(x: seq<Byte>, y: seq<Byte>)
    requires |x| == |y| && Ones(Plus(BitsOf(x), BitsOf(y))) % 2 == 1
    ensures Crc(x) != Crc(y)
  {
    TheWidths();
    ParityAt(x, 16, 8);
    ParityAt(y, 16, 8);
    OddPlus(BitsOf(x), BitsOf(y));
  }

  // ---------------------------------------------------------------------------
  // Self-check
  // ---------------------------------------------------------------------------

  /** A register without digits set is the number zero. */
  lemma ZeroRegister(crc: nat, width: nat)
    requires crc < Pow2(width)
    ensures Digits(crc, width) == Zeros(width) <==> crc == 0
  {
    DigitsOfZero(width);
    if Digits(crc, width) == Zeros(width) {
      DigitsInjective(crc, 0, width);
    }
  }

  lemma BitsOfWord(data: seq<Byte>, hi: Byte, lo: Byte, byte: nat)
    requires byte == 8
    ensures BitsOf(data + [hi, lo]) == BitsOf(data) + (Digits(hi, byte) + Digits(lo, byte))
  {
    var one, two := data + [hi], data + [hi, lo];
    assert one[..|data|] == data && two[..|data| + 1] == one;
  }

  lemma SelfCheckAt(data: seq<Byte>, hi: Byte, lo: Byte, width: nat, byte: nat)
    requires Widths(width, byte)
    ensures Crc(data + [hi, lo]) == 0 <==> Crc(data) == 0x100 * hi + lo
  {
    var r, word := Digits(Crc(data), width), 0x100 * hi + lo;
    BitsOfWord(data, hi, lo, byte);
    CrcIsFeed(data, width, byte);
    CrcIsFeed(data + [hi, lo], width, byte);
    FeedAllOfBoth(Zeros(width), BitsOf(data), Digits(hi, byte) + Digits(lo, byte));
    HighLow(hi, lo, word, byte, byte);
    WordCancelsIff(r, Digits(word, width));
    ZeroRegister(Crc(data + [hi, lo]), width);
    if r == Digits(word, width) {
      DigitsInjective(Crc(data), word, width);
    }
  }

  /** Two further bytes bring the checksum to zero exactly when they are the checksum, high byte first. */
  lemma SelfCheckIff(data: seq<Byte>, hi: Byte, lo: Byte)
    ensures Crc(data + [hi, lo]) == 0 <==> Crc(data) == 0x100 * hi + lo
  {
    TheWidths();
    SelfCheckAt(data, hi, lo, 16, 8);
  }

  lemma OneByte(b: Byte)
    ensures Crc([b]) == ShiftBy(Xor(0, Load(b)), 8)
  {
    assert [b][..0] == [];
  }

  lemma ZeroShift(zero: nat)
    requires zero == 0
    ensures Shift(zero) == 0
  {
    assert zero / 0x8000 == 0;
  }

  lemma {:induction false} ZeroShifts(n: nat)
    ensures ShiftBy(0, n) == 0
  {
    if n == 0 {
    } else {
      ZeroShifts(n - 1);
      ZeroShift(ShiftBy(0, n - 1));
    }
  }

  lemma PolyFallsOut(a: nat, b: nat)
    requires a == 0x11 && b == 1
    ensures Xor(0x1000 * a, 0x1000 * b + 0x21) == 0x1_0021
  {
    assert Xor(0, 0) == 0;
    assert Xor(a / 16, 0) == 1;
    assert Xor(a / 8, 0) == 2;
    assert Xor(a / 4, 0) == 4;
    assert Xor(a / 2, 0) == 8;
    assert Xor(a, b) == 0x10;
    assert Xor(2 * a, 2 * b) == 0x20;
    assert Xor(4 * a, 4 * b) == 0x40;
    assert Xor(8 * a, 8 * b) == 0x80;
    assert Xor(0x10 * a, 0x10 * b) == 0x100;
    assert Xor(0x20 * a, 0x20 * b) == 0x200;
    assert Xor(0x40 * a, 0x40 * b) == 0x400;
    assert Xor(0x80 * a, 0x80 * b + 1) == 0x801;
    assert Xor(0x100 * a, 0x100 * b + 2) == 0x1002;
    assert Xor(0x200 * a, 0x200 * b + 4) == 0x2004;
    assert Xor(0x400 * a, 0x400 * b + 8) == 0x4008;
    assert Xor(0x800 * a, 0x800 * b + 0x10) == 0x8010;
  }

  lemma SmallShift(r: nat, n: nat)
    requires ShiftBy(r, n) < 0x8000
    ensures ShiftBy(r, n + 1) == 2 * ShiftBy(r, n)
  {
    assert ShiftBy(r, n) / 0x8000 == 0;
  }

  lemma ShiftOutIs(r: nat, poly: nat, sum: nat)
    requires 0x8000 <= r < 0x1_0000 && poly == 0x1021 && sum == Xor(2 * r, poly)
    ensures ShiftBy(r, 1) == sum % 0x1_0000
  {
    assert ShiftBy(r, 0) == r && r / 0x8000 == 1;
  }

  lemma Shifts(r: nat, poly: nat, sum: nat)
    requires 0x8000 <= r < 0x1_0000 && poly == 0x1021 && sum == Xor(2 * r, poly) && sum % 0x1_0000 == 0x21
    ensures ShiftBy(r, 8) == 0x1080
  {
    ShiftOutIs(r, poly, sum);
    SmallShift(r, 1);
    SmallShift(r, 2);
    SmallShift(r, 3);
    SmallShift(r, 4);
    SmallShift(r, 5);
    SmallShift(r, 6);
    SmallShift(r, 7);
  }

  lemma XorWithZero(n: nat, width: nat)
    requires n < Pow2(width)
    ensures Xor(0, n) == n
  {
    XorBound(0, n, width);
    DigitsOfXor(0, n, width);
    DigitsOfZero(width);
    ZeroPlus(Digits(n, width));
    DigitsInjective(Xor(0, n), n, width);
  }

  /** A byte and the two bytes of its checksum have the checksum of three zero bytes. */
  lemma ThreeBytesCancel(b: Byte)
    requires b == 0x88
    ensures Crc([b] + [0x10, 0x80]) == 0 && Crc([0] + [0, 0]) == 0
  {
    TheWidths();
    OneByte(b);
    XorWithZero(Load(b), 16);
    PolyFallsOut(0x11, 1);
    Shifts(Load(b), 0x1021, 0x1_0021);
    OneByte(0);
    XorWithZero(Load(0), 16);
    ZeroShifts(8);
    SelfCheckIff([b], 0x10, 0x80);
    SelfCheckIff([0], 0, 0);
  }

  lemma SameTail()
    ensures Digits(0x80, 8)[1..] == Digits(0, 8)[1..]
  {
  }

  /** 16 is the limit: these messages differ within 17 digits and have the same checksum. */
  lemma SeventeenCancel(b: Byte, byte: nat)
    requires b == 0x88 && byte == 8
    ensures WithinBurst([b] + [0x10, 0x80], [0] + [0, 0], 0, 17)
    ensures Crc([b] + [0x10, 0x80]) == Crc([0] + [0, 0])
  {
    ThreeBytesCancel(b);
    BitsOfWord([b], 0x10, 0x80, byte);
    BitsOfWord([0], 0, 0, byte);
    SameTail();
    var x, y := BitsOf([b] + [0x10, 0x80]), BitsOf([0] + [0, 0]);
    forall i: nat | 17 <= i < 24
      ensures x[i] == y[i]
    {
      assert x[i] == Digits(0x80, byte)[1..][i - 17];
      assert y[i] == Digits(0, byte)[1..][i - 17];
    }
  }

  // ---------------------------------------------------------------------------
  // Packets
  // ---------------------------------------------------------------------------

  datatype Sent = Packet(bytes: seq<Byte>) | TooLong

  lemma CrcIsWord(data: seq<Byte>)
    ensures Crc(data) < 0x1_0000
  {
    TheWidths();
    CrcIsFeed(data, 16, 8);
  }

  function Pack(body: seq<Byte>, hi: Byte, lo: Byte): seq<Byte>
    requires |body| < 256
  {
    [2, |body|] + body + [hi, lo] + [3]
  }

  /** send_packet: the bytes that it writes and returns, or the refusal of a body of 256 bytes or more. */
  method SendPacket(cmd: Byte, payload: seq<Byte>) returns (sent: Sent)
    ensures sent.TooLong? <==> |payload| >= 255
    ensures sent.Packet? ==>
              && Crc([cmd] + payload) < 0x1_0000
              && sent.bytes == Pack([cmd] + payload, Crc([cmd] + payload) / 0x100, Crc([cmd] + payload) % 0x100)
  {
    var body := [cmd] + payload;
    if |body| >= 256 {
      return TooLong;
    }
    CrcIsWord(body);
    var crc := Compute(body);
    return Packet(Pack(body, crc / 0x100, crc % 0x100));
  }

  /** The part of a packet that the checksum covers, with the checksum. */
  ghost function Checked(p: seq<Byte>): seq<Byte>
    requires |p| >= 5
  {
    p[2..|p| - 1]
  }

  /** A packet tells its own length, carries the body unchanged, and checks to zero exactly with the right checksum. */
  lemma PacketIsSelfDescribing(body: seq<Byte>, hi: Byte, lo: Byte)
    requires |body| < 256
    ensures var p := Pack(body, hi, lo);
            && |p| - 5 == p[1] && p[0] == 2 && p[|p| - 1] == 3
            && p[2..2 + p[1] as int] == body
            && (Crc(Checked(p)) == 0 <==> Crc(body) == 0x100 * hi + lo)
  {
    assert Checked(Pack(body, hi, lo)) == body + [hi, lo];
    SelfCheckIff(body, hi, lo);
  }

  /** Damage to the checked part of a packet is noticed if it lies within 16 digits or hits an odd number of them. */
  lemma DamageDetected(body: seq<Byte>, hi: Byte, lo: Byte, damaged: seq<Byte>, k: nat)
    requires |body| < 256 && Crc(body) == 0x100 * hi + lo
    requires var part := Checked(Pack(body, hi, lo));
             && |damaged| == |part| && damaged != part
             && (WithinBurst(part, damaged, k, 16) || Odd(Plus(BitsOf(part), BitsOf(damaged))))
    ensures Crc(damaged) != 0
  {
    PacketIsSelfDescribing(body, hi, lo);
    var part := Checked(Pack(body, hi, lo));
    if WithinBurst(part, damaged, k, 16) {
      BurstDetected(part, damaged, k);
    } else {
      OddErrorsDetected(part, damaged);
    }
  }
}
