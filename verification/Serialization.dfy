/**
 The framework's serializer: a byte buffer with a write cursor and a read cursor, numbers
 most significant byte first, length-prefixed blocks.
 */
module Serialization {
  import opened MachineWords
  import opened Sequences

  datatype Status = OK | NO_ROOM_LEFT | BUFFER_EMPTY | FORMAT_ERROR | SIZE_MISMATCH | TYPE_MISMATCH

  const TRUE_VALUE: Byte := 0xFF
  const FALSE_VALUE: Byte := 0x00

  // ---------------------------------------------------------------------------
  // Numbers
  // ---------------------------------------------------------------------------

  function Pow256(w: nat): (p: nat)
    ensures p > 0
  {
    if w == 0 then 1 else 256 * Pow256(w - 1)
  }

  /** The w lowest bytes of n, most significant first. */
  function BigEndian(n: nat, w: nat): (r: seq<Byte>)
    ensures |r| == w
  {
    if w == 0 then [] else BigEndian(n / 256, w - 1) + [n % 256]
  }

  function Number(s: seq<Byte>): nat {
    if s == [] then 0 else 256 * Number(s[..|s| - 1]) + s[|s| - 1]
  }

  lemma {:induction false} NumberFits(s: seq<Byte>)
    ensures Number(s) < Pow256(|s|)
  {
    if s == [] {
    } else {
      NumberFits(s[..|s| - 1]);
    }
  }

  lemma {:induction false} NumberOfBigEndian(n: nat, w: nat)
    requires n < Pow256(w)
    ensures Number(BigEndian(n, w)) == n
    decreases w
  {
    if w == 0 {
    } else {
      NumberOfBigEndian(n / 256, w - 1);
      assert BigEndian(n, w)[..w - 1] == BigEndian(n / 256, w - 1);
    }
  }

  lemma {:induction false} BigEndianOfNumber(s: seq<Byte>)
    ensures BigEndian(Number(s), |s|) == s
  {
    if s == [] {
    } else {
      var n := Number(s);
      BigEndianOfNumber(s[..|s| - 1]);
      assert n / 256 == Number(s[..|s| - 1]) && n % 256 == s[|s| - 1];
    }
  }

  lemma DivideOnce(n: nat, p: nat)
    requires p > 0
    ensures n / 256 / p == n / (256 * p)
  {
    var q := n / (256 * p);
    var r := n % (256 * p);
    assert n == 256 * p * q + r;
    var a := r / 256;
    assert n / 256 == p * q + a by {
      assert n == 256 * (p * q + a) + r % 256;
    }
    assert a < p;
    QuotientUnique(n / 256, p, q, a);
  }

  lemma ProductsGrow(p: nat, a: nat, b: nat)
    requires a <= b
    ensures p * a <= p * b
  {
  }

  lemma ProductOrder(p: nat, a: nat, b: nat)
    requires p * a < p * b + p
    ensures a <= b
  {
    if a > b {
      ProductsGrow(p, b + 1, a);
      assert false;
    }
  }

  lemma QuotientUnique(n: nat, p: nat, q: nat, a: nat)
    requires n == p * q + a && a < p
    ensures n / p == q
  {
    var d := n / p;
    assert n == p * d + n % p;
    ProductOrder(p, d, q);
    ProductOrder(p, q, d);
  }

  /** Byte k of w is the one of weight 256^(w - 1 - k): the most significant comes first. */
  lemma {:induction false} BigEndianByte(n: nat, w: nat, k: nat)
    requires k < w
    ensures BigEndian(n, w)[k] == n / Pow256(w - 1 - k) % 256
  {
    if k == w - 1 {
    } else {
      BigEndianByte(n / 256, w - 1, k);
      DivideOnce(n, Pow256(w - 2 - k));
    }
  }

  /** The first k bytes, each with its weight. */
  ghost function Weighted(s: seq<Byte>, k: nat): nat
    requires k <= |s|
  {
    if k == 0 then 0 else Weighted(s, k - 1) + s[k - 1] * Pow256(|s| - k)
  }

  lemma TimesBase(a: nat, p: nat)
    ensures a * (256 * p) == 256 * (a * p)
  {
  }

  lemma {:induction false} WeightedShift(s: seq<Byte>, k: nat)
    requires k < |s|
    ensures Weighted(s, k) == 256 * Weighted(s[..|s| - 1], k)
  {
    if k == 0 {
    } else {
      WeightedShift(s, k - 1);
      TimesBase(s[k - 1], Pow256(|s| - 1 - k));
    }
  }

  /** A number is the sum of its bytes with their weights. */
  lemma {:induction false} NumberIsWeighted(s: seq<Byte>)
    ensures Number(s) == Weighted(s, |s|)
  {
    if s == [] {
    } else {
      NumberIsWeighted(s[..|s| - 1]);
      WeightedShift(s, |s| - 1);
    }
  }

  predicate FitsSigned(i: int, w: nat) {
    0 <= 2 * i + Pow256(w) && 2 * i < Pow256(w)
  }

  /** Two's complement in w bytes. */
  function Unsigned(i: int, w: nat): nat
    requires FitsSigned(i, w)
  {
    if i < 0 then i + Pow256(w) else i
  }

  function Signed(n: nat, w: nat): int {
    if 2 * n >= Pow256(w) then n - Pow256(w) else n
  }

  // ---------------------------------------------------------------------------
  // Values and their encoding
  // ---------------------------------------------------------------------------

  /** A value handed to the serializer; integers are of one, two, four or eight bytes. */
  datatype Value =
    | UInt(width: nat, n: nat)
    | SInt(width: nat, i: int)
    | Bool(b: bool)
    | Block(bytes: seq<Byte>)

  /** What the reader asks for; a block comes with the room that the caller has for it. */
  datatype Type = UIntType(width: nat) | SIntType(width: nat) | BoolType | BlockType(room: nat)

  predicate Width(w: nat) {
    w == 1 || w == 2 || w == 4 || w == 8
  }

  predicate IsValue(v: Value) {
    match v
    case UInt(w, n) => Width(w) && n < Pow256(w)
    case SInt(w, i) => Width(w) && FitsSigned(i, w)
    case _ => true
  }

  predicate IsType(t: Type) {
    (t.UIntType? || t.SIntType?) ==> Width(t.width)
  }

  /** The bytes that stand for a value; the length of a block is cut to 16 bits. */
  function Encode(v: Value): seq<Byte>
    requires IsValue(v)
  {
    match v
    case UInt(w, n) => BigEndian(n, w)
    case SInt(w, i) => BigEndian(Unsigned(i, w), w)
    case Bool(b) => [if b then TRUE_VALUE else FALSE_VALUE]
    case Block(bytes) => BigEndian(|bytes|, 2) + bytes
  }

  /** The write of one value behind the bytes already there; a block's length stays even if its bytes find no room. */
  ghost function Put(written: seq<Byte>, capacity: nat, v: Value): (r: (Status, seq<Byte>))
    requires IsValue(v)
  {
    if |written| + |Encode(v)| <= capacity then (OK, written + Encode(v))
    else if v.Block? && |written| + 2 <= capacity then (NO_ROOM_LEFT, written + BigEndian(|v.bytes|, 2))
    else (NO_ROOM_LEFT, written)
  }

  lemma PutBlock(written: seq<Byte>, capacity: nat, bytes: seq<Byte>, withLength: seq<Byte>)
    requires withLength == written + BigEndian(|bytes|, 2)
    ensures var r := Put(written, capacity, Block(bytes));
            && (|withLength| > capacity ==> r == (NO_ROOM_LEFT, written))
            && (|withLength| <= capacity < |withLength| + |bytes| ==> r == (NO_ROOM_LEFT, withLength))
            && (|withLength| + |bytes| <= capacity ==> r == (OK, withLength + bytes))
  {
    Regroup(written, BigEndian(|bytes|, 2), bytes);
  }

  /** The outcome of a read: status, value, and how far the read cursor moves. */
  datatype Got = Got(status: Status, value: Value, consumed: nat)

  const NOTHING := UInt(1, 0)

  function GetNumber(left: seq<Byte>, w: nat): (g: Got)
    ensures g.consumed <= |left|
  {
    if |left| == 0 then Got(BUFFER_EMPTY, NOTHING, 0)
    else if |left| < w then Got(SIZE_MISMATCH, NOTHING, 0)
    else Got(OK, UInt(w, Number(left[..w])), w)
  }

  /** The read of one value from the bytes that are left. */
  ghost function Get(left: seq<Byte>, t: Type): (g: Got)
    requires IsType(t)
    ensures g.consumed <= |left|
  {
    match t
    case UIntType(w) => GetNumber(left, w)
    case SIntType(w) =>
      var g := GetNumber(left, w);
      if g.status == OK then Got(OK, SInt(w, Signed(g.value.n, w)), w) else g
    case BoolType =>
      if |left| == 0 then Got(BUFFER_EMPTY, NOTHING, 0)
      else if left[0] == TRUE_VALUE then Got(OK, Bool(true), 1)
      else if left[0] == FALSE_VALUE then Got(OK, Bool(false), 1)
      else Got(FORMAT_ERROR, NOTHING, 0)
    case BlockType(room) =>
      var g := GetNumber(left, 2);
      if g.status != OK then g
      else if g.value.n > |left| - 2 || g.value.n > room then Got(SIZE_MISMATCH, NOTHING, 2)
      else Got(OK, Block(left[2..2 + g.value.n]), 2 + g.value.n)
  }

  // ---------------------------------------------------------------------------
  // Lists of values, one after the other
  // ---------------------------------------------------------------------------

  ghost predicate AllValues(vs: seq<Value>) {
    forall k: nat | k < |vs| :: IsValue(vs[k])
  }

  ghost function EncodeAll(vs: seq<Value>): seq<Byte>
    requires AllValues(vs)
  {
    if vs == [] then [] else EncodeAll(vs[..|vs| - 1]) + Encode(vs[|vs| - 1])
  }

  /** Writes one value after the other up to the first that finds no room. */
  ghost function PutAll(written: seq<Byte>, capacity: nat, vs: seq<Value>): (r: (Status, seq<Byte>))
    requires AllValues(vs)
  {
    if vs == [] then (OK, written)
    else
      var before := PutAll(written, capacity, vs[..|vs| - 1]);
      if before.0 != OK then before else Put(before.1, capacity, vs[|vs| - 1])
  }

  /** After a failure nothing more is written. */
  lemma {:induction false} PutAllStops(written: seq<Byte>, capacity: nat, vs: seq<Value>, k: nat)
    requires AllValues(vs) && k <= |vs| && PutAll(written, capacity, vs[..k]).0 != OK
    ensures PutAll(written, capacity, vs) == PutAll(written, capacity, vs[..k])
  {
    if k == |vs| {
      assert vs[..k] == vs;
    } else {
      assert vs[..|vs| - 1][..k] == vs[..k];
      PutAllStops(written, capacity, vs[..|vs| - 1], k);
    }
  }

  /** The values read one after the other, and what is left. */
  datatype Read = Read(ok: bool, values: seq<Value>, left: seq<Byte>)

  ghost predicate AllTypes(ts: seq<Type>) {
    forall k: nat | k < |ts| :: IsType(ts[k])
  }

  ghost function GetAll(left: seq<Byte>, ts: seq<Type>): Read
    requires AllTypes(ts)
  {
    if ts == [] then Read(true, [], left)
    else
      var before := GetAll(left, ts[..|ts| - 1]);
      if !before.ok then before
      else
        var g := Get(before.left, ts[|ts| - 1]);
        if g.status == OK then Read(true, before.values + [g.value], before.left[g.consumed..])
        else Read(false, before.values, before.left[g.consumed..])
  }

  /** After a failure nothing more is read. */
  lemma {:induction false} GetAllStops(left: seq<Byte>, ts: seq<Type>, k: nat)
    requires AllTypes(ts) && k <= |ts| && !GetAll(left, ts[..k]).ok
    ensures GetAll(left, ts) == GetAll(left, ts[..k])
  {
    if k == |ts| {
      assert ts[..k] == ts;
    } else {
      assert ts[..|ts| - 1][..k] == ts[..k];
      GetAllStops(left, ts[..|ts| - 1], k);
    }
  }

  // ---------------------------------------------------------------------------
  // Round trips
  // ---------------------------------------------------------------------------

  /** The value can be read back: only a block of 65536 bytes or more cannot. */
  predicate Readable(v: Value) {
    IsValue(v) && (v.Block? ==> |v.bytes| < 0x1_0000)
  }

  function TypeOf(v: Value): Type {
    match v
    case UInt(w, _) => UIntType(w)
    case SInt(w, _) => SIntType(w)
    case Bool(_) => BoolType
    case Block(bytes) => BlockType(|bytes|)
  }

  lemma SignedOfUnsigned(i: int, w: nat)
    requires FitsSigned(i, w)
    ensures Unsigned(i, w) < Pow256(w) && Signed(Unsigned(i, w), w) == i
  {
  }

  lemma UnsignedOfSigned(n: nat, w: nat)
    requires n < Pow256(w)
    ensures FitsSigned(Signed(n, w), w) && Unsigned(Signed(n, w), w) == n
  {
  }

  lemma {:induction false} BigEndianCuts(n: nat, m: nat)
    requires m == n % 0x1_0000
    ensures BigEndian(n, 2) == BigEndian(m, 2)
  {
    assert n / 256 % 256 == m / 256 && n % 256 == m % 256;
    assert BigEndian(n / 256, 1) == [n / 256 % 256] && BigEndian(m / 256, 1) == [m / 256 % 256];
  }

  lemma GetNumberOf(n: nat, w: nat, tail: seq<Byte>)
    requires n < Pow256(w) && w > 0
    ensures GetNumber(BigEndian(n, w) + tail, w) == Got(OK, UInt(w, n), w)
  {
    var bytes := BigEndian(n, w);
    assert (bytes + tail)[..w] == bytes;
    NumberOfBigEndian(n, w);
  }

  lemma Powers()
    ensures Pow256(1) == 0x100 && Pow256(2) == 0x1_0000 && Pow256(4) == 0x1_0000_0000
  {
  }

  lemma GetOfBlock(bytes: seq<Byte>, tail: seq<Byte>, room: nat)
    requires |bytes| < 0x1_0000 && |bytes| <= room
    ensures Get(Encode(Block(bytes)) + tail, BlockType(room)) == Got(OK, Block(bytes), 2 + |bytes|)
  {
    Powers();
    GetNumberOf(|bytes|, 2, bytes + tail);
    Regroup(BigEndian(|bytes|, 2), bytes, tail);
    MiddleOf(BigEndian(|bytes|, 2), bytes, tail);
  }

  /** What is written is read back, whatever follows. */
  lemma GetOfPut(v: Value, tail: seq<Byte>)
    requires Readable(v)
    ensures Get(Encode(v) + tail, TypeOf(v)) == Got(OK, v, |Encode(v)|)
  {
    match v
    case UInt(w, n) => GetNumberOf(n, w, tail);
    case SInt(w, i) =>
      SignedOfUnsigned(i, w);
      GetNumberOf(Unsigned(i, w), w, tail);
    case Bool(_) =>
    case Block(bytes) => GetOfBlock(bytes, tail, |bytes|);
  }

  /** A block comes back exactly when its length fits in 16 bits. */
  lemma BlockReturnsIff(bytes: seq<Byte>)
    ensures Get(Encode(Block(bytes)), BlockType(|bytes|)) == Got(OK, Block(bytes), |Encode(Block(bytes))|)
       <==> |bytes| < 0x1_0000
  {
    var m := |bytes| % 0x1_0000;
    Powers();
    BigEndianCuts(|bytes|, m);
    GetNumberOf(m, 2, bytes);
    if |bytes| < 0x1_0000 {
      GetOfBlock(bytes, [], |bytes|);
      assert Encode(Block(bytes)) + [] == Encode(Block(bytes));
    }
  }

  lemma NumberRead(left: seq<Byte>, w: nat)
    requires w > 0 && GetNumber(left, w).status == OK
    ensures var g := GetNumber(left, w);
            g.value.UInt? && g.value.n < Pow256(w) && BigEndian(g.value.n, w) == left[..w] && w <= |left|
  {
    NumberFits(left[..w]);
    BigEndianOfNumber(left[..w]);
  }

  lemma PutOfGetBlock(left: seq<Byte>, room: nat)
    requires Get(left, BlockType(room)).status == OK
    ensures var g := Get(left, BlockType(room)); Readable(g.value) && left[..g.consumed] == Encode(g.value)
  {
    NumberRead(left, 2);
    Powers();
    var n := GetNumber(left, 2).value.n;
    assert left[..2 + n] == left[..2] + left[2..2 + n];
  }

  /** Whatever a read accepts is the encoding of what it returns. */
  lemma PutOfGet(left: seq<Byte>, t: Type)
    requires IsType(t) && Get(left, t).status == OK
    ensures var g := Get(left, t); Readable(g.value) && left[..g.consumed] == Encode(g.value)
  {
    match t
    case UIntType(w) => NumberRead(left, w);
    case SIntType(w) =>
      NumberRead(left, w);
      UnsignedOfSigned(GetNumber(left, w).value.n, w);
    case BoolType =>
    case BlockType(room) => PutOfGetBlock(left, room);
  }

  // ---------------------------------------------------------------------------
  // Lists of values read back
  // ---------------------------------------------------------------------------

  /** A list is written, in full, exactly when it fits. */
  lemma {:induction false} PutAllIff(written: seq<Byte>, capacity: nat, vs: seq<Value>)
    requires AllValues(vs) && |written| <= capacity
    ensures var r := PutAll(written, capacity, vs);
            && (r.0 == OK <==> |written| + |EncodeAll(vs)| <= capacity)
            && (r.0 == OK ==> r.1 == written + EncodeAll(vs)) && |r.1| <= capacity
  {
    if vs == [] {
    } else {
      var init, v := vs[..|vs| - 1], vs[|vs| - 1];
      PutAllIff(written, capacity, init);
      Regroup(written, EncodeAll(init), Encode(v));
    }
  }

  function TypesOf(vs: seq<Value>): (ts: seq<Type>)
    ensures |ts| == |vs| && forall k: nat | k < |vs| :: ts[k] == TypeOf(vs[k])
  {
    if vs == [] then [] else TypesOf(vs[..|vs| - 1]) + [TypeOf(vs[|vs| - 1])]
  }

  ghost predicate AllReadable(vs: seq<Value>) {
    forall k: nat | k < |vs| :: Readable(vs[k])
  }

  lemma ReadableTypes(vs: seq<Value>)
    requires AllReadable(vs)
    ensures AllValues(vs) && AllTypes(TypesOf(vs))
  {
    var ts := TypesOf(vs);
    forall k: nat | k < |vs|
      ensures IsType(ts[k])
    {
      assert Readable(vs[k]) && ts[k] == TypeOf(vs[k]);
    }
  }

  lemma EncodeAllMore(init: seq<Value>, v: Value)
    requires AllValues(init) && AllValues(init + [v]) && IsValue(v)
    ensures EncodeAll(init + [v]) == EncodeAll(init) + Encode(v)
  {
    Glue(init, [v]);
  }

  lemma TypesOfMore(init: seq<Value>, v: Value)
    ensures TypesOf(init + [v]) == TypesOf(init) + [TypeOf(v)]
  {
    Glue(init, [v]);
  }

  lemma GetAllMore(left: seq<Byte>, ts: seq<Type>, t: Type)
    requires AllTypes(ts) && IsType(t) && AllTypes(ts + [t]) && GetAll(left, ts).ok
    ensures var before := GetAll(left, ts); var g := Get(before.left, t);
            g.status == OK ==>
              GetAll(left, ts + [t]) == Read(true, before.values + [g.value], before.left[g.consumed..])
  {
    Glue(ts, [t]);
  }

  lemma NothingBefore(tail: seq<Byte>)
    ensures EncodeAll([]) + tail == tail && GetAll(tail, TypesOf([])) == Read(true, [], tail)
  {
  }

  lemma RoundTripMore(vs: seq<Value>, init: seq<Value>, v: Value, tail: seq<Byte>)
    requires vs == init + [v]
    requires AllReadable(init) && Readable(v) && AllValues(init) && AllTypes(TypesOf(init))
    requires GetAll(EncodeAll(init) + (Encode(v) + tail), TypesOf(init)) == Read(true, init, Encode(v) + tail)
    requires AllValues(vs) && AllTypes(TypesOf(vs))
    ensures GetAll(EncodeAll(vs) + tail, TypesOf(vs)) == Read(true, vs, tail)
  {
    EncodeAllMore(init, v);
    TypesOfMore(init, v);
    Regroup(EncodeAll(init), Encode(v), tail);
    GetOfPut(v, tail);
    Glue(Encode(v), tail);
    GetAllMore(EncodeAll(vs) + tail, TypesOf(init), TypeOf(v));
  }

  /** Lists of values are self-delimiting: reading the same types gives the values and leaves what follows. */
  lemma {:induction false} ListRoundTrip(vs: seq<Value>, tail: seq<Byte>)
    requires AllReadable(vs)
    ensures AllValues(vs) && AllTypes(TypesOf(vs))
    ensures GetAll(EncodeAll(vs) + tail, TypesOf(vs)) == Read(true, vs, tail)
  {
    ReadableTypes(vs);
    if vs == [] {
      NothingBefore(tail);
    } else {
      var init, v := vs[..|vs| - 1], vs[|vs| - 1];
      ListRoundTrip(init, Encode(v) + tail);
      LastOf(vs);
      RoundTripMore(vs, init, v, tail);
    }
  }

  lemma EncodeOneMore(vs: seq<Value>, v: Value, rest: seq<Byte>, n: nat)
    requires AllReadable(vs) && Readable(v) && n <= |rest| && rest[..n] == Encode(v)
    ensures AllReadable(vs + [v]) && AllValues(vs) && AllValues(vs + [v])
    ensures EncodeAll(vs) + rest == EncodeAll(vs + [v]) + rest[n..]
  {
    EncodeAllMore(vs, v);
    Regroup(EncodeAll(vs), rest[..n], rest[n..]);
    assert rest == rest[..n] + rest[n..];
  }

  /** Any bytes that read as a list of values are the encoding of that list, and what is left. */
  lemma {:induction false} ListReadIsWritten(left: seq<Byte>, ts: seq<Type>)
    requires AllTypes(ts) && GetAll(left, ts).ok
    ensures var r := GetAll(left, ts);
            AllReadable(r.values) && AllValues(r.values) && left == EncodeAll(r.values) + r.left
  {
    if ts == [] {
      assert left == [] + left;
    } else {
      var before := GetAll(left, ts[..|ts| - 1]);
      ListReadIsWritten(left, ts[..|ts| - 1]);
      PutOfGet(before.left, ts[|ts| - 1]);
      var g := Get(before.left, ts[|ts| - 1]);
      EncodeOneMore(before.values, g.value, before.left, g.consumed);
    }
  }

  // ---------------------------------------------------------------------------
  // The buffer
  // ---------------------------------------------------------------------------

  /** The 32-bit test for room gives the right answer exactly if the sum does not wrap around. */
  lemma RoomTestIff(serLoc: nat, capacity: nat, length: nat)
    requires serLoc <= capacity < WORD && length < WORD
    ensures (Cut(serLoc + length) <= capacity <==> serLoc + length <= capacity) <==> serLoc + length < WORD
  {
    if serLoc + length >= WORD {
      assert Cut(serLoc + length) == serLoc + length - WORD;
    }
  }

  class SerialBuffer {
    const data: array<Byte>
    var serLoc: nat
    var deserLoc: nat

    /** The cursors stay in order and within the buffer. */
    ghost predicate Valid()
      reads this
    {
      deserLoc <= serLoc <= data.Length
    }

    ghost function Written(): seq<Byte>
      requires Valid()
      reads this, data
    {
      data[..serLoc]
    }

    ghost function Left(): seq<Byte>
      requires Valid()
      reads this, data
    {
      data[deserLoc..serLoc]
    }

    constructor Over(data: array<Byte>)
      ensures Valid() && this.data == data && serLoc == 0 && deserLoc == 0
    {
      this.data := data;
      serLoc, deserLoc := 0, 0;
    }

    method Fill()
      modifies this
      ensures Valid() && Written() == data[..] && Left() == data[..]
    {
      serLoc, deserLoc := data.Length, 0;
    }

    function GetBuffLeft(): (n: nat)
      requires Valid()
      reads this, data
      ensures n == |Left()|
    {
      serLoc - deserLoc
    }

    method SetBuffLen(length: nat) returns (status: Status)
      requires Valid()
      modifies this
      ensures Valid()
      ensures status == if length <= data.Length then OK else NO_ROOM_LEFT
      ensures status == OK ==> serLoc == length && deserLoc == 0
      ensures status != OK ==> serLoc == old(serLoc) && deserLoc == old(deserLoc)
    {
      if data.Length < length {
        return NO_ROOM_LEFT;
      }
      serLoc, deserLoc := length, 0;
      return OK;
    }

    method SetBuff(src: seq<Byte>) returns (status: Status)
      requires Valid()
      modifies this, data
      ensures Valid()
      ensures status == if |src| <= data.Length then OK else NO_ROOM_LEFT
      ensures status == OK ==> Written() == src && Left() == src && data[|src|..] == old(data[..])[|src|..]
      ensures status != OK ==> data[..] == old(data[..]) && serLoc == old(serLoc) && deserLoc == old(deserLoc)
    {
      if data.Length < |src| {
        return NO_ROOM_LEFT;
      }
      forall k | 0 <= k < |src| {
        data[k] := src[k];
      }
      serLoc, deserLoc := |src|, 0;
      return OK;
    }

    /** Copies bytes in behind the others; the caller has checked the room. */
    method Append(bytes: seq<Byte>)
      requires Valid() && serLoc + |bytes| <= data.Length
      modifies this, data
      ensures Valid() && Written() == old(Written()) + bytes && deserLoc == 0
      ensures forall k: nat | serLoc <= k < data.Length :: data[k] == old(data[k])
    {
      forall k | 0 <= k < |bytes| {
        data[serLoc + k] := bytes[k];
      }
      serLoc, deserLoc := serLoc + |bytes|, 0;
    }

    /** pushBytes, and serialize without a length. */
    method PushBytes(bytes: seq<Byte>) returns (status: Status)
      requires Valid()
      modifies this, data
      ensures Valid()
      ensures status == if old(serLoc) + |bytes| <= data.Length then OK else NO_ROOM_LEFT
      ensures Written() == if status == OK then old(Written()) + bytes else old(Written())
      ensures deserLoc == if status == OK then 0 else old(deserLoc)
      ensures forall k: nat | serLoc <= k < data.Length :: data[k] == old(data[k])
    {
      if serLoc + |bytes| > data.Length {
        return NO_ROOM_LEFT;
      }
      Append(bytes);
      return OK;
    }

    method SerializeNumber(n: nat, width: nat) returns (status: Status)
      requires Valid() && width > 0
      modifies this, data
      ensures Valid()
      ensures status == if old(serLoc) + width <= data.Length then OK else NO_ROOM_LEFT
      ensures Written() == if status == OK then old(Written()) + BigEndian(n, width) else old(Written())
      ensures deserLoc == if status == OK then 0 else old(deserLoc)
      ensures status == OK ==>
                && serLoc == old(serLoc) + width
                && forall k: nat | old(serLoc) <= k < serLoc :: data[k] == n / Pow256(serLoc - 1 - k) % 256
      ensures forall k: nat | serLoc <= k < data.Length :: data[k] == old(data[k])
    {
      if serLoc + width - 1 >= data.Length {
        return NO_ROOM_LEFT;
      }
      Append(BigEndian(n, width));
      forall k: nat | old(serLoc) <= k < serLoc
        ensures data[k] == n / Pow256(serLoc - 1 - k) % 256
      {
        assert data[k] == Written()[k];
        BigEndianByte(n, width, k - old(serLoc));
      }
      return OK;
    }

    method SerializeBlock(bytes: seq<Byte>) returns (status: Status)
      requires Valid()
      modifies this, data
      ensures Valid() && (status, Written()) == Put(old(Written()), data.Length, Block(bytes))
      ensures serLoc >= old(serLoc) && deserLoc == if serLoc == old(serLoc) then old(deserLoc) else 0
      ensures forall k: nat | serLoc <= k < data.Length :: data[k] == old(data[k])
    {
      PutBlock(Written(), data.Length, bytes, Written() + BigEndian(|bytes|, 2));
      status := SerializeNumber(|bytes|, 2);
      if status != OK {
        return;
      }
      status := PushBytes(bytes);
    }

    /** serialize, for each type of value. */
    method Serialize(v: Value) returns (status: Status)
      requires Valid() && IsValue(v)
      modifies this, data
      ensures Valid() && (status, Written()) == Put(old(Written()), data.Length, v)
      ensures serLoc >= old(serLoc) && deserLoc == if serLoc == old(serLoc) then old(deserLoc) else 0
      ensures forall k: nat | serLoc <= k < data.Length :: data[k] == old(data[k])
    {
      match v
      case UInt(w, n) => status := SerializeNumber(n, w);
      case SInt(w, i) => status := SerializeNumber(Unsigned(i, w), w);
      case Bool(b) => status := PushBytes([if b then TRUE_VALUE else FALSE_VALUE]);
      case Block(bytes) => status := SerializeBlock(bytes);
    }

    method DeserializeNumber(width: nat) returns (status: Status, n: nat)
      requires Valid() && width > 0
      modifies `deserLoc
      ensures Valid()
      ensures var g := GetNumber(old(Left()), width);
              status == g.status && deserLoc == old(deserLoc) + g.consumed && (status == OK ==> n == g.value.n)
      ensures status == OK ==> n == Weighted(old(Left())[..width], width)
    {
      n := 0;
      if serLoc == deserLoc {
        return BUFFER_EMPTY, n;
      } else if serLoc - deserLoc < width {
        return SIZE_MISMATCH, n;
      }
      n := Number(data[deserLoc..deserLoc + width]);
      assert data[deserLoc..serLoc][..width] == data[deserLoc..deserLoc + width];
      NumberIsWeighted(data[deserLoc..deserLoc + width]);
      deserLoc := deserLoc + width;
      return OK, n;
    }

    /** popBytes, and deserialize without a length. */
    method PopBytes(n: nat) returns (status: Status, bytes: seq<Byte>)
      requires Valid()
      modifies `deserLoc
      ensures Valid()
      ensures status == if n <= |old(Left())| then OK else SIZE_MISMATCH
      ensures deserLoc == if status == OK then old(deserLoc) + n else old(deserLoc)
      ensures status == OK ==> bytes == old(Left())[..n]
    {
      bytes := [];
      if n > serLoc - deserLoc {
        return SIZE_MISMATCH, bytes;
      }
      bytes := data[deserLoc..deserLoc + n];
      assert bytes == Left()[..n];
      deserLoc := deserLoc + n;
      return OK, bytes;
    }

    method DeserializeBool() returns (status: Status, value: Value)
      requires Valid()
      modifies `deserLoc
      ensures Valid()
      ensures var g := Get(old(Left()), BoolType);
              status == g.status && deserLoc == old(deserLoc) + g.consumed && (status == OK ==> value == g.value)
    {
      value := NOTHING;
      if serLoc == deserLoc {
        return BUFFER_EMPTY, value;
      }
      if data[deserLoc] == TRUE_VALUE {
        value := Bool(true);
      } else if data[deserLoc] == FALSE_VALUE {
        value := Bool(false);
      } else {
        return FORMAT_ERROR, value;
      }
      deserLoc := deserLoc + 1;
      return OK, value;
    }

    method DeserializeBlock(room: nat) returns (status: Status, value: Value)
      requires Valid()
      modifies `deserLoc
      ensures Valid()
      ensures var g := Get(old(Left()), BlockType(room));
              status == g.status && deserLoc == old(deserLoc) + g.consumed && (status == OK ==> value == g.value)
    {
      var storedLength;
      value := NOTHING;
      status, storedLength := DeserializeNumber(2);
      if status != OK {
        return;
      }
      if storedLength > GetBuffLeft() || storedLength > room {
        return SIZE_MISMATCH, value;
      }
      value := Block(data[deserLoc..deserLoc + storedLength]);
      assert value.bytes == old(Left())[2..2 + storedLength];
      deserLoc := deserLoc + storedLength;
    }

    /** deserialize, for each type of value. */
    method Deserialize(t: Type) returns (status: Status, value: Value)
      requires Valid() && IsType(t)
      modifies `deserLoc
      ensures Valid()
      ensures var g := Get(old(Left()), t);
              status == g.status && deserLoc == old(deserLoc) + g.consumed && (status == OK ==> value == g.value)
    {
      var n;
      value := NOTHING;
      match t
      case UIntType(w) =>
        status, n := DeserializeNumber(w);
        value := UInt(w, n);
      case SIntType(w) =>
        status, n := DeserializeNumber(w);
        value := SInt(w, Signed(n, w));
      case BoolType =>
        status, value := DeserializeBool();
      case BlockType(room) =>
        status, value := DeserializeBlock(room);
    }

    /** Serializes the values of a list in turn, as the generated code of a message does, up to the first failure. */
    method SerializeAll(vs: seq<Value>) returns (status: Status)
      requires Valid() && AllValues(vs)
      modifies this, data
      ensures Valid() && (status, Written()) == PutAll(old(Written()), data.Length, vs)
      ensures serLoc >= old(serLoc) && deserLoc == if serLoc == old(serLoc) then old(deserLoc) else 0
    {
      status := OK;
      for k := 0 to |vs|
        invariant Valid() && status == OK && serLoc >= old(serLoc)
        invariant (status, Written()) == PutAll(old(Written()), data.Length, vs[..k])
        invariant deserLoc == if serLoc == old(serLoc) then old(deserLoc) else 0
      {
        assert vs[..k + 1][..k] == vs[..k];
        status := Serialize(vs[k]);
        if status != OK {
          PutAllStops(old(Written()), data.Length, vs, k + 1);
          return;
        }
      }
      assert vs[..|vs|] == vs;
    }

    /** Deserializes a list of types in turn, up to the first failure. */
    method DeserializeAll(ts: seq<Type>) returns (ok: bool, values: seq<Value>)
      requires Valid() && AllTypes(ts)
      modifies `deserLoc
      ensures Valid() && Read(ok, values, Left()) == GetAll(old(Left()), ts)
    {
      ok, values := true, [];
      for k := 0 to |ts|
        invariant Valid() && ok && Read(ok, values, Left()) == GetAll(old(Left()), ts[..k])
      {
        assert ts[..k + 1][..k] == ts[..k];
        ghost var left, at := Left(), deserLoc;
        var status, value := Deserialize(ts[k]);
        assert Left() == left[deserLoc - at..];
        if status != OK {
          ok := false;
          GetAllStops(old(Left()), ts, k + 1);
          return;
        }
        values := values + [value];
      }
      assert ts[..|ts|] == ts;
    }

    /** A list that fits an empty buffer is read back unchanged, and nothing is left. */
    method WriteAndRead(vs: seq<Value>) returns (ok: bool, values: seq<Value>)
      requires Valid() && serLoc == 0 && deserLoc == 0 && AllReadable(vs) && AllValues(vs)
      modifies this, data
      ensures Valid() && (ok <==> |EncodeAll(vs)| <= data.Length)
      ensures ok ==> values == vs && GetBuffLeft() == 0
    {
      values := [];
      PutAllIff([], data.Length, vs);
      assert Written() == [];
      var status := SerializeAll(vs);
      if status != OK {
        return false, values;
      }
      ListRoundTrip(vs, []);
      assert [] + EncodeAll(vs) == EncodeAll(vs) == EncodeAll(vs) + [];
      assert Left() == Written()[0..] == EncodeAll(vs);
      ok, values := DeserializeAll(TypesOf(vs));
    }

    method DeserializeSkip(n: nat) returns (status: Status)
      requires Valid()
      modifies `deserLoc
      ensures Valid()
      ensures status == if old(Left()) == [] then BUFFER_EMPTY else if |old(Left())| < n then SIZE_MISMATCH else OK
      ensures Left() == if status == OK then old(Left())[n..] else old(Left())
    {
      if serLoc == deserLoc {
        return BUFFER_EMPTY;
      } else if serLoc - deserLoc < n {
        return SIZE_MISMATCH;
      }
      deserLoc := deserLoc + n;
      return OK;
    }

    /**
     copyRaw: replaces the contents of another buffer with bytes from the read cursor on.  It does
     not look at the write cursor: the cursors stay in order exactly if that much was left unread.
     */
    method CopyRaw(dest: SerialBuffer, size: nat) returns (status: Status)
      requires Valid() && dest.Valid() && dest != this && dest.data != data
      requires size <= dest.data.Length ==> deserLoc + size <= data.Length
      modifies `deserLoc, dest, dest.data
      ensures dest.Valid() && serLoc == old(serLoc)
      ensures status == if size <= dest.data.Length then OK else NO_ROOM_LEFT
      ensures deserLoc == if status == OK then old(deserLoc) + size else old(deserLoc)
      ensures dest.Written() == if status == OK then old(data[deserLoc..deserLoc + size]) else old(dest.Written())
      ensures Valid() <==> status != OK || size <= |old(Left())|
    {
      if dest.data.Length < size {
        return NO_ROOM_LEFT;
      }
      status := dest.SetBuff(data[deserLoc..deserLoc + size]);
      if status == OK {
        deserLoc := deserLoc + size;
      }
    }

    /** copyRawOffset: moves bytes from the unread part of this buffer to the end of another. */
    method CopyRawOffset(dest: SerialBuffer, size: nat) returns (status: Status)
      requires Valid() && dest.Valid() && dest != this && dest.data != data
      modifies `deserLoc, dest, dest.data
      ensures Valid() && dest.Valid()
      ensures status == if dest.data.Length < size + old(dest.serLoc) then NO_ROOM_LEFT
                        else if |old(Left())| < size then SIZE_MISMATCH else OK
      ensures Left() == if status == OK then old(Left())[size..] else old(Left())
      ensures dest.Written() == if status == OK then old(dest.Written()) + old(Left())[..size] else old(dest.Written())
    {
      if dest.data.Length < size + dest.serLoc {
        return NO_ROOM_LEFT;
      }
      if serLoc - deserLoc < size {
        return SIZE_MISMATCH;
      }
      status := dest.PushBytes(data[deserLoc..deserLoc + size]);
      if status == OK {
        deserLoc := deserLoc + size;
      }
    }
  }
}
