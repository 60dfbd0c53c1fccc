/**
 The bytes of serialized values and of file packets by position, and the exact reasons for which the
 serializer refuses to read.
 */
module WireFormat {
  import opened Serialization
  import opened FilePackets
  import opened MachineWords
  import opened Sequences

  // ---------------------------------------------------------------------------
  // Values
  // ---------------------------------------------------------------------------

  lemma OneByte(n: nat)
    requires n < 256
    ensures BigEndian(n, 1) == [n]
  {
    BigEndianByte(n, 1, 0);
  }

  lemma TwoBytes(n: nat)
    ensures BigEndian(n, 2) == [n / 0x100 % 256, n % 256]
  {
    Powers();
    BigEndianByte(n, 2, 0);
    BigEndianByte(n, 2, 1);
  }

  lemma ThreeBytesPower()
    ensures Pow256(3) == 0x100_0000
  {
  }

  lemma FourBytes(n: nat)
    ensures BigEndian(n, 4) == [n / 0x100_0000 % 256, n / 0x1_0000 % 256, n / 0x100 % 256, n % 256]
  {
    Powers();
    ThreeBytesPower();
    BigEndianByte(n, 4, 0);
    BigEndianByte(n, 4, 1);
    BigEndianByte(n, 4, 2);
    BigEndianByte(n, 4, 3);
  }

  /** Two's complement: a negative number is written as itself plus 256^w, and the top bit is its sign. */
  lemma TwosComplement(w: nat, i: int)
    requires Width(w) && FitsSigned(i, w)
    ensures Number(Encode(SInt(w, i))) == i + (if i < 0 then Pow256(w) else 0)
    ensures 2 * Number(Encode(SInt(w, i))) >= Pow256(w) <==> i < 0
  {
    NumberOfBigEndian(Unsigned(i, w), w);
  }

  lemma BoolBytes()
    ensures Encode(Bool(true)) == [0xFF] && Encode(Bool(false)) == [0x00]
  {
  }

  /** A block is its length in 16 bits, high byte first, and its bytes. */
  lemma BlockBytes(bytes: seq<Byte>)
    ensures Encode(Block(bytes)) == [|bytes| / 0x100 % 256, |bytes| % 256] + bytes
  {
    TwoBytes(|bytes|);
  }

  // ---------------------------------------------------------------------------
  // Refusals
  // ---------------------------------------------------------------------------

  /** The length that stands in front of a block. */
  ghost function StoredLength(left: seq<Byte>): nat
    requires |left| >= 2
  {
    0x100 * left[0] as nat + left[1]
  }

  lemma StoredLengthIs(left: seq<Byte>)
    requires |left| >= 2
    ensures GetNumber(left, 2) == Got(OK, UInt(2, StoredLength(left)), 2)
  {
    var two := left[..2];
    assert two == [left[0]] + [left[1]] && two[..1] == [left[0]] && two[..1][..0] == [];
    assert Number(two[..1]) == left[0];
  }

  /** The value is longer than what is left, or, for a block, than the caller's room. */
  ghost predicate TooLong(left: seq<Byte>, t: Type) {
    match t
    case UIntType(w) => |left| < w
    case SIntType(w) => |left| < w
    case BoolType => false
    case BlockType(room) => |left| < 2 || StoredLength(left) > |left| - 2 || StoredLength(left) > room
  }

  /** When each status is given: nothing left; too long a value; a byte that is no boolean. */
  lemma StatusesAre(left: seq<Byte>, t: Type)
    requires IsType(t)
    ensures Get(left, t).status ==
            if left == [] then BUFFER_EMPTY
            else if TooLong(left, t) then SIZE_MISMATCH
            else if t.BoolType? && left[0] != 0xFF && left[0] != 0x00 then FORMAT_ERROR
            else OK
  {
    if t.BlockType? && |left| >= 2 {
      StoredLengthIs(left);
    }
  }

  /** A block that is accepted is the one announced by the two bytes before it, and fits the caller's room. */
  lemma AcceptedBlockFits(left: seq<Byte>, room: nat)
    requires Get(left, BlockType(room)).status == OK
    ensures |left| >= 2 + StoredLength(left) && StoredLength(left) <= room
    ensures Get(left, BlockType(room)) ==
            Got(OK, Block(left[2..2 + StoredLength(left)]), 2 + StoredLength(left))
  {
    StatusesAre(left, BlockType(room));
    StoredLengthIs(left);
  }

  // ---------------------------------------------------------------------------
  // File packets
  // ---------------------------------------------------------------------------

  /** The 32-bit number at position k, most significant byte first. */
  ghost predicate NumberAt(b: seq<Byte>, k: nat, n: nat) {
    && k + 4 <= |b|
    && b[k] == n / 0x100_0000 % 256 && b[k + 1] == n / 0x1_0000 % 256
    && b[k + 2] == n / 0x100 % 256 && b[k + 3] == n % 256
  }

  /** These bytes at position k. */
  ghost predicate BytesAt(b: seq<Byte>, k: nat, bytes: seq<Byte>) {
    k + |bytes| <= |b| && b[k..k + |bytes|] == bytes
  }

  lemma NumberLater(before: seq<Byte>, n: nat, after: seq<Byte>)
    ensures NumberAt(before + (BigEndian(n, 4) + after), |before|, n)
  {
    FourBytes(n);
    var b := before + (BigEndian(n, 4) + after);
    assert b[|before|..|before| + 4] == BigEndian(n, 4);
    forall j: nat | j < 4
      ensures b[|before| + j] == BigEndian(n, 4)[j]
    {
    }
    assert b[|before| + 0] == BigEndian(n, 4)[0] && b[|before| + 1] == BigEndian(n, 4)[1];
    assert b[|before| + 2] == BigEndian(n, 4)[2] && b[|before| + 3] == BigEndian(n, 4)[3];
  }

  /** Why a number of w bytes cannot be read at position k; OK if it can. */
  ghost function Missing(b: seq<Byte>, k: nat, w: nat): Status {
    if |b| <= k then BUFFER_EMPTY else if |b| < k + w then SIZE_MISMATCH else OK
  }

  /** Why the two paths at position 9 cannot be read. */
  ghost function BadPaths(b: seq<Byte>): Status
    requires |b| >= 9
  {
    if Missing(b, 9, 1) != OK then Missing(b, 9, 1)
    else
      var k := 10 + b[9] as nat;
      if |b| < k then SIZE_MISMATCH
      else if Missing(b, k, 1) != OK then Missing(b, k, 1)
      else if |b| < k + 1 + b[k] then SIZE_MISMATCH
      else OK
  }

  /** Why the bytes of a data packet cannot be read. */
  ghost function BadBytes(b: seq<Byte>): Status
    requires |b| >= 9
  {
    if Missing(b, 9, 2) != OK then Missing(b, 9, 2)
    else if |b| != 11 + 0x100 * b[9] as nat + b[10] then SIZE_MISMATCH
    else OK
  }

  /** Why some bytes are no packet, by position; types other than these stop at an assertion. */
  ghost function Refusal(b: seq<Byte>): Status {
    if Missing(b, 0, 1) != OK then Missing(b, 0, 1)
    else if Missing(b, 1, 4) != OK then Missing(b, 1, 4)
    else if b[0] == 3 then if |b| == 5 then OK else SIZE_MISMATCH
    else if b[0] == 255 then TYPE_MISMATCH
    else if b[0] > 3 then OK
    else if Missing(b, 5, 4) != OK then Missing(b, 5, 4)
    else if b[0] == 0 then BadPaths(b)
    else if b[0] == 1 then BadBytes(b)
    else OK
  }

  lemma TakeAt(b: seq<Byte>, k: nat, w: nat)
    requires k <= |b| && w > 0
    ensures var t := TakeNumber(b[k..], w);
            if Missing(b, k, w) == OK
            then t == Taken(Number(b[k..k + w]), b[k + w..])
            else t == Stop(Missing(b, k, w))
  {
    if Missing(b, k, w) == OK {
      assert b[k..][..w] == b[k..k + w] && b[k..][w..] == b[k + w..];
    }
  }

  lemma OneDigit(b: Byte)
    ensures Number([b]) == b
  {
    assert [b][..0] == [];
  }

  lemma PathAt(b: seq<Byte>, k: nat)
    requires k < |b|
    ensures var t := TakePath(b[k..]);
            if |b| < k + 1 + b[k] then t == Stop(SIZE_MISMATCH)
            else t == Taken(b[k + 1..k + 1 + b[k]], b[k + 1 + b[k]..])
  {
    TakeAt(b, k, 1);
    assert b[k..k + 1] == [b[k]];
    OneDigit(b[k]);
    if |b| >= k + 1 + b[k] {
      assert b[k + 1..][..b[k]] == b[k + 1..k + 1 + b[k]] && b[k + 1..][b[k]..] == b[k + 1 + b[k]..];
    }
  }

  lemma StartRefusal(b: seq<Byte>, index: nat)
    requires |b| >= 9
    ensures var o := StartFrom(index, b[5..]);
            if BadPaths(b) == OK then o.Accepted? else o == Refused(BadPaths(b))
  {
    TakeAt(b, 5, 4);
    if |b| > 9 {
      PathAt(b, 9);
      var k := 10 + b[9] as nat;
      if |b| > k {
        PathAt(b, k);
      } else if |b| == k {
        TakeAt(b, k, 1);
      }
    } else {
      TakeAt(b, 9, 1);
    }
  }

  lemma DataRefusal(b: seq<Byte>, index: nat)
    requires |b| >= 9
    ensures var o := DataFrom(index, b[5..]);
            if BadBytes(b) == OK then o.Accepted? else o == Refused(BadBytes(b))
  {
    TakeAt(b, 5, 4);
    TakeAt(b, 9, 2);
    if |b| >= 11 {
      StoredLengthIs(b[9..]);
      assert b[9..][..2] == b[9..11];
    }
  }

  lemma TypeAt(b: seq<Byte>)
    requires |b| >= 5
    ensures exists index: nat :: FromBytes(b) == BodyFrom(b[0], index, b[5..])
  {
    TakeAt(b, 0, 1);
    TakeAt(b, 1, 4);
    assert b[0..] == b && b[0..1] == [b[0]];
    OneDigit(b[0]);
    var index := Number(b[1..5]);
    assert FromBytes(b) == BodyFrom(b[0], index, b[5..]);
  }

  lemma ShortHeader(b: seq<Byte>)
    requires |b| < 5
    ensures FromBytes(b) == Refused(Refusal(b))
  {
    assert b[0..] == b;
    TakeAt(b, 0, 1);
    if |b| > 0 {
      TakeAt(b, 1, 4);
    }
  }

  /** Every refusal has the status that the positions of the fields tell. */
  lemma RefusalsAre(b: seq<Byte>)
    ensures var o := FromBytes(b);
            && (o.Refused? <==> Refusal(b) != OK)
            && (o.Refused? ==> o.status == Refusal(b))
  {
    if |b| < 5 {
      ShortHeader(b);
    } else {
      TypeAt(b);
      var index: nat :| FromBytes(b) == BodyFrom(b[0], index, b[5..]);
      if |b| >= 9 {
        StartRefusal(b, index);
        DataRefusal(b, index);
      }
      TakeAt(b, 5, 4);
    }
  }

  /** Every packet begins with its type, 0 to 3, and its index. */
  lemma HeaderBytes(p: Packet)
    requires WellFormed(p)
    ensures var b := ToBytes(p);
            && |b| >= 5 && b[0] == (match p case Start(_, _, _, _) => 0 case Data(_, _, _) => 1
                                    case End(_, _) => 2 case Cancel(_) => 3)
            && NumberAt(b, 1, p.index)
  {
    OneByte(TypeOfPacket(p));
    Regroup([TypeOfPacket(p)], BigEndian(p.index, 4), Body(p));
    NumberLater([TypeOfPacket(p)], p.index, Body(p));
  }

  /** Two fields with a length byte each, behind some other bytes. */
  lemma TwoFields(before: seq<Byte>, x: Byte, first: seq<Byte>, y: Byte, second: seq<Byte>, b: seq<Byte>)
    requires b == before + ([x] + first + ([y] + second))
    ensures var k := |before| + 1 + |first|;
            && |b| == k + 1 + |second|
            && b[|before|] == x && BytesAt(b, |before| + 1, first)
            && b[k] == y && BytesAt(b, k + 1, second)
  {
  }

  /** Start: size of the file, length and bytes of the source path, length and bytes of the destination path. */
  lemma StartBytes(index: nat, size: nat, source: seq<Byte>, destination: seq<Byte>)
    requires WellFormed(Start(index, size, source, destination))
    ensures var b, k := ToBytes(Start(index, size, source, destination)), 10 + |source|;
            && NumberAt(b, 5, size)
            && |b| == k + 1 + |destination|
            && b[9] == |source| && BytesAt(b, 10, source)
            && b[k] == |destination| && BytesAt(b, k + 1, destination)
  {
    var p := Start(index, size, source, destination);
    var before := Header(p) + BigEndian(size, 4);
    NumberLater(Header(p), size, Path(source) + Path(destination));
    OneByte(|source|);
    OneByte(|destination|);
    Regroup(Header(p), BigEndian(size, 4), Path(source) + Path(destination));
    TwoFields(before, |source|, source, |destination|, destination, ToBytes(p));
  }

  /** A field with two length bytes, behind some other bytes. */
  lemma OneField(before: seq<Byte>, x: Byte, y: Byte, bytes: seq<Byte>, b: seq<Byte>)
    requires b == before + ([x, y] + bytes)
    ensures var k := |before|;
            |b| == k + 2 + |bytes| && b[k] == x && b[k + 1] == y && BytesAt(b, k + 2, bytes)
  {
  }

  /** Data: offset, length in 16 bits, bytes. */
  lemma DataBytes(index: nat, offset: nat, bytes: seq<Byte>)
    requires WellFormed(Data(index, offset, bytes))
    ensures var b := ToBytes(Data(index, offset, bytes));
            && NumberAt(b, 5, offset) && |b| == 11 + |bytes|
            && b[9] == |bytes| / 0x100 && b[10] == |bytes| % 256 && BytesAt(b, 11, bytes)
  {
    var p, n := Data(index, offset, bytes), |bytes|;
    Powers();
    NumberLater(Header(p), offset, BigEndian(n, 2) + bytes);
    TwoBytes(n);
    assert n / 0x100 % 256 == n / 0x100;
    Regroup(Header(p), BigEndian(offset, 4), BigEndian(n, 2) + bytes);
    OneField(Header(p) + BigEndian(offset, 4), n / 0x100, n % 256, bytes, ToBytes(p));
  }

  /** End: the checksum.  Cancel: nothing but the header. */
  lemma EndBytes(index: nat, checksum: nat)
    requires WellFormed(End(index, checksum))
    ensures NumberAt(ToBytes(End(index, checksum)), 5, checksum) && |ToBytes(End(index, checksum))| == 9
    ensures |ToBytes(Cancel(index))| == 5
  {
    var p := End(index, checksum);
    NumberLater(Header(p), checksum, []);
    assert BigEndian(checksum, 4) + [] == BigEndian(checksum, 4);
  }
}
