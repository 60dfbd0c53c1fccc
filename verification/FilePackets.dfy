/**
 The packets of a file transfer: start, data, end and cancel, each behind a header of type
 byte and sequence index, on top of the serializer.
 */
module FilePackets {
  import opened Serialization
  import opened MachineWords
  import opened Sequences

  datatype Packet =
    | Start(index: nat, fileSize: nat, source: seq<Byte>, destination: seq<Byte>)
    | Data(index: nat, byteOffset: nat, bytes: seq<Byte>)
    | End(index: nat, checksum: nat)
    | Cancel(index: nat)

  const T_START: Byte := 0
  const T_DATA: Byte := 1
  const T_END: Byte := 2
  const T_CANCEL: Byte := 3
  const T_NONE: Byte := 255

  /** The fields fit the sizes of the source's members. */
  predicate WellFormed(p: Packet) {
    && p.index < Pow256(4)
    && match p
       case Start(_, size, source, destination) => size < Pow256(4) && |source| < 256 && |destination| < 256
       case Data(_, offset, bytes) => offset < Pow256(4) && |bytes| < Pow256(2)
       case End(_, checksum) => checksum < Pow256(4)
       case Cancel(_) => true
  }

  function TypeOfPacket(p: Packet): Byte {
    match p
    case Start(_, _, _, _) => T_START
    case Data(_, _, _) => T_DATA
    case End(_, _) => T_END
    case Cancel(_) => T_CANCEL
  }

  function Header(p: Packet): seq<Byte> {
    BigEndian(TypeOfPacket(p), 1) + BigEndian(p.index, 4)
  }

  function Path(path: seq<Byte>): seq<Byte> {
    BigEndian(|path|, 1) + path
  }

  function Body(p: Packet): seq<Byte> {
    match p
    case Start(_, size, source, destination) => BigEndian(size, 4) + (Path(source) + Path(destination))
    case Data(_, offset, bytes) => BigEndian(offset, 4) + (BigEndian(|bytes|, 2) + bytes)
    case End(_, checksum) => BigEndian(checksum, 4)
    case Cancel(_) => []
  }

  function ToBytes(p: Packet): seq<Byte> {
    Header(p) + Body(p)
  }

  /** bufferSize, summed up from the parts as in the source. */
  function BufferSize(p: Packet): nat {
    match p
    case Start(_, _, source, destination) => 5 + 4 + (1 + |source|) + (1 + |destination|)
    case Data(_, _, bytes) => 5 + 4 + 2 + |bytes|
    case End(_, _) => 5 + 4
    case Cancel(_) => 5
  }

  /** The size function counts the bytes. */
  lemma SizeIsLength(p: Packet)
    ensures |ToBytes(p)| == BufferSize(p)
  {
  }

  // ---------------------------------------------------------------------------
  // Decoding
  // ---------------------------------------------------------------------------

  /** A field off the front of some bytes, or the status that stops the decoding. */
  datatype Taken<T> = Taken(value: T, rest: seq<Byte>) | Stop(status: Status)

  function TakeNumber(b: seq<Byte>, w: nat): Taken<nat> {
    var g := GetNumber(b, w);
    if g.status == OK then Taken(g.value.n, b[w..]) else Stop(g.status)
  }

  function TakeBytes(b: seq<Byte>, n: nat): Taken<seq<Byte>> {
    if n <= |b| then Taken(b[..n], b[n..]) else Stop(SIZE_MISMATCH)
  }

  function TakePath(b: seq<Byte>): Taken<seq<Byte>> {
    var length := TakeNumber(b, 1);
    if length.Stop? then Stop(length.status) else TakeBytes(length.rest, length.value)
  }

  /** A packet; a refusal; or the failed assertion on an unknown type. */
  datatype Outcome = Accepted(packet: Packet) | Refused(status: Status) | Asserts

  function StartFrom(index: nat, b: seq<Byte>): Outcome {
    var size := TakeNumber(b, 4);
    if size.Stop? then Refused(size.status)
    else
      var source := TakePath(size.rest);
      if source.Stop? then Refused(source.status)
      else
        var destination := TakePath(source.rest);
        if destination.Stop? then Refused(destination.status)
        else Accepted(Start(index, size.value, source.value, destination.value))
  }

  function DataFrom(index: nat, b: seq<Byte>): Outcome {
    var offset := TakeNumber(b, 4);
    if offset.Stop? then Refused(offset.status)
    else
      var size := TakeNumber(offset.rest, 2);
      if size.Stop? then Refused(size.status)
      else if |size.rest| != size.value then Refused(SIZE_MISMATCH)
      else Accepted(Data(index, offset.value, size.rest))
  }

  function EndFrom(index: nat, b: seq<Byte>): Outcome {
    var checksum := TakeNumber(b, 4);
    if checksum.Stop? then Refused(checksum.status) else Accepted(End(index, checksum.value))
  }

  function BodyFrom(type_: nat, index: nat, b: seq<Byte>): Outcome {
    if type_ == T_START then StartFrom(index, b)
    else if type_ == T_DATA then DataFrom(index, b)
    else if type_ == T_END then EndFrom(index, b)
    else if type_ == T_CANCEL then if |b| != 0 then Refused(SIZE_MISMATCH) else Accepted(Cancel(index))
    else if type_ == T_NONE then Refused(TYPE_MISMATCH)
    else Asserts
  }

  function FromBytes(b: seq<Byte>): Outcome {
    var type_ := TakeNumber(b, 1);
    if type_.Stop? then Refused(type_.status)
    else
      var index := TakeNumber(type_.rest, 4);
      if index.Stop? then Refused(index.status) else BodyFrom(type_.value, index.value, index.rest)
  }

  // ---------------------------------------------------------------------------
  // The two directions
  // ---------------------------------------------------------------------------

  lemma TakeOfNumber(n: nat, w: nat, tail: seq<Byte>)
    requires n < Pow256(w) && w > 0
    ensures TakeNumber(BigEndian(n, w) + tail, w) == Taken(n, tail)
  {
    GetNumberOf(n, w, tail);
    Glue(BigEndian(n, w), tail);
  }

  lemma TakeOfPath(path: seq<Byte>, tail: seq<Byte>)
    requires |path| < 256
    ensures TakePath(Path(path) + tail) == Taken(path, tail)
  {
    Powers();
    Regroup(BigEndian(|path|, 1), path, tail);
    TakeOfNumber(|path|, 1, path + tail);
    Glue(path, tail);
  }

  lemma StartRoundTrip(p: Packet, tail: seq<Byte>)
    requires p.Start? && WellFormed(p)
    ensures StartFrom(p.index, Body(p) + tail) == Accepted(p)
  {
    Regroup(BigEndian(p.fileSize, 4), Path(p.source) + Path(p.destination), tail);
    Regroup(Path(p.source), Path(p.destination), tail);
    TakeOfNumber(p.fileSize, 4, Path(p.source) + (Path(p.destination) + tail));
    TakeOfPath(p.source, Path(p.destination) + tail);
    TakeOfPath(p.destination, tail);
  }

  lemma DataRoundTrip(p: Packet)
    requires p.Data? && WellFormed(p)
    ensures DataFrom(p.index, Body(p)) == Accepted(p)
  {
    TakeOfNumber(p.byteOffset, 4, BigEndian(|p.bytes|, 2) + p.bytes);
    TakeOfNumber(|p.bytes|, 2, p.bytes);
  }

  lemma EndRoundTrip(p: Packet, tail: seq<Byte>)
    requires p.End? && WellFormed(p)
    ensures EndFrom(p.index, Body(p) + tail) == Accepted(p)
  {
    TakeOfNumber(p.checksum, 4, tail);
  }

  lemma HeaderRoundTrip(p: Packet, tail: seq<Byte>)
    requires p.index < Pow256(4)
    ensures FromBytes(Header(p) + tail) == BodyFrom(TypeOfPacket(p), p.index, tail)
  {
    Powers();
    Regroup(BigEndian(TypeOfPacket(p), 1), BigEndian(p.index, 4), tail);
    TakeOfNumber(TypeOfPacket(p), 1, BigEndian(p.index, 4) + tail);
    TakeOfNumber(p.index, 4, tail);
  }

  /** Bytes behind an encoded packet: ignored by start and end packets, refused by data and cancel packets. */
  predicate TailAllowed(p: Packet, tail: seq<Byte>) {
    p.Start? || p.End? || tail == []
  }

  /** What was encoded decodes to the same packet. */
  lemma RoundTrip(p: Packet, tail: seq<Byte>)
    requires WellFormed(p) && TailAllowed(p, tail)
    ensures FromBytes(ToBytes(p) + tail) == Accepted(p)
  {
    Regroup(Header(p), Body(p), tail);
    HeaderRoundTrip(p, Body(p) + tail);
    match p
    case Start(_, _, _, _) => StartRoundTrip(p, tail);
    case Data(_, _, _) =>
      assert Body(p) + tail == Body(p);
      DataRoundTrip(p);
    case End(_, _) => EndRoundTrip(p, tail);
    case Cancel(_) =>
  }

  lemma NumberTaken(b: seq<Byte>, w: nat)
    requires w > 0 && TakeNumber(b, w).Taken?
    ensures var t := TakeNumber(b, w); t.value < Pow256(w) && b == BigEndian(t.value, w) + t.rest
  {
    NumberRead(b, w);
  }

  lemma PathTaken(b: seq<Byte>)
    requires TakePath(b).Taken?
    ensures var t := TakePath(b); |t.value| < 256 && b == Path(t.value) + t.rest
  {
    NumberTaken(b, 1);
    Powers();
    var length := TakeNumber(b, 1);
    Regroup(BigEndian(length.value, 1), length.rest[..length.value], length.rest[length.value..]);
    assert length.rest == length.rest[..length.value] + length.rest[length.value..];
  }

  lemma StartTaken(index: nat, b: seq<Byte>) returns (tail: seq<Byte>)
    requires StartFrom(index, b).Accepted? && index < Pow256(4)
    ensures var p := StartFrom(index, b).packet; WellFormed(p) && p.Start? && p.index == index && b == Body(p) + tail
  {
    var size := TakeNumber(b, 4);
    var source := TakePath(size.rest);
    var destination := TakePath(source.rest);
    NumberTaken(b, 4);
    PathTaken(size.rest);
    PathTaken(source.rest);
    tail := destination.rest;
    Regroup(Path(source.value), Path(destination.value), tail);
    Regroup(BigEndian(size.value, 4), Path(source.value) + Path(destination.value), tail);
  }

  lemma DataTaken(index: nat, b: seq<Byte>)
    requires DataFrom(index, b).Accepted? && index < Pow256(4)
    ensures var p := DataFrom(index, b).packet; WellFormed(p) && p.Data? && p.index == index && b == Body(p)
  {
    var offset := TakeNumber(b, 4);
    NumberTaken(b, 4);
    NumberTaken(offset.rest, 2);
  }

  lemma BodyTaken(type_: nat, index: nat, b: seq<Byte>) returns (tail: seq<Byte>)
    requires BodyFrom(type_, index, b).Accepted? && index < Pow256(4)
    ensures var p := BodyFrom(type_, index, b).packet;
            && WellFormed(p) && TypeOfPacket(p) == type_ && p.index == index
            && b == Body(p) + tail && TailAllowed(p, tail)
  {
    tail := [];
    if type_ == T_START {
      tail := StartTaken(index, b);
    } else if type_ == T_DATA {
      DataTaken(index, b);
      assert b + [] == b;
    } else if type_ == T_END {
      NumberTaken(b, 4);
      tail := TakeNumber(b, 4).rest;
    }
  }

  /** Accepted bytes begin with the encoding of the packet; data and cancel packets are exactly that. */
  lemma AcceptedIsEncoded(b: seq<Byte>) returns (tail: seq<Byte>)
    requires FromBytes(b).Accepted?
    ensures var p := FromBytes(b).packet; WellFormed(p) && b == ToBytes(p) + tail && TailAllowed(p, tail)
  {
    var type_ := TakeNumber(b, 1);
    var index := TakeNumber(type_.rest, 4);
    NumberTaken(b, 1);
    NumberTaken(type_.rest, 4);
    tail := BodyTaken(type_.value, index.value, index.rest);
    var p := FromBytes(b).packet;
    Regroup(Header(p), Body(p), tail);
    Regroup(BigEndian(type_.value, 1), BigEndian(index.value, 4), index.rest);
  }

  /** Exactly the encodings of well-formed packets, with a tail where allowed, are accepted. */
  lemma AcceptedIff(b: seq<Byte>)
    ensures FromBytes(b).Accepted? <==>
            exists p, tail :: WellFormed(p) && TailAllowed(p, tail) && b == ToBytes(p) + tail
  {
    if FromBytes(b).Accepted? {
      var tail := AcceptedIsEncoded(b);
      assert b == ToBytes(FromBytes(b).packet) + tail;
    }
    forall p, tail | WellFormed(p) && TailAllowed(p, tail) && b == ToBytes(p) + tail
      ensures FromBytes(b).Accepted?
    {
      RoundTrip(p, tail);
    }
  }

  predicate KnownType(t: Byte) {
    t == T_START || t == T_DATA || t == T_END || t == T_CANCEL || t == T_NONE
  }

  /** The assertion on the type fires exactly when a whole header with an unknown type is there. */
  lemma AssertsIff(b: seq<Byte>)
    ensures FromBytes(b).Asserts? <==> |b| >= 5 && !KnownType(b[0])
  {
    if |b| >= 1 {
      assert b[..1][..0] == [] && Number(b[..1]) == b[0];
    }
  }

  // ---------------------------------------------------------------------------
  // The methods
  // ---------------------------------------------------------------------------

  method HeaderTo(p: Packet, s: SerialBuffer) returns (status: Status)
    requires s.Valid() && s.Written() == []
    modifies s, s.data
    ensures s.Valid() && forall k: nat | s.serLoc <= k < s.data.Length :: s.data[k] == old(s.data[k])
    ensures status == if 5 <= s.data.Length then OK else NO_ROOM_LEFT
    ensures status == OK ==> s.Written() == Header(p)
  {
    status := s.SerializeNumber(TypeOfPacket(p), 1);
    if status != OK {
      return;
    }
    status := s.SerializeNumber(p.index, 4);
  }

  method PathTo(path: seq<Byte>, s: SerialBuffer) returns (status: Status)
    requires s.Valid()
    modifies s, s.data
    ensures s.Valid() && forall k: nat | s.serLoc <= k < s.data.Length :: s.data[k] == old(s.data[k])
    ensures status == if |old(s.Written())| + |Path(path)| <= s.data.Length then OK else NO_ROOM_LEFT
    ensures status == OK ==> s.Written() == old(s.Written()) + Path(path)
    ensures s.serLoc >= old(s.serLoc)
  {
    ghost var before := s.Written();
    status := s.SerializeNumber(|path|, 1);
    if status != OK {
      return;
    }
    status := s.PushBytes(path);
    Regroup(before, BigEndian(|path|, 1), path);
  }

  lemma StartParts(p: Packet)
    requires p.Start?
    ensures Header(p) + BigEndian(p.fileSize, 4) + Path(p.source) + Path(p.destination) == ToBytes(p)
  {
    Regroup(Header(p) + BigEndian(p.fileSize, 4), Path(p.source), Path(p.destination));
    Regroup(Header(p), BigEndian(p.fileSize, 4), Path(p.source) + Path(p.destination));
  }

  lemma DataParts(p: Packet)
    requires p.Data?
    ensures Header(p) + BigEndian(p.byteOffset, 4) + BigEndian(|p.bytes|, 2) + p.bytes == ToBytes(p)
  {
    Regroup(Header(p) + BigEndian(p.byteOffset, 4), BigEndian(|p.bytes|, 2), p.bytes);
    Regroup(Header(p), BigEndian(p.byteOffset, 4), BigEndian(|p.bytes|, 2) + p.bytes);
  }

  method StartTo(p: Packet, s: SerialBuffer) returns (status: Status)
    requires p.Start? && s.Valid() && s.Written() == []
    modifies s, s.data
    ensures s.Valid() && forall k: nat | s.serLoc <= k < s.data.Length :: s.data[k] == old(s.data[k])
    ensures status == if BufferSize(p) <= s.data.Length then OK else NO_ROOM_LEFT
    ensures status == OK ==> s.Written() == ToBytes(p)
  {
    status := HeaderTo(p, s);
    if status != OK {
      return;
    }
    status := s.SerializeNumber(p.fileSize, 4);
    if status != OK {
      return;
    }
    status := PathTo(p.source, s);
    if status != OK {
      return;
    }
    status := PathTo(p.destination, s);
    StartParts(p);
  }

  method DataTo(p: Packet, s: SerialBuffer) returns (status: Status)
    requires p.Data? && s.Valid() && s.Written() == []
    modifies s, s.data
    ensures s.Valid() && forall k: nat | s.serLoc <= k < s.data.Length :: s.data[k] == old(s.data[k])
    ensures status == if BufferSize(p) <= s.data.Length then OK else NO_ROOM_LEFT
    ensures status == OK ==> s.Written() == ToBytes(p)
  {
    status := HeaderTo(p, s);
    if status != OK {
      return;
    }
    status := s.SerializeNumber(p.byteOffset, 4);
    if status != OK {
      return;
    }
    status := s.SerializeNumber(|p.bytes|, 2);
    if status != OK {
      return;
    }
    status := s.PushBytes(p.bytes);
    DataParts(p);
  }

  /** toBuffer succeeds exactly when the buffer has room, and then writes exactly the packet. */
  method ToBuffer(p: Packet, buffer: array<Byte>) returns (status: Status)
    requires WellFormed(p)
    modifies buffer
    ensures status == if BufferSize(p) <= buffer.Length then OK else NO_ROOM_LEFT
    ensures status == OK ==> buffer[..] == ToBytes(p) + old(buffer[..])[BufferSize(p)..]
  {
    var s := new SerialBuffer.Over(buffer);
    SizeIsLength(p);
    match p
    case Start(_, _, _, _) => status := StartTo(p, s);
    case Data(_, _, _) => status := DataTo(p, s);
    case End(_, checksum) =>
      status := HeaderTo(p, s);
      if status == OK {
        status := s.SerializeNumber(checksum, 4);
      }
    case Cancel(_) =>
      status := HeaderTo(p, s);
      assert ToBytes(p) == Header(p);
    assert buffer[..] == s.Written() + buffer[s.serLoc..];
  }

  /** A status and a value, as one outcome of taking a field. */
  ghost predicate Took<T>(t: Taken<T>, status: Status, value: T, rest: seq<Byte>) {
    if status == OK then t == Taken(value, rest) else t == Stop(status)
  }

  method NumberFrom(s: SerialBuffer, w: nat) returns (status: Status, n: nat)
    requires s.Valid() && w > 0
    modifies s
    ensures s.Valid() && s.serLoc == old(s.serLoc) && Took(TakeNumber(old(s.Left()), w), status, n, s.Left())
    ensures status == OK ==> s.deserLoc == old(s.deserLoc) + w
  {
    status, n := s.DeserializeNumber(w);
  }

  method PathFrom(s: SerialBuffer) returns (status: Status, path: seq<Byte>)
    requires s.Valid()
    modifies s
    ensures s.Valid() && s.serLoc == old(s.serLoc) && Took(TakePath(old(s.Left())), status, path, s.Left())
  {
    var length;
    path := [];
    status, length := NumberFrom(s, 1);
    if status != OK {
      return;
    }
    status, path := s.PopBytes(length);
  }

  method StartFromSerial(index: nat, s: SerialBuffer) returns (o: Outcome)
    requires s.Valid()
    modifies s
    ensures o == StartFrom(index, old(s.Left()))
  {
    var status, size, source, destination;
    status, size := NumberFrom(s, 4);
    if status != OK {
      return Refused(status);
    }
    status, source := PathFrom(s);
    if status != OK {
      return Refused(status);
    }
    status, destination := PathFrom(s);
    if status != OK {
      return Refused(status);
    }
    return Accepted(Start(index, size, source, destination));
  }

  /** The data are found in the buffer behind the fixed part of the packet. */
  method DataFromSerial(index: nat, s: SerialBuffer) returns (o: Outcome)
    requires s.Valid() && s.deserLoc == 5
    modifies s
    ensures o == DataFrom(index, old(s.Left()))
  {
    var status, offset, size;
    status, offset := NumberFrom(s, 4);
    if status != OK {
      return Refused(status);
    }
    status, size := NumberFrom(s, 2);
    if status != OK {
      return Refused(status);
    }
    if s.GetBuffLeft() != size {
      return Refused(SIZE_MISMATCH);
    }
    return Accepted(Data(index, offset, s.data[11..11 + size]));
  }

  method BodyFromSerial(type_: nat, index: nat, s: SerialBuffer) returns (o: Outcome)
    requires s.Valid() && s.deserLoc == 5
    modifies s
    ensures o == BodyFrom(type_, index, old(s.Left()))
  {
    if type_ == T_START {
      o := StartFromSerial(index, s);
    } else if type_ == T_DATA {
      o := DataFromSerial(index, s);
    } else if type_ == T_END {
      var status, checksum := NumberFrom(s, 4);
      o := if status != OK then Refused(status) else Accepted(End(index, checksum));
    } else if type_ == T_CANCEL {
      o := if s.GetBuffLeft() != 0 then Refused(SIZE_MISMATCH) else Accepted(Cancel(index));
    } else if type_ == T_NONE {
      o := Refused(TYPE_MISMATCH);
    } else {
      o := Asserts;
    }
  }

  /** The type and the index off the front. */
  method HeaderFrom(s: SerialBuffer) returns (status: Status, type_: nat, index: nat)
    requires s.Valid() && s.deserLoc == 0
    modifies s
    ensures s.Valid()
    ensures var t := TakeNumber(old(s.Left()), 1);
            if t.Stop? then status == t.status && status != OK
            else
              && Took(TakeNumber(t.rest, 4), status, index, s.Left())
              && (status == OK ==> type_ == t.value && s.deserLoc == 5)
  {
    index := 0;
    status, type_ := NumberFrom(s, 1);
    if status != OK {
      return;
    }
    status, index := NumberFrom(s, 4);
  }

  method FromBuffer(buffer: array<Byte>) returns (o: Outcome)
    ensures o == FromBytes(buffer[..])
  {
    var s := new SerialBuffer.Over(buffer);
    s.Fill();
    var status, type_, index := HeaderFrom(s);
    if status != OK {
      return Refused(status);
    }
    o := BodyFromSerial(type_, index, s);
  }
}
