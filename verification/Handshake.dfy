/**
 The Handshake packet of the Minecraft Java Edition protocol: parsing and printing with length
 framing (internal/proxy/protocol.go) and the status client's own printer (internal/minecraft/slp.go).
 */
module Handshake {
  import opened VarInt

  datatype Packet = Packet(version: Int32, address: Bytes, port: bv16, nextState: Int32)

  // ---------- lengths as int32 ----------

  /** The number an int32 bit pattern stands for when it is not negative. */
  function ToNat(v: Int32): (n: nat)
    decreases v
  {
    if FitsOneByte(v) then LowByte(v) as int
    else (MoreByte(v) & 0x7F) as int + 128 * ToNat(LogicalShift7(v))
  }

  function FromNat(n: nat): Int32 {
    if n < 128 then (n as bv8) as bv32 else Prepend((n % 128) as bv8, FromNat(n / 128))
  }

  /** Bounds for lengths below 2^31, one per group of seven bits. */
  function NatBound(p: Position): nat {
    match p
    case P0 => 0x8000_0000
    case P7 => 0x100_0000
    case P14 => 0x2_0000
    case P21 => 0x400
    case P28 => 8
  }

  predicate Bounded(v: Int32, p: Position) {
    match p
    case P0 => v <= 0x7FFF_FFFF
    case P7 => v <= 0xFF_FFFF
    case P14 => v <= 0x1_FFFF
    case P21 => v <= 0x3FF
    case P28 => v <= 7
  }

  lemma {:induction false} SmallNat(n: nat)
    requires n < 128
    ensures FitsOneByte((n as bv8) as bv32) && LowByte((n as bv8) as bv32) == n as bv8
    ensures (n as bv8) as int == n && n as bv8 & 0x80 == 0
    ensures n != 0 ==> n as bv8 != 0
  {
    hide FitsOneByte, LowByte;
    NatByte(n);
    SmallByte(n as bv8);
  }

  lemma {:induction false} NatByte(n: nat)
    requires n < 128
    ensures (n as bv8) as int == n && n as bv8 & 0x80 == 0
  {
  }

  lemma {:induction false} SmallByte(b: bv8)
    requires b & 0x80 == 0
    ensures FitsOneByte(b as bv32) && LowByte(b as bv32) == b && b as bv32 <= 0x7F && (b <= 7 ==> b as bv32 <= 7)
    ensures b != 0 ==> b as bv32 != 0
  {
  }

  lemma {:induction false} SmallBound(n: nat, p: Position)
    requires n < 128 && n < NatBound(p)
    ensures Bounded((n as bv8) as bv32, p)
  {
  }

  lemma {:induction false} PrependParts(b: bv8, w: Int32)
    requires b & 0x80 == 0 && w != 0 && w <= 0xFF_FFFF
    ensures !FitsOneByte(Prepend(b, w)) && Prepend(b, w) != 0
    ensures MoreByte(Prepend(b, w)) & 0x7F == b
    ensures LogicalShift7(Prepend(b, w)) == w
  {
    PrependHigh(b, w);
    PrependLow(b, w);
  }

  lemma {:induction false} PrependHigh(b: bv8, w: Int32)
    requires w != 0 && w <= 0xFF_FFFF
    ensures !FitsOneByte(Prepend(b, w)) && Prepend(b, w) != 0
    ensures LogicalShift7(Prepend(b, w)) == w
  {
  }

  lemma {:induction false} PrependLow(b: bv8, w: Int32)
    requires b & 0x80 == 0
    ensures MoreByte(Prepend(b, w)) & 0x7F == b
  {
  }

  lemma {:induction false} PrependBounded(b: bv8, w: Int32, p: Position)
    requires b & 0x80 == 0 && w != 0 && p != P28 && Bounded(w, After(p))
    ensures w <= 0xFF_FFFF && Bounded(Prepend(b, w), p)
  {
  }

  lemma {:induction false} NatRoundTrip(n: nat, p: Position)
    requires n < NatBound(p)
    ensures ToNat(FromNat(n)) == n && Bounded(FromNat(n), p)
    ensures n != 0 ==> FromNat(n) != 0
    decreases Left(p)
  {
    hide Bounded, FitsOneByte, LowByte, MoreByte, LogicalShift7, Prepend;
    if n < 128 {
      SmallNat(n);
      SmallByte(n as bv8);
      SmallBound(n, p);
    } else {
      var b, w := (n % 128) as bv8, FromNat(n / 128);
      SmallNat(n % 128);
      NatRoundTrip(n / 128, After(p));
      PrependBounded(b, w, p);
      hide ToNat, NatBound;
      NatOfPrepend(b, w);
    }
  }

  lemma {:induction false} NatOfPrepend(b: bv8, w: Int32)
    requires b & 0x80 == 0 && w != 0 && w <= 0xFF_FFFF
    ensures ToNat(Prepend(b, w)) == b as int + 128 * ToNat(w) && Prepend(b, w) != 0
  {
    hide FitsOneByte, LowByte, MoreByte, LogicalShift7, Prepend;
    PrependParts(b, w);
  }

  lemma {:induction false} BoundedIsNonNegative(v: Int32)
    requires Bounded(v, P0)
    ensures NonNegative(v)
  {
  }

  /** A length below 2^31 survives the trip through a non-negative int32. */
  lemma {:induction false} LengthRoundTrip(n: nat)
    requires n < 0x8000_0000
    ensures ToNat(FromNat(n)) == n && NonNegative(FromNat(n))
  {
    NatRoundTrip(n, P0);
    BoundedIsNonNegative(FromNat(n));
  }

  // ---------- printing ----------

  function PortBytes(port: bv16): Bytes {
    [(port >> 8) as bv8, (port & 0xFF) as bv8]
  }

  /** Packet ID 0, version, address with its length, port, next state. */
  function Payload(p: Packet): Bytes {
    Encode(0) + (Encode(p.version) + (Encode(FromNat(|p.address|)) + (p.address + (PortBytes(p.port) + Encode(p.nextState)))))
  }

  /** The length prefix and the data. */
  function Frame(data: Bytes): Bytes {
    Encode(FromNat(|data|)) + data
  }

  /** The proxy's printer; its VarInt loop only ends on non-negative values. */
  method WriteHandshakePacket(w: Bytes, packet: Packet) returns (written: Bytes)
    requires NonNegative(packet.version) && NonNegative(packet.nextState)
    requires |Payload(packet)| < 0x8000_0000
    ensures written == w + Frame(Payload(packet))
  {
    hide Encode, FromNat, NonNegative, PortBytes, Payload;
    PayloadIsLonger(packet);
    PayloadInPieces(packet);
    ZeroIsNonNegative();
    LengthRoundTrip(|packet.address|);
    LengthRoundTrip(|Payload(packet)|);
    var buf := ProxyWriteVarInt([], 0);
    buf := ProxyWriteVarInt(buf, packet.version);
    buf := ProxyWriteVarInt(buf, FromNat(|packet.address|));
    buf := buf + packet.address;
    buf := buf + PortBytes(packet.port);
    buf := ProxyWriteVarInt(buf, packet.nextState);
    written := ProxyWriteVarInt(w, FromNat(|buf|));
    written := written + buf;
  }

  lemma {:induction false} PayloadIsLonger(p: Packet)
    ensures |p.address| + 6 <= |Payload(p)|
  {
  }

  /** The payload as the printers build it up, piece by piece. */
  lemma {:induction false} PayloadInPieces(p: Packet)
    ensures [] + Encode(0) + Encode(p.version) + Encode(FromNat(|p.address|)) + p.address + PortBytes(p.port) + Encode(p.nextState)
            == Payload(p)
  {
    hide Encode, FromNat, PortBytes;
    assert [] + Encode(0) == Encode(0);
    Reassociate(Encode(0), Encode(p.version), Encode(FromNat(|p.address|)), p.address, PortBytes(p.port), Encode(p.nextState));
  }

  lemma {:induction false} Reassociate(a: Bytes, b: Bytes, c: Bytes, d: Bytes, e: Bytes, f: Bytes)
    ensures a + b + c + d + e + f == a + (b + (c + (d + (e + f))))
  {
  }

  lemma {:induction false} ZeroIsNonNegative()
    ensures NonNegative(0)
  {
  }

  /** The status client's printer: any version, next state 1. */
  method SendHandshake(conn: Bytes, host: Bytes, port: bv16, protocolVersion: Int32) returns (sent: Bytes)
    requires |Payload(Packet(protocolVersion, host, port, 1))| < 0x8000_0000
    ensures sent == conn + Frame(Payload(Packet(protocolVersion, host, port, 1)))
  {
    hide Encode, FromNat, PortBytes, Payload;
    PayloadInPieces(Packet(protocolVersion, host, port, 1));
    var buf := SlpWriteVarInt([], 0);
    buf := SlpWriteVarInt(buf, protocolVersion);
    buf := SlpWriteVarInt(buf, FromNat(|host|));
    buf := buf + host;
    buf := buf + PortBytes(port);
    buf := SlpWriteVarInt(buf, 1);
    var packet := SlpWriteVarInt([], FromNat(|buf|));
    packet := packet + buf;
    sent := conn + packet;
  }

  // ---------- parsing ----------

  /** The signed comparison `length < 1 || length > 255`. */
  predicate BadLength(length: Int32) {
    !NonNegative(length) || length == 0 || length > 255
  }

  function ParsePort(s: Bytes): bv16
    requires |s| >= 2
  {
    (s[0] as bv16 << 8) | s[1] as bv16
  }

  /** The packet data; what follows the next state is ignored. */
  function ParsePayload(data: Bytes): Result<Packet> {
    match ReadVarInt(data)
    case Err(e) => Err(e)
    case Ok(id, afterId) =>
      if id != 0 then Err(WrongPacket)
      else match ReadVarInt(afterId)
        case Err(e) => Err(e)
        case Ok(version, afterVersion) => ParseAddress(version, afterVersion)
  }

  function ParseAddress(version: Int32, data: Bytes): Result<Packet> {
    match ReadVarInt(data)
    case Err(e) => Err(e)
    case Ok(length, rest) =>
      // making a buffer of negative length crashes
      if !NonNegative(length) then Err(Crash)
      else if |rest| < ToNat(length) then Err(UnexpectedEnd)
      else ParseTail(version, rest[..ToNat(length)], rest[ToNat(length)..])
  }

  function ParseTail(version: Int32, address: Bytes, data: Bytes): Result<Packet> {
    if |data| < 2 then Err(UnexpectedEnd)
    else match ReadVarInt(data[2..])
      case Err(e) => Err(e)
      case Ok(nextState, rest) => Ok(Packet(version, address, ParsePort(data), nextState), rest)
  }

  /** A whole framed packet off the front of a stream. */
  function ReadHandshake(s: Bytes): Result<Packet> {
    match ReadVarInt(s)
    case Err(e) => Err(e)
    case Ok(length, rest) =>
      if BadLength(length) then Err(InvalidLength)
      else if |rest| < ToNat(length) then Err(UnexpectedEnd)
      else match ParsePayload(rest[..ToNat(length)])
        case Err(e) => Err(e)
        case Ok(packet, _) => Ok(packet, rest[ToNat(length)..])
  }

  method ReadHandshakePacket(s: Bytes) returns (r: Result<Packet>)
    ensures r == ReadHandshake(s)
  {
    hide ReadVarInt, NonNegative, ToNat, ParsePort;
    var read := ReadLoop(s);
    if read.Err? {
      return Err(read.error);
    }
    if BadLength(read.value) {
      return Err(InvalidLength);
    }
    var length := ToNat(read.value);
    if |read.rest| < length {
      return Err(UnexpectedEnd);
    }
    var buf, stream := read.rest[..length], read.rest[length..];
    var id := ReadLoop(buf);
    if id.Err? {
      return Err(id.error);
    }
    if id.value != 0 {
      return Err(WrongPacket);
    }
    var packet := Packet(0, [], 0, 0);
    var version := ReadLoop(id.rest);
    if version.Err? {
      return Err(version.error);
    }
    packet := packet.(version := version.value);
    var addressLen := ReadLoop(version.rest);
    if addressLen.Err? {
      return Err(addressLen.error);
    }
    if !NonNegative(addressLen.value) {
      return Err(Crash);
    }
    var n := ToNat(addressLen.value);
    buf := addressLen.rest;
    if |buf| < n {
      return Err(UnexpectedEnd);
    }
    packet := packet.(address := buf[..n]);
    buf := buf[n..];
    if |buf| < 2 {
      return Err(UnexpectedEnd);
    }
    packet := packet.(port := ParsePort(buf));
    var nextState := ReadLoop(buf[2..]);
    if nextState.Err? {
      return Err(nextState.error);
    }
    packet := packet.(nextState := nextState.value);
    return Ok(packet, stream);
  }

  // ---------- when the printer does not end ----------

  predicate Writable(p: Packet) {
    NonNegative(p.version) && NonNegative(p.nextState)
  }

  /** Where the proxy's printer of an unwritable packet loops: the bytes in memory so far and the negative number. */
  function StuckAt(p: Packet): Writer
    requires !Writable(p)
  {
    if !NonNegative(p.version) then Writing(Encode(0), p.version)
    else Writing(Encode(0) + Encode(p.version) + Encode(FromNat(|p.address|)) + p.address + PortBytes(p.port), p.nextState)
  }

  /** The payload is put together in memory, so the printer takes one more byte of it every round, without bound. */
  lemma {:induction false} UnwritableFillsMemory(p: Packet, n: nat)
    requires !Writable(p)
    ensures var w := WriterAfter(StuckAt(p), n);
            w.Writing? && |w.buffer| == |StuckAt(p).buffer| + n
  {
    hide NonNegative, Encode, FromNat;
    NegativeFillsBuffer(StuckAt(p).buffer, StuckAt(p).value, n);
  }

  // ---------- when the reader crashes ----------

  /**
   `s` starts with a frame of `length` bytes; in it stand the packet ID 0, a version, and an address
   length, each written in the given bytes, and something more.
   */
  ghost predicate FramedFields(s: Bytes, length: Bytes, id: Bytes, version: Bytes, address: Bytes, more: Bytes, tail: Bytes) {
    && s == length + ((id + (version + (address + more))) + tail)
    && ReadVarInt(length).Ok? && Reads(length, ReadVarInt(length).value)
    && !BadLength(ReadVarInt(length).value)
    && ToNat(ReadVarInt(length).value) == |id + (version + (address + more))|
    && Reads(id, 0)
    && ReadVarInt(version).Ok? && Reads(version, ReadVarInt(version).value)
  }

  /** Whatever bytes it is written in, the address length is a negative number. */
  ghost predicate NegativeLength(address: Bytes) {
    ReadVarInt(address).Ok? && Reads(address, ReadVarInt(address).value) && !NonNegative(ReadVarInt(address).value)
  }

  lemma {:induction false} CrashInside(id: Bytes, version: Bytes, address: Bytes, more: Bytes)
    requires Reads(id, 0) && ReadVarInt(version).Ok? && Reads(version, ReadVarInt(version).value) && NegativeLength(address)
    ensures ParsePayload(id + (version + (address + more))) == Err(Crash)
  {
    hide ReadVarInt, NonNegative, ParseTail;
    ReadExtend(id, 0, version + (address + more));
    ReadExtend(version, ReadVarInt(version).value, address + more);
    ReadExtend(address, ReadVarInt(address).value, more);
  }

  lemma {:induction false} CrashFields(data: Bytes) returns (id: Bytes, version: Bytes, address: Bytes, more: Bytes)
    requires ParsePayload(data) == Err(Crash)
    ensures data == id + (version + (address + more))
    ensures Reads(id, 0) && ReadVarInt(version).Ok? && Reads(version, ReadVarInt(version).value) && NegativeLength(address)
  {
    NoReaderCrashes(data);
    hide NonNegative, ToNat;
    id := ReadSplit(data);
    var afterId := ReadVarInt(data).rest;
    NoReaderCrashes(afterId);
    version := ReadSplit(afterId);
    var afterVersion := ReadVarInt(afterId).rest;
    AddressCrash(ReadVarInt(afterId).value, afterVersion);
    hide ReadVarInt;
    address := ReadSplit(afterVersion);
    more := ReadVarInt(afterVersion).rest;
  }

  lemma {:induction false} NoReaderCrashes(s: Bytes)
    ensures ReadVarInt(s) != Err(Crash)
  {
    ReaderVerdict(s, 0, P0);
  }

  lemma {:induction false} AddressCrash(version: Int32, data: Bytes)
    requires ParseAddress(version, data) == Err(Crash)
    ensures ReadVarInt(data).Ok? && !NonNegative(ReadVarInt(data).value)
  {
    NoReaderCrashes(data);
    hide ReadVarInt, NonNegative, ToNat;
    if ReadVarInt(data).Ok? {
      var length, rest := ReadVarInt(data).value, ReadVarInt(data).rest;
      if NonNegative(length) && |rest| >= ToNat(length) && |rest[ToNat(length)..]| >= 2 {
        NoReaderCrashes(rest[ToNat(length)..][2..]);
      }
    }
  }

  /**
   The reader crashes exactly on a complete frame of 1 to 255 bytes that holds packet ID 0, any version
   and a negative address length, whatever follows.
   */
  lemma {:induction false} CrashesIffNegativeLength(s: Bytes)
    ensures ReadHandshake(s) == Err(Crash)
            <==> exists length, id, version, address, more, tail ::
                   FramedFields(s, length, id, version, address, more, tail) && NegativeLength(address)
  {
    if ReadHandshake(s) == Err(Crash) {
      CrashHasFields(s);
    }
    if length, id, version, address, more, tail :|
      FramedFields(s, length, id, version, address, more, tail) && NegativeLength(address)
    {
      FieldsCrash(s, length, id, version, address, more, tail);
    }
  }

  lemma {:induction false} FieldsCrash(s: Bytes, length: Bytes, id: Bytes, version: Bytes, address: Bytes, more: Bytes, tail: Bytes)
    requires FramedFields(s, length, id, version, address, more, tail) && NegativeLength(address)
    ensures ReadHandshake(s) == Err(Crash)
  {
    CrashInside(id, version, address, more);
    hide ReadVarInt, NonNegative, ParsePayload, BadLength;
    var data := id + (version + (address + more));
    ReadExtend(length, ReadVarInt(length).value, data + tail);
    assert (data + tail)[..|data|] == data;
  }

  lemma {:induction false} CrashHasFields(s: Bytes)
    requires ReadHandshake(s) == Err(Crash)
    ensures exists length, id, version, address, more, tail ::
              FramedFields(s, length, id, version, address, more, tail) && NegativeLength(address)
  {
    NoReaderCrashes(s);
    hide ReadVarInt, NonNegative, ParsePayload, BadLength, NegativeLength;
    var length := ReadSplit(s);
    var rest, n := ReadVarInt(s).rest, ToNat(ReadVarInt(s).value);
    var id, version, address, more := CrashFields(rest[..n]);
    assert rest == rest[..n] + rest[n..];
    assert FramedFields(s, length, id, version, address, more, rest[n..]);
  }

  /** Such a packet: seven bytes with ID 0, version 0 and address length -1. */
  lemma {:induction false} MinusOneCrashes(tail: Bytes)
    ensures ReadHandshake([0x07, 0x00, 0x00, 0xFF, 0xFF, 0xFF, 0xFF, 0x0F] + tail) == Err(Crash)
  {
    var s: Bytes := [0x07, 0x00, 0x00, 0xFF, 0xFF, 0xFF, 0xFF, 0x0F] + tail;
    var minusOne: Bytes := [0xFF, 0xFF, 0xFF, 0xFF, 0x0F];
    SmallReads();
    MinusOneReads();
    hide ReadVarInt, NonNegative, BadLength, ToNat;
    assert s == [0x07] + (([0x00] + ([0x00] + (minusOne + []))) + tail);
    assert FramedFields(s, [0x07], [0x00], [0x00], minusOne, [], tail);
    FieldsCrash(s, [0x07], [0x00], [0x00], minusOne, [], tail);
  }

  lemma {:induction false} SmallReads()
    ensures Reads([0x00], 0) && Reads([0x07], 7) && !BadLength(7) && ToNat(7) == 7
  {
  }

  lemma {:induction false} MinusOneReads()
    ensures NegativeLength([0xFF, 0xFF, 0xFF, 0xFF, 0x0F])
  {
  }

  // ---------- the round trip ----------

  lemma {:induction false} PortRoundTrip(port: bv16, tail: Bytes)
    ensures ParsePort(PortBytes(port) + tail) == port
  {
  }

  lemma {:induction false} TailRoundTrip(p: Packet)
    ensures ParseTail(p.version, p.address, PortBytes(p.port) + Encode(p.nextState)) == Ok(p, [])
  {
    PortRoundTrip(p.port, Encode(p.nextState));
    RoundTrip(p.nextState, []);
    assert (PortBytes(p.port) + Encode(p.nextState))[2..] == Encode(p.nextState);
  }

  lemma {:induction false} AddressRoundTrip(p: Packet)
    requires |p.address| < 0x8000_0000
    ensures ParseAddress(p.version, Encode(FromNat(|p.address|)) + (p.address + (PortBytes(p.port) + Encode(p.nextState)))) == Ok(p, [])
  {
    hide Encode, FromNat, PortBytes, ReadVarInt, ToNat, NonNegative, ParseTail;
    var tail := PortBytes(p.port) + Encode(p.nextState);
    RoundTrip(FromNat(|p.address|), p.address + tail);
    LengthRoundTrip(|p.address|);
    TailRoundTrip(p);
    assert (p.address + tail)[..|p.address|] == p.address && (p.address + tail)[|p.address|..] == tail;
  }

  lemma {:induction false} PayloadRoundTrip(p: Packet)
    requires |p.address| < 0x8000_0000
    ensures ParsePayload(Payload(p)) == Ok(p, [])
  {
    hide Encode, FromNat, PortBytes, ReadVarInt, ParseAddress;
    var afterVersion := Encode(FromNat(|p.address|)) + (p.address + (PortBytes(p.port) + Encode(p.nextState)));
    RoundTrip(0, Encode(p.version) + afterVersion);
    RoundTrip(p.version, afterVersion);
    AddressRoundTrip(p);
  }

  /** The length check on a written length is a check on the number itself. */
  lemma {:induction false} LengthCheck(n: nat)
    requires n < 0x8000_0000
    ensures BadLength(FromNat(n)) <==> n < 1 || n > 255
  {
    hide FromNat, NonNegative;
    LengthRoundTrip(n);
    var v := FromNat(n);
    if n != 0 {
      NatRoundTrip(n, P0);
    } else {
      ZeroLength();
    }
    if v <= 255 {
      SmallValue(v);
    } else {
      LargeValue(v);
    }
  }

  lemma {:induction false} ZeroLength()
    ensures FromNat(0) == 0
  {
  }

  lemma {:induction false} SmallValue(v: Int32)
    requires v <= 255
    ensures ToNat(v) <= 255
  {
  }

  lemma {:induction false} LargeValue(v: Int32)
    requires v > 255
    ensures ToNat(v) > 255
  {
    ShiftOfLarge(v);
    AtLeastTwo(LogicalShift7(v));
  }

  lemma {:induction false} ShiftOfLarge(v: Int32)
    requires v > 255
    ensures !FitsOneByte(v) && LogicalShift7(v) > 1
  {
  }

  lemma {:induction false} AtLeastTwo(v: Int32)
    requires v > 1
    ensures ToNat(v) >= 2
    decreases v
  {
    if FitsOneByte(v) {
      ByteAtLeastTwo(v);
    } else {
      ShiftNotZero(v);
      ShiftSmaller(v);
      AtLeastOne(LogicalShift7(v));
    }
  }

  lemma {:induction false} ByteAtLeastTwo(v: Int32)
    requires v > 1 && FitsOneByte(v)
    ensures LowByte(v) as int >= 2
  {
  }

  lemma {:induction false} ShiftSmaller(v: Int32)
    requires !FitsOneByte(v)
    ensures LogicalShift7(v) < v
  {
  }

  lemma {:induction false} AtLeastOne(v: Int32)
    requires v != 0
    ensures ToNat(v) >= 1
    decreases v
  {
    if FitsOneByte(v) {
      LowByteValue(v);
    } else {
      ShiftNotZero(v);
      ShiftSmaller(v);
      AtLeastOne(LogicalShift7(v));
    }
  }

  /**
   Reading a written packet followed by any tail gives the packet and leaves exactly the tail when
   the payload is at most 255 bytes, and is refused for its length otherwise.
   */
  lemma {:induction false} HandshakeRoundTrip(p: Packet, tail: Bytes)
    requires |Payload(p)| < 0x8000_0000
    ensures ReadHandshake(Frame(Payload(p)) + tail) == if |Payload(p)| <= 255 then Ok(p, tail) else Err(InvalidLength)
  {
    hide Encode, FromNat, ReadVarInt, ParsePayload, Payload, BadLength, ToNat;
    PayloadIsLonger(p);
    var data := Payload(p);
    RoundTrip(FromNat(|data|), data + tail);
    assert Frame(data) + tail == Encode(FromNat(|data|)) + (data + tail);
    LengthRoundTrip(|data|);
    LengthCheck(|data|);
    PayloadRoundTrip(p);
    assert (data + tail)[..|data|] == data && (data + tail)[|data|..] == tail;
  }
}
