/**
 What the bytes of the two formats stand for as numbers: a VarInt is its value to the base 128, lowest
 digit first, a port is its two bytes to the base 256, highest first, and a packet is its fields in the
 order of the protocol.
 */
module WireFormat {
  import opened VarInt
  import opened Handshake

  // ---------- VarInts ----------

  /** The number to the base 128 whose digits, lowest first, are the low seven bits of the bytes. */
  function Base128(bytes: Bytes): nat {
    if bytes == [] then 0 else LowSeven(bytes[0]) + 128 * Base128(bytes[1..])
  }

  function LowSeven(b: bv8): nat {
    b as int % 128
  }

  /** The bit pattern as an unsigned number. */
  function Unsigned(v: Int32): nat {
    v as int
  }

  function Value7(b: bv7): nat {
    b as int
  }

  function Value25(w: bv25): nat {
    w as int
  }

  function Joined(w: bv25, b: bv7): nat {
    ((w as bv32 << 7) | (b as bv32)) as int
  }

  function High(v: Int32): bv25 {
    (v >> 7) as bv25
  }

  function Low(v: Int32): bv7 {
    (v & 0x7F) as bv7
  }

  lemma {:induction false} JoinedValue(w: bv25, b: bv7)
    ensures Joined(w, b) == Value25(w) * 128 + Value7(b)
  {
  }

  lemma {:induction false} HighAndLow(v: Int32)
    ensures Unsigned(v) == Joined(High(v), Low(v))
  {
  }

  lemma {:induction false} HighValue(v: Int32)
    ensures Value25(High(v)) == Unsigned(LogicalShift7(v))
  {
  }

  lemma {:induction false} LowValue(v: Int32)
    ensures Value7(Low(v)) == (MoreByte(v) & 0x7F) as int && HasMore(MoreByte(v))
  {
  }

  lemma {:induction false} DigitValue(b: bv8)
    ensures (b & 0x7F) as int == LowSeven(b)
  {
  }

  lemma {:induction false} OneByteValue(v: Int32)
    requires FitsOneByte(v)
    ensures Unsigned(v) == LowByte(v) as int && Unsigned(v) < 128 && !HasMore(LowByte(v))
  {
  }

  lemma {:induction false} MoreValue(v: Int32)
    ensures Unsigned(v) == Unsigned(LogicalShift7(v)) * 128 + LowSeven(MoreByte(v))
  {
    HighAndLow(v);
    HighValue(v);
    LowValue(v);
    DigitValue(MoreByte(v));
    JoinedValue(High(v), Low(v));
    hide High, Low, Joined, LogicalShift7, MoreByte, Unsigned, Value7, Value25, LowSeven;
  }

  /** An encoding is its value as an unsigned number to the base 128; every byte but the last announces a further one. */
  lemma {:induction false} EncodingIsBase128(v: Int32)
    ensures Base128(Encode(v)) == Unsigned(v)
    ensures forall k :: 0 <= k < |Encode(v)| ==> (HasMore(Encode(v)[k]) <==> k < |Encode(v)| - 1)
    decreases v
  {
    hide LogicalShift7, MoreByte, LowByte, FitsOneByte, HasMore, Unsigned;
    if FitsOneByte(v) {
      OneByteValue(v);
      assert Base128([LowByte(v)]) == LowByte(v) as int by { assert Base128([LowByte(v)][1..]) == 0; }
    } else {
      LowValue(v);
      MoreValue(v);
      ShiftSmaller(v);
      EncodingIsBase128(LogicalShift7(v));
      assert Encode(v)[1..] == Encode(LogicalShift7(v));
    }
  }

  /** `n` moved up to a position. */
  function Times(n: nat, p: Position): nat {
    match p
    case P0 => n
    case P7 => n * 0x80
    case P14 => n * 0x4000
    case P21 => n * 0x20_0000
    case P28 => n * 0x1000_0000
  }

  /** What is put together below a position. */
  predicate Below(n: nat, p: Position) {
    n < Times(1, p)
  }

  function Digit(b: bv8): bv7 {
    (b & 0x7F) as bv7
  }

  lemma {:induction false} DigitIs(b: bv8)
    ensures Value7(Digit(b)) == LowSeven(b)
  {
  }

  /** A payload put at its position on top of what is below. */
  function Placed(acc: Int32, b: bv8, p: Position): nat {
    Or(acc, ShiftLeft(SevenBits(b), p)) as int
  }

  lemma {:induction false} Placed0(b: bv8)
    ensures Placed(0, b, P0) == Value7(Digit(b))
  {
  }

  function Put7(acc: bv7, d: bv7): nat {
    ((d as bv32 << 7) | (acc as bv32)) as int
  }

  lemma {:induction false} Put7Value(acc: bv7, d: bv7)
    ensures Put7(acc, d) == Value7(acc) + Value7(d) * 0x80
  {
  }

  lemma {:induction false} Placed7(acc: bv7, b: bv8)
    ensures Placed(acc as bv32, b, P7) == Put7(acc, Digit(b))
  {
  }

  function Value14(b: bv14): nat {
    b as int
  }

  function Put14(acc: bv14, d: bv7): nat {
    ((d as bv32 << 14) | (acc as bv32)) as int
  }

  lemma {:induction false} Put14Value(acc: bv14, d: bv7)
    ensures Put14(acc, d) == Value14(acc) + Value7(d) * 0x4000
  {
  }

  lemma {:induction false} Placed14(acc: bv14, b: bv8)
    ensures Placed(acc as bv32, b, P14) == Put14(acc, Digit(b))
  {
  }

  function Value21(b: bv21): nat {
    b as int
  }

  function Put21(acc: bv21, d: bv7): nat {
    ((d as bv32 << 21) | (acc as bv32)) as int
  }

  lemma {:induction false} Put21Value(acc: bv21, d: bv7)
    ensures Put21(acc, d) == Value21(acc) + Value7(d) * 0x20_0000
  {
  }

  lemma {:induction false} Placed21(acc: bv21, b: bv8)
    ensures Placed(acc as bv32, b, P21) == Put21(acc, Digit(b))
  {
  }

  function Value28(b: bv28): nat {
    b as int
  }

  /** At the last position only four of the seven bits find room. */
  function Put28(acc: bv28, d: bv4): nat {
    ((d as bv32 << 28) | (acc as bv32)) as int
  }

  lemma {:induction false} Put28Value(acc: bv28, d: bv4)
    ensures Put28(acc, d) == Value28(acc) + d as int * 0x1000_0000
  {
  }

  lemma {:induction false} Placed28(acc: bv28, b: bv8)
    ensures Placed(acc as bv32, b, P28) == Put28(acc, (b & 0xF) as bv4)
  {
  }

  function LowFour(b: bv8): nat {
    b as int % 16
  }

  lemma {:induction false} LowFourOfSeven(b: bv8)
    ensures LowFour(b) == LowSeven(b) % 16
  {
    var n := b as int;
    assert n == n / 128 * 128 + n % 128;
  }

  lemma {:induction false} LowFourValue(b: bv8)
    ensures ((b & 0xF) as bv4) as int == LowFour(b)
  {
  }

  lemma {:induction false} Narrow7(acc: Int32)
    requires Unsigned(acc) < 0x80
    ensures (acc as bv7) as bv32 == acc && Value7(acc as bv7) == Unsigned(acc)
  {
  }

  lemma {:induction false} Narrow14(acc: Int32)
    requires Unsigned(acc) < 0x4000
    ensures (acc as bv14) as bv32 == acc && Value14(acc as bv14) == Unsigned(acc)
  {
  }

  lemma {:induction false} Narrow28(acc: Int32)
    requires Unsigned(acc) < 0x1000_0000
    ensures (acc as bv28) as bv32 == acc && Value28(acc as bv28) == Unsigned(acc)
  {
  }

  lemma {:induction false} Narrow21(acc: Int32)
    requires Unsigned(acc) < 0x20_0000
    ensures (acc as bv21) as bv32 == acc && Value21(acc as bv21) == Unsigned(acc)
  {
  }

  lemma {:induction false} Narrow0(acc: Int32)
    requires Unsigned(acc) < 1
    ensures acc == 0
  {
  }

  lemma {:induction false} SixteenIn128(d: nat, acc: nat)
    requires acc < 0x1000_0000
    ensures (acc + d * 0x1000_0000) % 0x1_0000_0000 == acc + d % 16 * 0x1000_0000
  {
    assert acc + d * 0x1000_0000 == d / 16 * 0x1_0000_0000 + (acc + d % 16 * 0x1000_0000);
  }

  lemma {:induction false} At7(acc: Int32, b: bv8)
    requires Unsigned(acc) < 0x80
    ensures Placed(acc, b, P7) == Unsigned(acc) + Value7(Digit(b)) * 0x80
  {
    Narrow7(acc);
    Placed7(acc as bv7, b);
    Put7Value(acc as bv7, Digit(b));
    hide Placed, Unsigned, Value7, Put7, Digit;
  }

  lemma {:induction false} At14(acc: Int32, b: bv8)
    requires Unsigned(acc) < 0x4000
    ensures Placed(acc, b, P14) == Unsigned(acc) + Value7(Digit(b)) * 0x4000
  {
    Narrow14(acc);
    Placed14(acc as bv14, b);
    Put14Value(acc as bv14, Digit(b));
    hide Placed, Unsigned, Value14, Put14, Digit, Value7;
  }

  lemma {:induction false} At21(acc: Int32, b: bv8)
    requires Unsigned(acc) < 0x20_0000
    ensures Placed(acc, b, P21) == Unsigned(acc) + Value7(Digit(b)) * 0x20_0000
  {
    Narrow21(acc);
    Placed21(acc as bv21, b);
    Put21Value(acc as bv21, Digit(b));
    hide Placed, Unsigned, Value21, Put21, Digit, Value7;
  }

  lemma {:induction false} At28(acc: Int32, b: bv8)
    requires Unsigned(acc) < 0x1000_0000
    ensures Placed(acc, b, P28) == Unsigned(acc) + LowFour(b) * 0x1000_0000
  {
    Narrow28(acc);
    Placed28(acc as bv28, b);
    Put28Value(acc as bv28, (b & 0xF) as bv4);
    LowFourValue(b);
    hide Placed, Unsigned, Value28, Put28, LowFour;
  }

  lemma {:induction false} At0(acc: Int32, b: bv8)
    requires Unsigned(acc) < 1
    ensures Placed(acc, b, P0) == Unsigned(acc) + Value7(Digit(b))
  {
    Narrow0(acc);
    Placed0(b);
    hide Placed, Digit, Value7;
  }

  lemma {:induction false} BelowLast(acc: Int32, b: bv8, p: Position)
    requires Below(Unsigned(acc), p) && p != P28
    ensures Placed(acc, b, p) == Unsigned(acc) + Times(LowSeven(b), p)
  {
    DigitIs(b);
    hide Placed, Unsigned, Digit, Value7, LowSeven;
    match p {
      case P0 => At0(acc, b);
      case P7 => At7(acc, b);
      case P14 => At14(acc, b);
      case P21 => At21(acc, b);
    }
  }

  /** One more payload adds its digit at the position; at the last one only what fits 32 bits. */
  lemma {:induction false} PlacedValue(acc: Int32, b: bv8, p: Position)
    requires Below(Unsigned(acc), p)
    ensures Placed(acc, b, p) == (Unsigned(acc) + Times(LowSeven(b), p)) % 0x1_0000_0000
    ensures p != P28 ==> Placed(acc, b, p) == Unsigned(acc) + Times(LowSeven(b), p) && Below(Placed(acc, b, p), After(p))
  {
    SevenBelow(b);
    hide Placed, Unsigned, LowSeven, LowFour;
    if p == P28 {
      At28(acc, b);
      LowFourOfSeven(b);
      SixteenIn128(LowSeven(b), Unsigned(acc));
    } else {
      BelowLast(acc, b, p);
    }
  }

  lemma {:induction false} SevenBelow(b: bv8)
    ensures LowSeven(b) < 128
  {
  }

  lemma {:induction false} PlacedIsUnsigned(acc: Int32, b: bv8, p: Position)
    ensures Unsigned(Or(acc, ShiftLeft(SevenBits(b), p))) == Placed(acc, b, p)
  {
  }

  lemma {:induction false} TimesAfter(d: nat, n: nat, p: Position)
    ensures p != P28 ==> Times(d + 128 * n, p) == Times(d, p) + Times(n, After(p))
    ensures Times(0, p) == 0
  {
  }

  /** What was read from all of `c` is the number to the base 128, cut to 32 bits. */
  lemma {:induction false} DecodeValue(c: Bytes, acc: Int32, p: Position)
    requires Below(Unsigned(acc), p) && Decode(c, acc, p).Ok? && Decode(c, acc, p).rest == []
    ensures Unsigned(Decode(c, acc, p).value) == (Unsigned(acc) + Times(Base128(c), p)) % 0x1_0000_0000
    decreases |c|
  {
    hide Or, ShiftLeft, SevenBits, HasMore, Unsigned, Times, Below, After, Placed, Base128, LowSeven;
    var v := Or(acc, ShiftLeft(SevenBits(c[0]), p));
    PlacedIsUnsigned(acc, c[0], p);
    PlacedValue(acc, c[0], p);
    Base128Step(c);
    TimesAfter(LowSeven(c[0]), Base128(c[1..]), p);
    if HasMore(c[0]) {
      DecodeValue(c[1..], v, After(p));
    } else {
      assert c[1..] == [];
    }
  }

  lemma {:induction false} Base128Step(c: Bytes)
    requires c != []
    ensures Base128(c) == LowSeven(c[0]) + 128 * Base128(c[1..])
    ensures Base128([]) == 0
  {
  }

  /**
   Whatever the reader accepts, shortest form or not, is the number to the base 128 that the bytes it
   consumed stand for, cut to 32 bits.
   */
  lemma {:induction false} ReadIsBase128(s: Bytes)
    requires ReadVarInt(s).Ok?
    ensures |ReadVarInt(s).rest| <= |s|
    ensures Unsigned(ReadVarInt(s).value) == Base128(s[..|s| - |ReadVarInt(s).rest|]) % 0x1_0000_0000
  {
    var c := ReadSplit(s);
    hide ReadVarInt;
    ReadValue(c, ReadVarInt(s).value);
    assert s[..|s| - |ReadVarInt(s).rest|] == c;
  }

  lemma {:induction false} ReadValue(c: Bytes, v: Int32)
    requires Reads(c, v)
    ensures Unsigned(v) == Base128(c) % 0x1_0000_0000
  {
    assert Unsigned(0) == 0 && Below(0, P0) && Times(Base128(c), P0) == Base128(c);
    hide Unsigned, Decode;
    DecodeValue(c, 0, P0);
  }

  /** The sign bit. */
  lemma {:induction false} NonNegativeValue(v: Int32)
    ensures NonNegative(v) <==> Unsigned(v) < 0x8000_0000
  {
  }

  /** The lengths in the model are the numbers that the bit patterns stand for. */
  lemma {:induction false} ToNatIsUnsigned(v: Int32)
    ensures ToNat(v) == Unsigned(v)
    decreases v
  {
    hide LogicalShift7, MoreByte, LowByte, FitsOneByte, Unsigned;
    if FitsOneByte(v) {
      OneByteValue(v);
    } else {
      ShiftSmaller(v);
      DigitValue(MoreByte(v));
      MoreValue(v);
      hide LowSeven;
      ToNatIsUnsigned(LogicalShift7(v));
    }
  }

  lemma {:induction false} GoodLength(v: Int32)
    ensures !BadLength(v) <==> 1 <= Unsigned(v) <= 255
  {
    LengthBits(v);
  }

  lemma {:induction false} LengthBits(v: Int32)
    ensures v != 0 && v <= 255 <==> 1 <= Unsigned(v) <= 255
    ensures v <= 255 ==> NonNegative(v)
  {
  }

  // ---------- the handshake ----------

  /** Two bytes, the high one first, write the port. */
  predicate BigEndian(hi: bv8, lo: bv8, port: bv16) {
    hi as int * 256 + lo as int == port as int
  }

  lemma {:induction false} PortBytesAreBigEndian(port: bv16)
    ensures |PortBytes(port)| == 2 && BigEndian(PortBytes(port)[0], PortBytes(port)[1], port)
  {
    HighByteFirst(port);
  }

  lemma {:induction false} HighByteFirst(port: bv16)
    ensures ((port >> 8) as bv8) as int * 256 + ((port & 0xFF) as bv8) as int == port as int
  {
  }

  function Made(hi: bv8, lo: bv8): nat {
    ((hi as bv16 << 8) | lo as bv16) as int
  }

  lemma {:induction false} MadeValue(hi: bv8, lo: bv8)
    ensures Made(hi, lo) == hi as int * 256 + lo as int
  {
  }

  lemma {:induction false} ParsePortValue(s: Bytes)
    requires |s| >= 2
    ensures ParsePort(s) as int == Made(s[0], s[1])
  {
  }

  lemma {:induction false} ParsePortIsBigEndian(s: Bytes)
    requires |s| >= 2
    ensures BigEndian(s[0], s[1], ParsePort(s))
  {
    ParsePortValue(s);
    MadeValue(s[0], s[1]);
    hide ParsePort, Made;
  }

  function Number(port: bv16): nat {
    port as int
  }

  function Numbered(n: nat): bv16
    requires n < 0x1_0000
  {
    n as bv16
  }

  lemma {:induction false} NumberedBack(port: bv16)
    ensures Number(port) < 0x1_0000 && Numbered(Number(port)) == port
  {
  }

  function MadePort(hi: bv8, lo: bv8): bv16 {
    (hi as bv16 << 8) | lo as bv16
  }

  lemma {:induction false} MadeIsNumber(hi: bv8, lo: bv8)
    ensures Made(hi, lo) == Number(MadePort(hi, lo))
  {
  }

  lemma {:induction false} NibbleValue(n: nat)
    requires n < 16
    ensures (n as bv4) as int == n
  {
  }

  function Nibbles(a: bv4, b: bv4): bv8 {
    (a as bv8 << 4) | b as bv8
  }

  lemma {:induction false} NibblesValue(a: bv4, b: bv4)
    ensures Nibbles(a, b) as int == a as int * 16 + b as int
  {
  }

  lemma {:induction false} SomeByte(n: nat) returns (b: bv8)
    requires n < 256
    ensures b as int == n
  {
    NibbleValue(n / 16);
    NibbleValue(n % 16);
    b := Nibbles((n / 16) as bv4, (n % 16) as bv4);
    NibblesValue((n / 16) as bv4, (n % 16) as bv4);
    hide Nibbles;
  }

  lemma {:induction false} NumberOfNumbered(n: nat)
    requires n < 0x1_0000
    ensures Number(Numbered(n)) == n
  {
    var hi := SomeByte(n / 256);
    var lo := SomeByte(n % 256);
    MadeValue(hi, lo);
    MadeIsNumber(hi, lo);
    NumberedBack(MadePort(hi, lo));
    hide Number, Numbered, Made, MadePort;
    assert Number(MadePort(hi, lo)) == n;
  }

  lemma {:induction false} NumberOf(hi: bv8, lo: bv8, port: bv16)
    requires BigEndian(hi, lo, port)
    ensures Number(port) == hi as int * 256 + lo as int
  {
  }

  lemma {:induction false} OnePort(hi: bv8, lo: bv8, p: bv16, q: bv16)
    requires BigEndian(hi, lo, p) && BigEndian(hi, lo, q)
    ensures p == q
  {
    NumberOf(hi, lo, p);
    NumberOf(hi, lo, q);
    NumberedBack(p);
    NumberedBack(q);
    hide Number, Numbered, BigEndian;
  }

  /** The bytes a packet's fields are written in, shortest form or not, and what stands after them. */
  datatype Fields = Fields(id: Bytes, version: Bytes, length: Bytes, hi: bv8, lo: bv8, nextState: Bytes, ignored: Bytes)

  /** The bytes read as this length. */
  predicate ReadsLength(c: Bytes, n: nat) {
    && ReadVarInt(c).Ok? && ReadVarInt(c).rest == []
    && Unsigned(ReadVarInt(c).value) == n < 0x8000_0000
  }

  /** Packet ID 0, version, address after its length, port and next state, in this order. */
  ghost predicate Written(data: Bytes, p: Packet, f: Fields) {
    && data == f.id + (f.version + (f.length + (p.address + ([f.hi, f.lo] + (f.nextState + f.ignored)))))
    && Reads(f.id, 0) && Reads(f.version, p.version) && Reads(f.nextState, p.nextState)
    && ReadsLength(f.length, |p.address|) && BigEndian(f.hi, f.lo, p.port)
  }

  lemma {:induction false} WrittenTail(p: Packet, f: Fields)
    requires Reads(f.nextState, p.nextState) && BigEndian(f.hi, f.lo, p.port)
    ensures ParseTail(p.version, p.address, [f.hi, f.lo] + (f.nextState + f.ignored)) == Ok(p, f.ignored)
  {
    var s := [f.hi, f.lo] + (f.nextState + f.ignored);
    ParsePortIsBigEndian(s);
    OnePort(f.hi, f.lo, ParsePort(s), p.port);
    hide ParsePort, ReadVarInt, BigEndian, Reads;
    ReadExtend(f.nextState, p.nextState, f.ignored);
    assert s[2..] == f.nextState + f.ignored;
  }

  lemma {:induction false} LengthReads(c: Bytes, n: nat)
    requires ReadsLength(c, n)
    ensures ReadVarInt(c).Ok? && Reads(c, ReadVarInt(c).value)
    ensures NonNegative(ReadVarInt(c).value) && ToNat(ReadVarInt(c).value) == n
  {
    NonNegativeValue(ReadVarInt(c).value);
    ToNatIsUnsigned(ReadVarInt(c).value);
    hide ReadVarInt, NonNegative, Unsigned;
  }

  lemma {:induction false} WrittenParses(data: Bytes, p: Packet, f: Fields)
    requires Written(data, p, f)
    ensures ParsePayload(data) == Ok(p, f.ignored)
  {
    LengthReads(f.length, |p.address|);
    WrittenTail(p, f);
    hide ReadVarInt, NonNegative, ToNat, ParseTail, BigEndian, ReadsLength, Reads;
    var tail := [f.hi, f.lo] + (f.nextState + f.ignored);
    ReadExtend(f.id, 0, f.version + (f.length + (p.address + tail)));
    ReadExtend(f.version, p.version, f.length + (p.address + tail));
    ReadExtend(f.length, ReadVarInt(f.length).value, p.address + tail);
    assert (p.address + tail)[..|p.address|] == p.address && (p.address + tail)[|p.address|..] == tail;
  }

  lemma {:induction false} ParsedTail(version: Int32, address: Bytes, data: Bytes) returns (nextState: Bytes, ignored: Bytes)
    requires ParseTail(version, address, data).Ok?
    ensures |data| >= 2 && data == [data[0], data[1]] + (nextState + ignored)
    ensures var p := ParseTail(version, address, data).value;
            p.version == version && p.address == address && Reads(nextState, p.nextState) && BigEndian(data[0], data[1], p.port)
  {
    ParsePortIsBigEndian(data);
    hide ParsePort, ReadVarInt, BigEndian, Reads;
    nextState := ReadSplit(data[2..]);
    ignored := ReadVarInt(data[2..]).rest;
  }

  lemma {:induction false} ReadLength(s: Bytes) returns (length: Bytes)
    requires ReadVarInt(s).Ok? && NonNegative(ReadVarInt(s).value)
    ensures s == length + ReadVarInt(s).rest && ReadsLength(length, ToNat(ReadVarInt(s).value))
  {
    length := ReadSplit(s);
    NonNegativeValue(ReadVarInt(s).value);
    ToNatIsUnsigned(ReadVarInt(s).value);
    hide ReadVarInt, NonNegative, Unsigned, ToNat;
  }

  lemma {:induction false} ParsedIsWritten(data: Bytes) returns (f: Fields)
    requires ParsePayload(data).Ok?
    ensures Written(data, ParsePayload(data).value, f)
  {
    hide ReadVarInt, NonNegative, ToNat, ParseTail, BigEndian, ReadsLength, Reads;
    var id := ReadSplit(data);
    var afterId := ReadVarInt(data).rest;
    var version := ReadSplit(afterId);
    var afterVersion := ReadVarInt(afterId).rest;
    var length := ReadLength(afterVersion);
    var rest, n := ReadVarInt(afterVersion).rest, ToNat(ReadVarInt(afterVersion).value);
    var nextState, ignored := ParsedTail(ReadVarInt(afterId).value, rest[..n], rest[n..]);
    f := Fields(id, version, length, rest[n..][0], rest[n..][1], nextState, ignored);
    assert rest == rest[..n] + rest[n..];
  }

  /** A stream starts with a frame of 1 to 255 bytes that holds the packet, and `tail` follows. */
  ghost predicate Framed(s: Bytes, p: Packet, tail: Bytes) {
    exists length: Bytes, data: Bytes, f: Fields ::
      s == length + (data + tail) && 1 <= |data| <= 255 && ReadsLength(length, |data|) && Written(data, p, f)
  }

  /** Exactly such streams are accepted, whoever wrote them. */
  lemma {:induction false} AcceptsIffFramed(s: Bytes, p: Packet, tail: Bytes)
    ensures ReadHandshake(s) == Ok(p, tail) <==> Framed(s, p, tail)
  {
    if ReadHandshake(s) == Ok(p, tail) {
      AcceptedIsFramed(s);
    }
    if Framed(s, p, tail) {
      FramedIsAccepted(s, p, tail);
    }
  }

  lemma {:induction false} AcceptedFrame(s: Bytes)
    requires ReadHandshake(s).Ok?
    ensures var read := ReadVarInt(s);
            && read.Ok? && NonNegative(read.value) && 1 <= ToNat(read.value) <= 255 && ToNat(read.value) <= |read.rest|
            && ParsePayload(read.rest[..ToNat(read.value)]).Ok?
            && ParsePayload(read.rest[..ToNat(read.value)]).value == ReadHandshake(s).value
            && read.rest[ToNat(read.value)..] == ReadHandshake(s).rest
  {
    GoodLength(ReadVarInt(s).value);
    ToNatIsUnsigned(ReadVarInt(s).value);
    hide ReadVarInt, NonNegative, ToNat, ParsePayload, Unsigned;
  }

  lemma {:induction false} SplitFrame(s: Bytes) returns (length: Bytes, data: Bytes, tail: Bytes)
    requires ReadHandshake(s).Ok?
    ensures s == length + (data + tail) && 1 <= |data| <= 255 && ReadsLength(length, |data|)
    ensures ParsePayload(data).Ok? && ParsePayload(data).value == ReadHandshake(s).value && tail == ReadHandshake(s).rest
  {
    AcceptedFrame(s);
    hide ReadVarInt, NonNegative, ToNat, ParsePayload, ReadsLength, ReadHandshake;
    length := ReadLength(s);
    var rest, n := ReadVarInt(s).rest, ToNat(ReadVarInt(s).value);
    data, tail := rest[..n], rest[n..];
    assert rest == data + tail;
  }

  lemma {:induction false} AcceptedIsFramed(s: Bytes)
    requires ReadHandshake(s).Ok?
    ensures Framed(s, ReadHandshake(s).value, ReadHandshake(s).rest)
  {
    hide ReadHandshake, ParsePayload, ReadsLength, Written, Framed;
    var length, data, tail := SplitFrame(s);
    var f := ParsedIsWritten(data);
    FramedBy(s, length, data, ReadHandshake(s).value, f, tail);
  }

  lemma {:induction false} FramedBy(s: Bytes, length: Bytes, data: Bytes, p: Packet, f: Fields, tail: Bytes)
    requires s == length + (data + tail) && 1 <= |data| <= 255 && ReadsLength(length, |data|) && Written(data, p, f)
    ensures Framed(s, p, tail)
  {
  }

  lemma {:induction false} FramedIsAccepted(s: Bytes, p: Packet, tail: Bytes)
    requires Framed(s, p, tail)
    ensures ReadHandshake(s) == Ok(p, tail)
  {
    hide ReadsLength, Written, ParsePayload, ReadVarInt, BadLength, ToNat, Unsigned, Reads;
    var length: Bytes, data: Bytes, f: Fields :|
      s == length + (data + tail) && 1 <= |data| <= 255 && ReadsLength(length, |data|) && Written(data, p, f);
    WrittenParses(data, p, f);
    LengthReads(length, |data|);
    ToNatIsUnsigned(ReadVarInt(length).value);
    GoodLength(ReadVarInt(length).value);
    ReadExtend(length, ReadVarInt(length).value, data + tail);
    assert (data + tail)[..|data|] == data && (data + tail)[|data|..] == tail;
  }

  /** The printed payload is written so, each VarInt in its shortest form and nothing after the next state. */
  lemma {:induction false} PayloadIsWritten(p: Packet)
    requires |p.address| < 0x8000_0000
    ensures exists hi, lo ::
              Written(Payload(p), p, Fields(Encode(0), Encode(p.version), Encode(FromNat(|p.address|)), hi, lo, Encode(p.nextState), []))
  {
    var length := Encode(FromNat(|p.address|));
    EncodingReads(0);
    EncodingReads(p.version);
    EncodingReads(p.nextState);
    EncodingReads(FromNat(|p.address|));
    LengthRoundTrip(|p.address|);
    ToNatIsUnsigned(FromNat(|p.address|));
    PortBytesAreBigEndian(p.port);
    hide Encode, FromNat, ToNat, NonNegative, ReadVarInt, Unsigned, BigEndian, PortBytes;
    var hi, lo := PortBytes(p.port)[0], PortBytes(p.port)[1];
    var f := Fields(Encode(0), Encode(p.version), length, hi, lo, Encode(p.nextState), []);
    assert PortBytes(p.port) == [hi, lo] && Encode(p.nextState) + [] == Encode(p.nextState);
    assert Written(Payload(p), p, f);
  }

  lemma {:induction false} EncodingReads(v: Int32)
    ensures Reads(Encode(v), v)
  {
    RoundTrip(v, []);
    hide Encode, ReadVarInt;
    assert Encode(v) + [] == Encode(v);
  }

  /** In a printed packet the port stands before the next state, high byte first. */
  lemma {:induction false} PortIsBigEndian(p: Packet)
    ensures var k := |Payload(p)| - |Encode(p.nextState)| - 2;
            0 <= k < |Payload(p)| - 2 && BigEndian(Payload(p)[k], Payload(p)[k + 1], p.port)
  {
    PortBytesAreBigEndian(p.port);
    OneToFiveBytes(p.nextState);
    hide Encode, FromNat, PortBytes, BigEndian;
    InTheMiddle(Encode(0) + (Encode(p.version) + (Encode(FromNat(|p.address|)) + p.address)), PortBytes(p.port), Encode(p.nextState));
    InFront(Encode(0), Encode(p.version), Encode(FromNat(|p.address|)), p.address, PortBytes(p.port) + Encode(p.nextState));
  }

  lemma {:induction false} InTheMiddle(front: Bytes, port: Bytes, tail: Bytes)
    requires |port| == 2
    ensures (front + (port + tail))[|front|] == port[0] && (front + (port + tail))[|front| + 1] == port[1]
  {
  }

  lemma {:induction false} InFront(a: Bytes, b: Bytes, c: Bytes, d: Bytes, e: Bytes)
    ensures (a + (b + (c + d))) + e == a + (b + (c + (d + e)))
  {
  }
}
