/**
 The variable-length integers of the Minecraft Java Edition protocol, as the status client
 (internal/minecraft/slp.go) and the proxy (internal/proxy/protocol.go) read and write them.

 An int32 is its two's-complement bit pattern.  The status client shifts logically when it writes,
 the proxy arithmetically, so the two writers part ways on negative values.
 */
module VarInt {
  type Int32 = bv32
  type Bytes = seq<bv8>

  datatype Error = UnexpectedEnd | TooBig | InvalidLength | WrongPacket | Crash

  datatype Result<+T> = Ok(value: T, rest: Bytes) | Err(error: Error)

  // ---------- bits ----------

  predicate NonNegative(v: Int32) {
    v & 0x8000_0000 == 0
  }

  /** Nothing but the low seven bits is set. */
  predicate FitsOneByte(v: Int32) {
    v & 0xFFFF_FF80 == 0
  }

  function LogicalShift7(v: Int32): Int32 {
    v >> 7
  }

  /** `v >> 7` on a signed value: the sign bit is copied in from the left. */
  function ArithmeticShift7(v: Int32): Int32 {
    if NonNegative(v) then v >> 7 else (v >> 7) | 0xFE00_0000
  }

  function LowByte(v: Int32): bv8 {
    (v & 0xFF) as bv8
  }

  function MoreByte(v: Int32): bv8 {
    ((v & 0x7F) | 0x80) as bv8
  }

  function Or(a: Int32, b: Int32): Int32 {
    a | b
  }

  predicate HasMore(b: bv8) {
    b & 0x80 != 0
  }

  function SevenBits(b: bv8): Int32 {
    (b & 0x7F) as bv32
  }

  /** The positions at which the readers place the payloads: 0, 7, 14, 21 and 28. */
  datatype Position = P0 | P7 | P14 | P21 | P28

  function ShiftLeft(v: Int32, p: Position): Int32 {
    match p
    case P0 => v
    case P7 => v << 7
    case P14 => v << 14
    case P21 => v << 21
    case P28 => v << 28
  }

  /** The next position; past 28 the readers give up. */
  function After(p: Position): Position {
    match p
    case P0 => P7
    case P7 => P14
    case P14 => P21
    case _ => P28
  }

  function Left(p: Position): nat {
    match p
    case P0 => 4
    case P7 => 3
    case P14 => 2
    case P21 => 1
    case P28 => 0
  }

  // ---------- writing ----------

  /** What the status client writes. */
  function Encode(v: Int32): (bytes: Bytes)
    decreases v
  {
    if FitsOneByte(v) then [LowByte(v)] else [MoreByte(v)] + Encode(LogicalShift7(v))
  }

  method SlpWriteVarInt(buffer: Bytes, v: Int32) returns (written: Bytes)
    ensures written == buffer + Encode(v)
  {
    var value := v;
    written := buffer;
    while true
      invariant written + Encode(value) == buffer + Encode(v)
      decreases value
    {
      if value & 0xFFFF_FF80 == 0 {
        return written + [LowByte(value)];
      }
      assert Encode(value) == [MoreByte(value)] + Encode(value >> 7);
      written := written + [((value & 0x7F) | 0x80) as bv8];
      value := value >> 7;
    }
  }

  // ---------- reading ----------

  /** The reader, with the value and position it has reached. */
  function Decode(s: Bytes, value: Int32, p: Position): Result<Int32>
    decreases |s|
  {
    if s == [] then Err(UnexpectedEnd)
    else
      var v := Or(value, ShiftLeft(SevenBits(s[0]), p));
      if !HasMore(s[0]) then Ok(v, s[1..])
      else if p == P28 then Err(TooBig)
      else Decode(s[1..], v, After(p))
  }

  function ReadVarInt(s: Bytes): Result<Int32> {
    Decode(s, 0, P0)
  }

  // ---------- laws of the bits ----------

  lemma {:induction false} MoreByteLaw(v: Int32)
    ensures HasMore(MoreByte(v)) && SevenBits(MoreByte(v)) == v & 0x7F
  {
  }

  lemma {:induction false} LowByteLaw(v: Int32)
    requires FitsOneByte(v)
    ensures !HasMore(LowByte(v)) && SevenBits(LowByte(v)) == v
  {
  }

  /** Values that still fit when placed at a position. */
  predicate FitsAt(v: Int32, p: Position) {
    match p
    case P0 => true
    case P7 => v <= 0x1FF_FFFF
    case P14 => v <= 0x3_FFFF
    case P21 => v <= 0x7FF
    case P28 => v <= 0xF
  }

  /** Shifting leaves a value that fits at the next position. */
  lemma {:induction false} FitsLaw(v: Int32, p: Position)
    requires FitsAt(v, p)
    ensures p == P28 ==> FitsOneByte(v)
    ensures p != P28 ==> FitsAt(LogicalShift7(v), After(p))
  {
  }

  lemma {:induction false} Join0(v: Int32, acc: Int32)
    ensures Or(Or(acc, ShiftLeft(v & 0x7F, P0)), ShiftLeft(LogicalShift7(v), P7)) == Or(acc, ShiftLeft(v, P0))
  {
  }

  lemma {:induction false} Join7(v: Int32, acc: Int32)
    ensures Or(Or(acc, ShiftLeft(v & 0x7F, P7)), ShiftLeft(LogicalShift7(v), P14)) == Or(acc, ShiftLeft(v, P7))
  {
  }

  lemma {:induction false} Join14(v: Int32, acc: Int32)
    ensures Or(Or(acc, ShiftLeft(v & 0x7F, P14)), ShiftLeft(LogicalShift7(v), P21)) == Or(acc, ShiftLeft(v, P14))
  {
  }

  lemma {:induction false} Join21(v: Int32, acc: Int32)
    ensures Or(Or(acc, ShiftLeft(v & 0x7F, P21)), ShiftLeft(LogicalShift7(v), P28)) == Or(acc, ShiftLeft(v, P21))
  {
  }

  /** The seven bits placed at one position and the rest placed at the next make up the value. */
  lemma {:induction false} JoinLaw(v: Int32, acc: Int32, p: Position)
    requires p != P28
    ensures Or(Or(acc, ShiftLeft(v & 0x7F, p)), ShiftLeft(LogicalShift7(v), After(p))) == Or(acc, ShiftLeft(v, p))
  {
    hide Or, ShiftLeft, LogicalShift7;
    match p {
      case P0 => Join0(v, acc);
      case P7 => Join7(v, acc);
      case P14 => Join14(v, acc);
      case P21 => Join21(v, acc);
    }
  }

  lemma {:induction false} DecodeEncode(v: Int32, acc: Int32, p: Position, tail: Bytes)
    requires FitsAt(v, p)
    ensures Decode(Encode(v) + tail, acc, p) == Ok(Or(acc, ShiftLeft(v, p)), tail)
    decreases Left(p)
  {
    FitsLaw(v, p);
    if FitsOneByte(v) {
      LowByteLaw(v);
      assert ([LowByte(v)] + tail)[1..] == tail;
    } else {
      MoreByteLaw(v);
      JoinLaw(v, acc, p);
      DecodeEncode(LogicalShift7(v), Or(acc, ShiftLeft(v & 0x7F, p)), After(p), tail);
      assert (Encode(v) + tail)[1..] == Encode(LogicalShift7(v)) + tail;
    }
  }

  // ---------- the codec ----------

  /** Reading what the status client wrote gives the value back and leaves exactly the tail: every int32. */
  lemma {:induction false} RoundTrip(v: Int32, tail: Bytes)
    ensures ReadVarInt(Encode(v) + tail) == Ok(v, tail)
    ensures ReadVarInt(Encode(v)) == Ok(v, [])
  {
    DecodeEncode(v, 0, P0, tail);
    DecodeEncode(v, 0, P0, []);
    assert Encode(v) + [] == Encode(v);
    OrZero(v);
  }

  lemma {:induction false} OrZero(v: Int32)
    ensures Or(0, ShiftLeft(v, P0)) == v
  {
  }

  /** Encodings delimit themselves: no encoding is a proper prefix of another. */
  lemma {:induction false} SelfDelimiting(v: Int32, w: Int32, s: Bytes, t: Bytes)
    requires Encode(v) + s == Encode(w) + t
    ensures v == w && s == t
  {
    RoundTrip(v, s);
    RoundTrip(w, t);
  }

  lemma {:induction false} LengthFrom(v: Int32, p: Position)
    requires FitsAt(v, p)
    ensures 1 <= |Encode(v)| <= Left(p) + 1
    decreases Left(p)
  {
    hide FitsAt;
    FitsLaw(v, p);
    if !FitsOneByte(v) {
      LengthFrom(LogicalShift7(v), After(p));
    }
  }

  lemma {:induction false} OneToFiveBytes(v: Int32)
    ensures 1 <= |Encode(v)| <= 5
  {
    LengthFrom(v, P0);
  }

  /** Both readers: the status client's and the proxy's run the same loop. */
  method ReadLoop(s: Bytes) returns (r: Result<Int32>)
    ensures r == ReadVarInt(s)
  {
    hide Or, ShiftLeft, SevenBits, HasMore;
    var input, value, p := s, 0, P0;
    while true
      invariant Decode(input, value, p) == ReadVarInt(s)
      decreases |input|
    {
      if input == [] {
        return Err(UnexpectedEnd);
      }
      var currentByte := input[0];
      input := input[1..];
      value := Or(value, ShiftLeft(SevenBits(currentByte), p));
      if !HasMore(currentByte) {
        break;
      }
      if p == P28 {
        return Err(TooBig);
      }
      p := After(p);
    }
    return Ok(value, input);
  }

  /** How many leading bytes announce another one. */
  function Continued(s: Bytes): (n: nat)
    ensures n <= |s|
    ensures n < |s| ==> !HasMore(s[n])
    ensures forall k :: 0 <= k < n ==> HasMore(s[k])
  {
    if s == [] || !HasMore(s[0]) then 0 else 1 + Continued(s[1..])
  }

  /** What the reader accepts: at most five bytes, ended by the first one that announces no other. */
  lemma {:induction false} ReaderVerdict(s: Bytes, value: Int32, p: Position)
    ensures var r, n := Decode(s, value, p), Continued(s);
            (r.Ok? <==> n < |s| && n <= Left(p)) && (r.Ok? ==> r.rest == s[n + 1..])
            && (r == Err(TooBig) <==> n > Left(p)) && (r == Err(UnexpectedEnd) <==> n == |s| && n <= Left(p))
    decreases |s|
  {
    hide Or, ShiftLeft, SevenBits, HasMore;
    if s != [] && HasMore(s[0]) && p != P28 {
      ReaderVerdict(s[1..], Or(value, ShiftLeft(SevenBits(s[0]), p)), After(p));
    }
  }

  /** All of `c`, and nothing after it, reads as `v`. */
  ghost predicate Reads(c: Bytes, v: Int32) {
    ReadVarInt(c) == Ok(v, [])
  }

  lemma {:induction false} DecodeExtend(c: Bytes, tail: Bytes, value: Int32, p: Position)
    requires Decode(c, value, p).Ok?
    ensures var r := Decode(c, value, p);
            Decode(c + tail, value, p) == Ok(r.value, r.rest + tail)
    decreases |c|
  {
    hide Or, ShiftLeft, SevenBits, HasMore, After;
    assert (c + tail)[0] == c[0] && (c + tail)[1..] == c[1..] + tail;
    if HasMore(c[0]) {
      DecodeExtend(c[1..], tail, Or(value, ShiftLeft(SevenBits(c[0]), p)), After(p));
    }
  }

  lemma {:induction false} ReadExtend(c: Bytes, v: Int32, tail: Bytes)
    requires Reads(c, v)
    ensures ReadVarInt(c + tail) == Ok(v, tail)
  {
    DecodeExtend(c, tail, 0, P0);
    assert [] + tail == tail;
  }

  lemma {:induction false} DecodeSplit(s: Bytes, value: Int32, p: Position) returns (c: Bytes)
    requires Decode(s, value, p).Ok?
    ensures s == c + Decode(s, value, p).rest && c != []
    ensures Decode(c, value, p) == Ok(Decode(s, value, p).value, [])
    decreases |s|
  {
    hide Or, ShiftLeft, SevenBits, HasMore, After;
    if HasMore(s[0]) {
      var rest := DecodeSplit(s[1..], Or(value, ShiftLeft(SevenBits(s[0]), p)), After(p));
      c := [s[0]] + rest;
      assert c[1..] == rest;
    } else {
      c := [s[0]];
    }
  }

  /** What was read is the bytes up to the rest. */
  lemma {:induction false} ReadSplit(s: Bytes) returns (c: Bytes)
    requires ReadVarInt(s).Ok?
    ensures Reads(c, ReadVarInt(s).value) && s == c + ReadVarInt(s).rest
  {
    c := DecodeSplit(s, 0, P0);
  }

  // ---------- which byte strings are encodings ----------

  /** The shortest form of a value that fits at `p`: no empty last byte, no bit beyond the 32nd. */
  predicate Canonical(c: Bytes, p: Position)
    decreases |c|
  {
    c != [] &&
    if |c| == 1 then !HasMore(c[0]) && (p == P28 ==> c[0] <= 0x0F)
    else HasMore(c[0]) && p != P28 && c[1..] != [0] && Canonical(c[1..], After(p))
  }

  /** Puts a payload in front of a value. */
  function Prepend(b: bv8, w: Int32): Int32 {
    ((b & 0x7F) as bv32) | (w << 7)
  }

  lemma {:induction false} PrependLaw(b: bv8, w: Int32)
    requires HasMore(b) && w != 0 && w <= 0x1FF_FFFF
    ensures !FitsOneByte(Prepend(b, w)) && MoreByte(Prepend(b, w)) == b && LogicalShift7(Prepend(b, w)) == w
  {
  }

  lemma {:induction false} PrependFits(b: bv8, w: Int32, p: Position)
    requires p != P28 && FitsAt(w, After(p))
    ensures w <= 0x1FF_FFFF && FitsAt(Prepend(b, w), p)
  {
  }

  lemma {:induction false} OneByteLaw(b: bv8)
    requires !HasMore(b)
    ensures FitsOneByte(b as bv32) && LowByte(b as bv32) == b && (b != 0 ==> b as bv32 != 0)
    ensures b as bv32 <= 0x7F && (b <= 0x0F ==> b as bv32 <= 0xF)
  {
  }

  lemma {:induction false} SmallFits(v: Int32, p: Position)
    requires v <= 0x7F && (p == P28 ==> v <= 0xF)
    ensures FitsAt(v, p)
  {
  }

  lemma {:induction false} CanonicalIsEncoding(c: Bytes, p: Position) returns (w: Int32)
    requires Canonical(c, p)
    ensures Encode(w) == c && FitsAt(w, p)
    ensures c != [0] ==> w != 0
    decreases |c|
  {
    hide FitsAt, Prepend, FitsOneByte, LowByte, MoreByte, LogicalShift7, HasMore;
    if |c| == 1 {
      w := c[0] as bv32;
      OneByteLaw(c[0]);
      SmallFits(w, p);
      assert c == [c[0]];
    } else {
      var rest := CanonicalIsEncoding(c[1..], After(p));
      w := Prepend(c[0], rest);
      PrependFits(c[0], rest, p);
      PrependLaw(c[0], rest);
      ZeroFitsOneByte();
      assert c == [c[0]] + c[1..];
    }
  }

  lemma {:induction false} ZeroFitsOneByte()
    ensures FitsOneByte(0) && LowByte(0) == 0
  {
  }

  lemma {:induction false} EncodingIsCanonical(w: Int32, p: Position)
    requires FitsAt(w, p)
    ensures Canonical(Encode(w), p)
    ensures Encode(w) == [0] ==> w == 0
    decreases Left(p)
  {
    hide FitsAt, FitsOneByte, LowByte, MoreByte, LogicalShift7, HasMore;
    FitsLaw(w, p);
    if FitsOneByte(w) {
      LowByteLaw(w);
      LowByteBounds(w, p);
    } else {
      MoreByteLaw(w);
      ShiftNotZero(w);
      EncodingIsCanonical(LogicalShift7(w), After(p));
      assert Encode(w)[1..] == Encode(LogicalShift7(w));
      MoreByteNotZero(w);
    }
  }

  lemma {:induction false} LowByteBounds(w: Int32, p: Position)
    requires FitsOneByte(w) && FitsAt(w, p)
    ensures p == P28 ==> LowByte(w) <= 0x0F
    ensures LowByte(w) == 0 ==> w == 0
  {
  }

  lemma {:induction false} LowByteValue(w: Int32)
    requires FitsOneByte(w)
    ensures w <= 0xF ==> LowByte(w) <= 0x0F
    ensures LowByte(w) == 0 ==> w == 0
  {
  }

  lemma {:induction false} ShiftNotZero(w: Int32)
    requires !FitsOneByte(w)
    ensures LogicalShift7(w) != 0
  {
  }

  lemma {:induction false} MoreByteNotZero(w: Int32)
    ensures MoreByte(w) != 0
  {
  }

  /** A byte string is what the writer produces for some int32 exactly when it is canonical. */
  lemma {:induction false} EncodingsAreCanonical(c: Bytes)
    ensures Canonical(c, P0) <==> exists w :: Encode(w) == c
  {
    if Canonical(c, P0) {
      var w := CanonicalIsEncoding(c, P0);
    }
    if exists w :: Encode(w) == c {
      var w :| Encode(w) == c;
      EncodingIsCanonical(w, P0);
    }
  }

  /** Writing back what was read restores the consumed bytes exactly when they were canonical. */
  lemma {:induction false} RewritesIffCanonical(s: Bytes)
    requires ReadVarInt(s).Ok?
    ensures Continued(s) < |s|
    ensures var consumed := s[..Continued(s) + 1];
            Encode(ReadVarInt(s).value) == consumed <==> Canonical(consumed, P0)
  {
    ReaderVerdict(s, 0, P0);
    var consumed := s[..Continued(s) + 1];
    if Canonical(consumed, P0) {
      var w := CanonicalIsEncoding(consumed, P0);
      RoundTrip(w, s[Continued(s) + 1..]);
      assert s == consumed + s[Continued(s) + 1..];
    }
    if Encode(ReadVarInt(s).value) == consumed {
      EncodingIsCanonical(ReadVarInt(s).value, P0);
    }
  }

  // ---------- the proxy's writer ----------

  lemma {:induction false} ShiftsAgree(v: Int32)
    requires NonNegative(v)
    ensures ArithmeticShift7(v) == LogicalShift7(v) && NonNegative(LogicalShift7(v))
    ensures !FitsOneByte(v) ==> LogicalShift7(v) < v
  {
  }

  lemma {:induction false} NegativeStays(v: Int32)
    requires !NonNegative(v)
    ensures !FitsOneByte(v) && !NonNegative(ArithmeticShift7(v))
  {
  }

  /** One round of a writer: its byte, and what is left to write. */
  lemma {:induction false} EncodeMore(written: Bytes, v: Int32)
    ensures if FitsOneByte(v) then written + Encode(v) == written + [LowByte(v)]
            else written + Encode(v) == written + [MoreByte(v)] + Encode(LogicalShift7(v))
  {
    hide FitsOneByte, LogicalShift7, MoreByte, LowByte;
  }

  /** On non-negative values the proxy writes the same bytes; on negative ones its loop has no end. */
  method ProxyWriteVarInt(buffer: Bytes, v: Int32) returns (written: Bytes)
    requires NonNegative(v)
    ensures written == buffer + Encode(v)
  {
    hide NonNegative, FitsOneByte, LogicalShift7, ArithmeticShift7, MoreByte, LowByte, Encode;
    var value := v;
    written := buffer;
    while true
      invariant NonNegative(value) && written + Encode(value) == buffer + Encode(v)
      decreases value
    {
      ShiftsAgree(value);
      EncodeMore(written, value);
      if FitsOneByte(value) {
        return written + [LowByte(value)];
      }
      written := written + [MoreByte(value)];
      value := ArithmeticShift7(value);
    }
  }

  /** The announced length of a non-negative VarInt is the number of bytes written. */
  method Len(v: Int32) returns (length: nat)
    requires NonNegative(v)
    ensures length == |Encode(v)|
  {
    hide NonNegative, FitsOneByte, LogicalShift7, ArithmeticShift7, MoreByte, LowByte;
    var value := v;
    length := 0;
    while true
      invariant NonNegative(value) && length + |Encode(value)| == |Encode(v)|
      decreases value
    {
      length := length + 1;
      if FitsOneByte(value) {
        break;
      }
      ShiftsAgree(value);
      value := ArithmeticShift7(value);
    }
  }

  /** The value the proxy's writer holds after `n` rounds. */
  function AfterRounds(v: Int32, n: nat): Int32 {
    if n == 0 then v else ArithmeticShift7(AfterRounds(v, n - 1))
  }

  lemma {:induction false} RoundsKeepSign(v: Int32, n: nat)
    requires !NonNegative(v)
    ensures !NonNegative(AfterRounds(v, n)) && !FitsOneByte(AfterRounds(v, n))
  {
    hide NonNegative, FitsOneByte, ArithmeticShift7;
    if n > 0 {
      RoundsKeepSign(v, n - 1);
      NegativeStays(AfterRounds(v, n - 1));
    }
    NegativeStays(AfterRounds(v, n));
  }

  lemma {:induction false} FourRoundsSuffice(v: Int32)
    requires NonNegative(v)
    ensures FitsOneByte(ArithmeticShift7(ArithmeticShift7(ArithmeticShift7(ArithmeticShift7(v)))))
  {
  }

  /** The exit of the proxy's writing loop is reachable exactly on non-negative values. */
  lemma {:induction false} ExitIffNonNegative(v: Int32)
    ensures (exists n :: FitsOneByte(AfterRounds(v, n))) <==> NonNegative(v)
  {
    hide NonNegative, FitsOneByte, ArithmeticShift7;
    if NonNegative(v) {
      FourRoundsSuffice(v);
      assert AfterRounds(v, 0) == v;
      assert AfterRounds(v, 1) == ArithmeticShift7(v);
      assert AfterRounds(v, 2) == ArithmeticShift7(AfterRounds(v, 1));
      assert AfterRounds(v, 3) == ArithmeticShift7(AfterRounds(v, 2));
      assert FitsOneByte(AfterRounds(v, 4));
    } else {
      forall n ensures !FitsOneByte(AfterRounds(v, n)) {
        RoundsKeepSign(v, n);
      }
    }
  }

  /** The proxy's writer between two rounds: what it has written and holds, or all it wrote. */
  datatype Writer = Writing(buffer: Bytes, value: Int32) | Done(buffer: Bytes)

  function WriterRound(w: Writer): Writer {
    if w.Done? then w
    else if FitsOneByte(w.value) then Done(w.buffer + [LowByte(w.value)])
    else Writing(w.buffer + [MoreByte(w.value)], ArithmeticShift7(w.value))
  }

  function WriterAfter(w: Writer, n: nat): Writer {
    if n == 0 then w else WriterRound(WriterAfter(w, n - 1))
  }

  /** On a negative value the writer never finishes and every round makes the buffer longer by a byte. */
  lemma {:induction false} NegativeFillsBuffer(buffer: Bytes, v: Int32, n: nat)
    requires !NonNegative(v)
    ensures var w := WriterAfter(Writing(buffer, v), n);
            w.Writing? && |w.buffer| == |buffer| + n && !NonNegative(w.value)
  {
    hide NonNegative, FitsOneByte, ArithmeticShift7, MoreByte, LowByte;
    if n > 0 {
      NegativeFillsBuffer(buffer, v, n - 1);
      NegativeStays(WriterAfter(Writing(buffer, v), n - 1).value);
    }
  }
}
