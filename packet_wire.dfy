/**
 * The wire form of the connection's Packet union (Ping, Pong, Msg) in the
 * Protocol Buffers encoding: base-128 varints, a tag of field number and
 * wire type before every field, length-delimited embedded messages and
 * bytes, and proto3 default values left out.
 */
module PacketWire {
  import opened Wrappers
  import opened Bytes

  /** A protobuf int32. */
  type Int32 = x: int | -0x8000_0000 <= x < 0x8000_0000

  const TwoTo32: nat := 0x1_0000_0000
  const TwoTo64: nat := 0x1_0000_0000_0000_0000

  /** The three packets a connection exchanges. */
  datatype Packet =
    | Ping
    | Pong
    | Msg(channelId: Int32, eof: bool, data: Bytes)

  datatype WireError = Truncated | UnexpectedField(tag: nat) | BadLength | TrailingBytes

  // ---------------------------------------------------------------------
  // Varints

  /** Base-128 varint: low seven bits first, the high bit set on every byte but the last. */
  function Varint(n: nat): (b: Bytes)
    ensures |b| >= 1 && b[|b| - 1] < 0x80
    ensures forall i :: 0 <= i < |b| - 1 ==> b[i] >= 0x80
    ensures n < 0x80 <==> |b| == 1
    decreases n
  {
    if n < 0x80 then [n] else [n % 0x80 + 0x80] + Varint(n / 0x80)
  }

  /** Reads one varint off the front of `b`, returning its value and what follows. */
  function ParseVarint(b: Bytes): Result<(nat, Bytes), WireError>
  {
    if b == [] then Err(Truncated)
    else if b[0] < 0x80 then Ok((b[0], b[1..]))
    else match ParseVarint(b[1..])
      case Err(e) => Err(e)
      case Ok((v, rest)) => Ok((b[0] - 0x80 + 0x80 * v, rest))
  }

  lemma {:induction false} VarintRoundTrip(n: nat, rest: Bytes)
    ensures ParseVarint(Varint(n) + rest) == Ok((n, rest))
    decreases n
  {
    if n >= 0x80 {
      VarintRoundTrip(n / 0x80, rest);
      assert Varint(n) + rest == [n % 0x80 + 0x80] + (Varint(n / 0x80) + rest);
    }
  }

  // ---------------------------------------------------------------------
  // Fields

  const WireVarint: nat := 0
  const WireLen: nat := 2

  /** The key in front of every field. */
  function Tag(field: nat, wireType: nat): nat
  {
    field * 8 + wireType
  }

  /** A varint field. */
  function VarintField(field: nat, v: nat): Bytes
  {
    Varint(Tag(field, WireVarint)) + Varint(v)
  }

  /** A length-delimited field: key, byte length, payload. */
  function LenField(field: nat, payload: Bytes): (b: Bytes)
    ensures |b| > |payload|
  {
    Varint(Tag(field, WireLen)) + Varint(|payload|) + payload
  }

  /** int32 values go on the wire as 64-bit two's complement varints. */
  function Int32Wire(x: Int32): (v: nat)
    ensures v < TwoTo64
  {
    if x < 0 then x + TwoTo64 else x
  }

  /** Reading an int32 keeps the low 32 bits of the varint, as a signed value. */
  function Int32FromWire(v: nat): Int32
  {
    var low := v % TwoTo32;
    if low >= 0x8000_0000 then low - TwoTo32 else low
  }

  lemma Int32WireRoundTrip(x: Int32)
    ensures Int32FromWire(Int32Wire(x)) == x
  {
    if x < 0 {
      assert (x + TwoTo64) % TwoTo32 == x + TwoTo32;
    }
  }

  // ---------------------------------------------------------------------
  // Packets

  const PingField: nat := 1
  const PongField: nat := 2
  const MsgField: nat := 3

  const ChannelIdField: nat := 1
  const EofField: nat := 2
  const DataField: nat := 3

  /** The channel_id field of a PacketMsg; left out when 0. */
  function ChannelPart(channelId: Int32): Bytes
  {
    if channelId == 0 then [] else VarintField(ChannelIdField, Int32Wire(channelId))
  }

  /** The eof field of a PacketMsg; left out when false. */
  function EofPart(eof: bool): Bytes
  {
    if eof then VarintField(EofField, 1) else []
  }

  /** The data field of a PacketMsg; left out when empty. */
  function DataPart(data: Bytes): Bytes
  {
    if data == [] then [] else LenField(DataField, data)
  }

  /** A PacketMsg body: fields in number order, each left out when it holds its default value. */
  function EncodeMsgBody(channelId: Int32, eof: bool, data: Bytes): Bytes
  {
    ChannelPart(channelId) + EofPart(eof) + DataPart(data)
  }

  /** The Packet wrapper: the chosen case as a length-delimited embedded message. */
  function Encode(p: Packet): (b: Bytes)
    ensures |b| >= 2
  {
    match p
    case Ping => LenField(PingField, [])
    case Pong => LenField(PongField, [])
    case Msg(ch, eof, data) => LenField(MsgField, EncodeMsgBody(ch, eof, data))
  }

  /** Reads a length-delimited payload that must fill the rest of `b` exactly. */
  function ParseLenToEnd(b: Bytes): Result<Bytes, WireError>
  {
    match ParseVarint(b)
    case Err(e) => Err(e)
    case Ok((n, rest)) =>
      if n != |rest| then Err(BadLength) else Ok(rest)
  }

  /** Reads an optional varint field with key `key`; absent means 0. */
  function ParseOptionalVarint(b: Bytes, key: nat): Result<(nat, Bytes), WireError>
    requires key < 0x80
  {
    if b != [] && b[0] == key then ParseVarint(b[1..]) else Ok((0, b))
  }

  /** Reads the data field, which must be the last thing in the body; absent means empty. */
  function DecodeData(b: Bytes): Result<Bytes, WireError>
  {
    if b == [] then Ok([])
    else if b[0] != Tag(DataField, WireLen) then Err(UnexpectedField(b[0]))
    else ParseLenToEnd(b[1..])
  }

  /**
   * Decodes a PacketMsg body whose fields come in number order, each at
   * most once; an absent field takes its default value.
   */
  function DecodeMsgBody(b: Bytes): Result<Packet, WireError>
  {
    match ParseOptionalVarint(b, Tag(ChannelIdField, WireVarint))
    case Err(e) => Err(e)
    case Ok((ch, r1)) =>
      match ParseOptionalVarint(r1, Tag(EofField, WireVarint))
      case Err(e) => Err(e)
      case Ok((eof, r2)) =>
        match DecodeData(r2)
        case Err(e) => Err(e)
        case Ok(data) => Ok(Msg(Int32FromWire(ch), eof != 0, data))
  }

  /** Decodes one whole Packet buffer. */
  function Decode(b: Bytes): Result<Packet, WireError>
  {
    match ParseVarint(b)
    case Err(e) => Err(e)
    case Ok((tag, rest)) =>
      if tag != Tag(PingField, WireLen) && tag != Tag(PongField, WireLen) && tag != Tag(MsgField, WireLen) then
        Err(UnexpectedField(tag))
      else match ParseLenToEnd(rest)
        case Err(e) => Err(e)
        case Ok(body) =>
          if tag == Tag(MsgField, WireLen) then DecodeMsgBody(body)
          else if body != [] then Err(TrailingBytes)
          else if tag == Tag(PingField, WireLen) then Ok(Ping)
          else Ok(Pong)
  }

  /** A key below 0x80 is a single byte. */
  lemma SmallVarint(n: nat)
    requires n < 0x80
    ensures Varint(n) == [n]
  {
  }

  lemma LenFieldLayout(field: nat, payload: Bytes)
    requires Tag(field, WireLen) < 0x80
    ensures LenField(field, payload) == [Tag(field, WireLen)] + (Varint(|payload|) + payload)
  {
    SmallVarint(Tag(field, WireLen));
  }

  lemma ParseLenRoundTrip(payload: Bytes)
    ensures ParseLenToEnd(Varint(|payload|) + payload) == Ok(payload)
  {
    VarintRoundTrip(|payload|, payload);
  }

  lemma OptionalVarintPresent(field: nat, v: nat, rest: Bytes)
    requires Tag(field, WireVarint) < 0x80
    ensures ParseOptionalVarint(VarintField(field, v) + rest, Tag(field, WireVarint)) == Ok((v, rest))
  {
    var key := Tag(field, WireVarint);
    SmallVarint(key);
    assert VarintField(field, v) + rest == [key] + (Varint(v) + rest);
    VarintRoundTrip(v, rest);
  }

  lemma DataPartRoundTrip(data: Bytes)
    ensures DecodeData(DataPart(data)) == Ok(data)
    ensures DataPart(data) == [] || DataPart(data)[0] == Tag(DataField, WireLen)
  {
    if data != [] {
      LenFieldLayout(DataField, data);
      ParseLenRoundTrip(data);
      assert DataPart(data)[1..] == Varint(|data|) + data;
    }
  }

  lemma EofPartRoundTrip(eof: bool, rest: Bytes)
    requires rest == [] || rest[0] == Tag(DataField, WireLen)
    ensures ParseOptionalVarint(EofPart(eof) + rest, Tag(EofField, WireVarint)) == Ok((if eof then 1 else 0, rest))
    ensures EofPart(eof) + rest == [] || (EofPart(eof) + rest)[0] != Tag(ChannelIdField, WireVarint)
  {
    if eof {
      OptionalVarintPresent(EofField, 1, rest);
      SmallVarint(Tag(EofField, WireVarint));
    } else {
      assert EofPart(eof) + rest == rest;
    }
  }

  lemma ChannelPartRoundTrip(ch: Int32, rest: Bytes)
    requires rest == [] || rest[0] != Tag(ChannelIdField, WireVarint)
    ensures ParseOptionalVarint(ChannelPart(ch) + rest, Tag(ChannelIdField, WireVarint)) == Ok((Int32Wire(ch), rest))
  {
    if ch != 0 {
      OptionalVarintPresent(ChannelIdField, Int32Wire(ch), rest);
    } else {
      assert ChannelPart(ch) + rest == rest;
    }
  }

  lemma MsgBodyRoundTrip(ch: Int32, eof: bool, data: Bytes)
    ensures DecodeMsgBody(EncodeMsgBody(ch, eof, data)) == Ok(Msg(ch, eof, data))
  {
    var d := DataPart(data);
    var ed := EofPart(eof) + d;
    assert EncodeMsgBody(ch, eof, data) == ChannelPart(ch) + ed;
    DataPartRoundTrip(data);
    EofPartRoundTrip(eof, d);
    ChannelPartRoundTrip(ch, ed);
    Int32WireRoundTrip(ch);
  }

  /** Decoding undoes encoding. */
  lemma EncodeDecodeRoundTrip(p: Packet)
    ensures Decode(Encode(p)) == Ok(p)
  {
    match p
    case Ping => EmptyRoundTrip(Ping, PingField);
    case Pong => EmptyRoundTrip(Pong, PongField);
    case Msg(ch, eof, data) => MsgRoundTrip(ch, eof, data);
  }

  lemma EmptyRoundTrip(p: Packet, field: nat)
    requires (p == Ping && field == PingField) || (p == Pong && field == PongField)
    ensures Decode(Encode(p)) == Ok(p)
  {
    LenFieldLayout(field, []);
    ParseLenRoundTrip([]);
    VarintRoundTrip(Tag(field, WireLen), Varint(0));
  }

  lemma MsgRoundTrip(ch: Int32, eof: bool, data: Bytes)
    ensures Decode(Encode(Msg(ch, eof, data))) == Ok(Msg(ch, eof, data))
  {
    var body := EncodeMsgBody(ch, eof, data);
    LenFieldLayout(MsgField, body);
    ParseLenRoundTrip(body);
    VarintRoundTrip(Tag(MsgField, WireLen), Varint(|body|) + body);
    MsgBodyRoundTrip(ch, eof, data);
  }

  /** Distinct packets never share an encoding. */
  lemma EncodeInjective(p: Packet, q: Packet)
    requires Encode(p) == Encode(q)
    ensures p == q
  {
    EncodeDecodeRoundTrip(p);
    EncodeDecodeRoundTrip(q);
  }

  // ---------------------------------------------------------------------
  // Test vectors

  /** The payload of the Msg vector. */
  const VectorData: Bytes := Ascii("data transmitted over the wire")

  /** The vector's payload bytes, as they appear in its hexadecimal form. */
  lemma VectorDataBytes()
    ensures VectorData == [0x64, 0x61, 0x74, 0x61, 0x20, 0x74, 0x72, 0x61, 0x6e, 0x73, 0x6d, 0x69, 0x74, 0x74, 0x65,
                           0x64, 0x20, 0x6f, 0x76, 0x65, 0x72, 0x20, 0x74, 0x68, 0x65, 0x20, 0x77, 0x69, 0x72, 0x65]
  {
  }

  /** Ping is "0a00": field 1, length-delimited, empty. */
  lemma PingVector()
    ensures Encode(Ping) == [0x0a, 0x00]
  {
  }

  /** Pong is "1200": field 2, length-delimited, empty. */
  lemma PongVector()
    ensures Encode(Pong) == [0x12, 0x00]
  {
  }

  /**
   * Msg{channel 1, eof false, the payload} is "1a22" (field 3, 34 bytes),
   * "0801" (channel_id 1), no eof field, then "1a1e" (data, 30 bytes) and
   * the payload itself.
   */
  lemma MsgVector()
    ensures Encode(Msg(1, false, VectorData)) == [0x1a, 0x22, 0x08, 0x01, 0x1a, 0x1e] + VectorData
  {
    assert |VectorData| == 30;
    SmallVarint(30);
    LenFieldLayout(DataField, VectorData);
    assert EncodeMsgBody(1, false, VectorData) == [0x08, 0x01, 0x1a, 0x1e] + VectorData;
    SmallVarint(34);
    LenFieldLayout(MsgField, [0x08, 0x01, 0x1a, 0x1e] + VectorData);
  }
}
