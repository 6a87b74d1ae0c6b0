/**
 * Protocol: the Battle.net packet header, its constants and its
 * twelve-byte wire layout.
 *
 * The header is copied field by field with `memcpy`, i.e. in the host's
 * byte order. The model fixes little-endian order (the order of the x86
 * hosts the server targets); the round-trip properties hold for any fixed
 * order.
 */
module Protocol {
  type uint8 = x: int | 0 <= x < 0x100
  type uint16 = x: int | 0 <= x < 0x1_0000
  type uint32 = x: int | 0 <= x < 0x1_0000_0000
  type Bytes = seq<uint8>

  const SERVICE_ID_AUTHENTICATION: uint16 := 0x0001
  const SERVICE_ID_CONNECTION: uint16 := 0x0002
  const SERVICE_ID_FRIENDS: uint16 := 0x0003
  const SERVICE_ID_GAME_UTILITIES: uint16 := 0x0004

  const METHOD_ID_AUTH_CHALLENGE_REQUEST: uint16 := 0x0001
  const METHOD_ID_AUTH_CHALLENGE_RESPONSE: uint16 := 0x0002
  const METHOD_ID_AUTH_SESSION_REQUEST: uint16 := 0x0003
  const METHOD_ID_AUTH_SESSION_RESPONSE: uint16 := 0x0004
  const METHOD_ID_LOGON_QUEUE_UPDATE: uint16 := 0x0005
  const METHOD_ID_LOGON_SUCCESS: uint16 := 0x0006

  /** sizeof(service_id) + sizeof(method_id) + sizeof(request_id) + sizeof(body_length). */
  const HEADER_SIZE: nat := 2 + 2 + 4 + 4
  const MAX_PACKET_BODY_SIZE: nat := 1024 * 64
  const MAX_PACKET_FULL_SIZE: nat := HEADER_SIZE + MAX_PACKET_BODY_SIZE

  lemma Sizes()
    ensures HEADER_SIZE == 12
    ensures MAX_PACKET_BODY_SIZE == 65536
    ensures MAX_PACKET_FULL_SIZE == 65548
  {
  }

  /** The four header fields as a value. */
  datatype Header = Header(serviceId: uint16, methodId: uint16, requestId: uint32, bodyLength: uint32)

  function U16Bytes(v: uint16): (b: Bytes)
    ensures |b| == 2
  {
    [v % 0x100, v / 0x100]
  }

  function U32Bytes(v: uint32): (b: Bytes)
    ensures |b| == 4
  {
    var q1 := v / 0x100;
    var q2 := q1 / 0x100;
    [v % 0x100, q1 % 0x100, q2 % 0x100, q2 / 0x100]
  }

  function ReadU16(b: Bytes, off: nat): uint16
    requires off + 2 <= |b|
  {
    b[off] as int + 0x100 * b[off + 1] as int
  }

  function ReadU32(b: Bytes, off: nat): uint32
    requires off + 4 <= |b|
  {
    b[off] as int + 0x100 * (b[off + 1] as int + 0x100 * (b[off + 2] as int + 0x100 * b[off + 3] as int))
  }

  lemma U16RoundTrip(v: uint16)
    ensures ReadU16(U16Bytes(v), 0) == v
  {
  }

  lemma U32RoundTrip(v: uint32)
    ensures ReadU32(U32Bytes(v), 0) == v
  {
    var q1 := v / 0x100;
    var q2 := q1 / 0x100;
    assert v == v % 0x100 + 0x100 * q1;
    assert q1 == q1 % 0x100 + 0x100 * q2;
    assert q2 == q2 % 0x100 + 0x100 * (q2 / 0x100);
  }

  lemma BytesU16RoundTrip(b: Bytes, off: nat)
    requires off + 2 <= |b|
    ensures U16Bytes(ReadU16(b, off)) == b[off..off + 2]
  {
  }

  lemma BytesU32RoundTrip(b: Bytes, off: nat)
    requires off + 4 <= |b|
    ensures U32Bytes(ReadU32(b, off)) == b[off..off + 4]
  {
    var b0, b1, b2, b3 := b[off] as int, b[off + 1] as int, b[off + 2] as int, b[off + 3] as int;
    var v := ReadU32(b, off) as int;
    var q2 := b2 + 0x100 * b3;
    var q1 := b1 + 0x100 * q2;
    assert v == b0 + 0x100 * q1;
    assert v / 0x100 == q1 && v % 0x100 == b0;
    assert q1 / 0x100 == q2 && q1 % 0x100 == b1;
    assert q2 / 0x100 == b3 && q2 % 0x100 == b2;
  }

  /** The wire image `serialize` leaves in its buffer. */
  function Encode(h: Header): (b: Bytes)
  {
    U16Bytes(h.serviceId) + U16Bytes(h.methodId) + U32Bytes(h.requestId) + U32Bytes(h.bodyLength)
  }

  /** The fields `deserialize` reads from the first twelve bytes. */
  function Decode(b: Bytes): Header
    requires |b| >= HEADER_SIZE
  {
    Header(ReadU16(b, 0), ReadU16(b, 2), ReadU32(b, 4), ReadU32(b, 8))
  }

  /** `serialize` produces exactly HEADER_SIZE bytes with service_id at offset
      0, method_id at 2, request_id at 4 and body_length at 8. */
  lemma EncodeLayout(h: Header)
    ensures |Encode(h)| == HEADER_SIZE
    ensures Encode(h)[0..2] == U16Bytes(h.serviceId)
    ensures Encode(h)[2..4] == U16Bytes(h.methodId)
    ensures Encode(h)[4..8] == U32Bytes(h.requestId)
    ensures Encode(h)[8..12] == U32Bytes(h.bodyLength)
  {
  }

  /** Decoding an encoded header reproduces all four fields. */
  lemma DecodeEncode(h: Header)
    ensures |Encode(h)| >= HEADER_SIZE && Decode(Encode(h)) == h
  {
    EncodeLayout(h);
    var e := Encode(h);
    U16RoundTrip(h.serviceId);
    U16RoundTrip(h.methodId);
    U32RoundTrip(h.requestId);
    U32RoundTrip(h.bodyLength);
    assert ReadU16(e, 0) == ReadU16(e[0..2], 0);
    assert ReadU16(e, 2) == ReadU16(e[2..4], 0);
    assert ReadU32(e, 4) == ReadU32(e[4..8], 0);
    assert ReadU32(e, 8) == ReadU32(e[8..12], 0);
  }

  /** Only the first HEADER_SIZE bytes are read: whatever follows an encoded
      header does not change the decoded fields. */
  lemma DecodeIgnoresTrailing(h: Header, rest: Bytes)
    ensures |Encode(h) + rest| >= HEADER_SIZE && Decode(Encode(h) + rest) == h
  {
    EncodeLayout(h);
    var b := Encode(h) + rest;
    assert b[..12] == Encode(h);
    assert forall i :: 0 <= i < 12 ==> b[i] == Encode(h)[i];
  }

  /** Every twelve-byte buffer is the encoding of the header decoded from it,
      so the wire format and the header values are in one-to-one
      correspondence. */
  lemma EncodeDecode(b: Bytes)
    requires |b| == HEADER_SIZE
    ensures Encode(Decode(b)) == b
  {
    BytesU16RoundTrip(b, 0);
    BytesU16RoundTrip(b, 2);
    BytesU32RoundTrip(b, 4);
    BytesU32RoundTrip(b, 8);
    assert b == b[0..2] + b[2..4] + b[4..8] + b[8..12];
  }

  /** The header object; `serialize` and `deserialize` act on its fields. */
  class PacketHeader {
    var serviceId: uint16
    var methodId: uint16
    var requestId: uint32
    var bodyLength: uint32

    function Value(): Header
      reads this
    {
      Header(serviceId, methodId, requestId, bodyLength)
    }

    constructor (h: Header)
      ensures Value() == h
    {
      serviceId, methodId, requestId, bodyLength := h.serviceId, h.methodId, h.requestId, h.bodyLength;
    }

    /** `serialize`: the output buffer is resized to HEADER_SIZE and every byte
        of it overwritten, so its previous contents do not matter. */
    method Serialize() returns (buffer: Bytes)
      ensures buffer == Encode(Value())
      ensures |buffer| == HEADER_SIZE && Decode(buffer) == Value()
    {
      buffer := U16Bytes(serviceId);
      buffer := buffer + U16Bytes(methodId);
      buffer := buffer + U32Bytes(requestId);
      buffer := buffer + U32Bytes(bodyLength);
      DecodeEncode(Value());
    }

    /** `deserialize`: fails, changing nothing, on a buffer shorter than
        HEADER_SIZE; otherwise overwrites all four fields from its first
        twelve bytes. */
    method Deserialize(buffer: Bytes) returns (ok: bool)
      modifies this
      ensures ok <==> |buffer| >= HEADER_SIZE
      ensures ok ==> Value() == Decode(buffer)
      ensures !ok ==> Value() == old(Value())
    {
      if |buffer| < HEADER_SIZE {
        return false;
      }
      serviceId := ReadU16(buffer, 0);
      methodId := ReadU16(buffer, 2);
      requestId := ReadU32(buffer, 4);
      bodyLength := ReadU32(buffer, 8);
      return true;
    }
  }
}
