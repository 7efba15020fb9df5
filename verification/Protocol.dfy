/** The wire protocol of torcall/network/protocol.py: packet framing and the handshake payload. */
module Protocol {
  import opened Wrappers
  import opened Bytes
  import opened Primitives

  // ---------------------------------------------------------------------------
  // Packets
  // ---------------------------------------------------------------------------

  datatype MessageType =
    | CallRequest | CallAccept | CallReject | AudioData | CallEnd | CallEndAck | Ping | Pong

  const HEADER_SIZE := 7
  const MAX_SEQUENCE := 0xFFFF_FFFF
  const MAX_PAYLOAD := 0xFFFF

  datatype Packet = Packet(msgType: MessageType, sequence: int, payload: Bytes)

  datatype PacketError = HeaderTooShort | UnknownType | IncompletePayload

  datatype Header = Header(msgType: MessageType, sequence: nat, length: nat)

  function TypeCode(t: MessageType): Byte {
    match t
    case CallRequest => 0x01
    case CallAccept => 0x02
    case CallReject => 0x03
    case AudioData => 0x10
    case CallEnd => 0x20
    case CallEndAck => 0x21
    case Ping => 0x30
    case Pong => 0x31
  }

  function TypeOfCode(c: Byte): Option<MessageType> {
    if c == 0x01 then Some(CallRequest)
    else if c == 0x02 then Some(CallAccept)
    else if c == 0x03 then Some(CallReject)
    else if c == 0x10 then Some(AudioData)
    else if c == 0x20 then Some(CallEnd)
    else if c == 0x21 then Some(CallEndAck)
    else if c == 0x30 then Some(Ping)
    else if c == 0x31 then Some(Pong)
    else None
  }

  /** The header fields hold the packet: struct.pack raises otherwise. */
  predicate InRange(p: Packet) {
    0 <= p.sequence <= MAX_SEQUENCE && |p.payload| <= MAX_PAYLOAD
  }

  function EncodeHeader(t: MessageType, sequence: nat, length: nat): (b: Bytes)
    ensures |b| == HEADER_SIZE
  {
    [TypeCode(t)] + BigEndian(sequence, 4) + BigEndian(length, 2)
  }

  function EncodePacket(p: Packet): Option<Bytes> {
    if InRange(p) then Some(EncodeHeader(p.msgType, p.sequence, |p.payload|) + p.payload) else None
  }

  function DecodeHeader(data: Bytes): Result<Header, PacketError> {
    if |data| < HEADER_SIZE then Err(HeaderTooShort)
    else
      match TypeOfCode(data[0])
      case None => Err(UnknownType)
      case Some(t) => Ok(Header(t, ReadBigEndian(data[1..5]), ReadBigEndian(data[5..7])))
  }

  function FromBytes(data: Bytes): Result<Packet, PacketError> {
    match DecodeHeader(data)
    case Err(e) => Err(e)
    case Ok(h) =>
      if |data| < HEADER_SIZE + h.length then Err(IncompletePayload)
      else Ok(Packet(h.msgType, h.sequence, data[HEADER_SIZE..HEADER_SIZE + h.length]))
  }

  lemma DecodeEncodedHeader(t: MessageType, sequence: nat, length: nat, rest: Bytes)
    requires sequence <= MAX_SEQUENCE && length <= MAX_PAYLOAD
    ensures DecodeHeader(EncodeHeader(t, sequence, length) + rest) == Ok(Header(t, sequence, length))
  {
    FieldSizes();
    ReadAfterPack(sequence, 4);
    ReadAfterPack(length, 2);
    var data := EncodeHeader(t, sequence, length) + rest;
    assert data[1..5] == BigEndian(sequence, 4);
    assert data[5..7] == BigEndian(length, 2);
  }

  /** Type, sequence number and length lie in this order, each with its most significant byte first. */
  lemma {:induction false} PacketLayout(p: Packet)
    requires InRange(p)
    ensures var b := EncodePacket(p).value;
            && |b| == 7 + |p.payload|
            && b[0] == TypeCode(p.msgType)
            && 0x100_0000 * (b[1] as int) + 0x1_0000 * (b[2] as int) + 0x100 * (b[3] as int) + b[4] == p.sequence
            && 0x100 * (b[5] as int) + b[6] == |p.payload|
            && b[7..] == p.payload
  {
    var b := EncodePacket(p).value;
    FieldSizes();
    ReadAfterPack(p.sequence, 4);
    ReadAfterPack(|p.payload|, 2);
    assert b[1..5] == BigEndian(p.sequence, 4) && b[5..7] == BigEndian(|p.payload|, 2);
    ReadFour(b[1..5]);
    ReadTwo(b[5..7]);
  }

  lemma ReadTwo(b: Bytes)
    requires |b| == 2
    ensures ReadBigEndian(b) == 0x100 * (b[0] as int) + b[1]
  {
    assert b[..1][..0] == [];
    assert ReadBigEndian(b[..1]) == b[0];
  }

  lemma ReadFour(b: Bytes)
    requires |b| == 4
    ensures ReadBigEndian(b) == 0x100_0000 * (b[0] as int) + 0x1_0000 * (b[1] as int) + 0x100 * (b[2] as int) + b[3]
  {
    ReadTwo(b[..2]);
    assert b[..3][..2] == b[..2];
    assert ReadBigEndian(b[..3]) == 0x100 * ReadBigEndian(b[..2]) + b[2];
  }

  /** Round trip, with any bytes behind the packet: an encoding announces its own end. */
  lemma PacketRoundTrip(p: Packet, rest: Bytes)
    requires InRange(p)
    ensures FromBytes(EncodePacket(p).value + rest) == Ok(p)
  {
    var header := EncodeHeader(p.msgType, p.sequence, |p.payload|);
    var data := EncodePacket(p).value + rest;
    assert data == header + (p.payload + rest);
    DecodeEncodedHeader(p.msgType, p.sequence, |p.payload|, p.payload + rest);
    assert data[HEADER_SIZE..HEADER_SIZE + |p.payload|] == p.payload;
  }

  /** Only encodings are decoded: what is accepted is the encoding of the result, followed by unread bytes. */
  lemma DecodedPacketIsCanonical(data: Bytes)
    requires FromBytes(data).Ok?
    ensures InRange(FromBytes(data).value)
    ensures EncodePacket(FromBytes(data).value).value <= data
  {
    FieldSizes();
    var p := FromBytes(data).value;
    ReadBigEndianBound(data[1..5]);
    ReadBigEndianBound(data[5..7]);
    PackAfterRead(data[1..5]);
    PackAfterRead(data[5..7]);
    assert data[..HEADER_SIZE] == [data[0]] + data[1..5] + data[5..7];
    assert data == data[..HEADER_SIZE] + p.payload + data[HEADER_SIZE + |p.payload|..];
  }

  // ---------------------------------------------------------------------------
  // The handshake payload
  // ---------------------------------------------------------------------------

  const LEGACY_LEN := 32
  const V1_LEN := 128
  const V2_LEN := 144
  const V3_MIN_LEN := 146

  datatype Handshake = Handshake(
    ephemeral: Bytes,
    identity: Option<Bytes>,
    signature: Option<Bytes>,
    nonce: Option<Bytes>,
    address: Option<string>
  )

  /** None stands for the ValueError. */
  function EncodeHandshake(s: Suite, h: Handshake): Option<Bytes> {
    if |h.ephemeral| != 32 then None
    else if h.identity.None? || h.signature.None? then Some(h.ephemeral)
    else if |h.identity.value| != 32 || |h.signature.value| != 64 then None
    else
      var base := h.ephemeral + h.identity.value + h.signature.value;
      if h.nonce.None? then Some(base)
      else if |h.nonce.value| != 16 then None
      else if h.address.None? then Some(base + h.nonce.value)
      else
        var addr := s.utf8Encode(h.address.value);
        if |addr| > 0xFFFF then None
        else Some(base + h.nonce.value + BigEndian(|addr|, 2) + addr)
  }

  function DecodeHandshake(s: Suite, payload: Bytes): Option<Handshake> {
    if |payload| == LEGACY_LEN then Some(Handshake(payload, None, None, None, None))
    else if |payload| == V1_LEN then
      Some(Handshake(payload[..32], Some(payload[32..64]), Some(payload[64..]), None, None))
    else if |payload| == V2_LEN then
      Some(Handshake(payload[..32], Some(payload[32..64]), Some(payload[64..128]), Some(payload[128..]), None))
    else if |payload| >= V3_MIN_LEN then
      var addrLen := ReadBigEndian(payload[144..146]);
      if |payload| - V3_MIN_LEN < addrLen then None
      else
        match s.utf8Decode(payload[V3_MIN_LEN..V3_MIN_LEN + addrLen])
        case None => None
        case Some(address) =>
          Some(Handshake(payload[..32], Some(payload[32..64]), Some(payload[64..128]), Some(payload[128..144]),
                         Some(address)))
    else None
  }

  /** What an encoding keeps: no signature without an identity, no address without a nonce. */
  function Canonical(h: Handshake): Handshake {
    if h.identity.None? || h.signature.None? then Handshake(h.ephemeral, None, None, None, None)
    else if h.nonce.None? then h.(address := None)
    else h
  }

  /** Exactly the inputs that encode_handshake does not refuse. */
  predicate Encodable(s: Suite, h: Handshake) {
    && |h.ephemeral| == 32
    && (h.identity.Some? && h.signature.Some? ==>
          && |h.identity.value| == 32
          && |h.signature.value| == 64
          && (h.nonce.Some? ==>
                && |h.nonce.value| == 16
                && (h.address.Some? ==> |s.utf8Encode(h.address.value)| <= 0xFFFF)))
  }

  /** Decoding an encoding gives the canonical form, for all four forms and an empty v3 address too. */
  lemma HandshakeRoundTrip(s: Suite, h: Handshake)
    requires Utf8RoundTrips(s)
    ensures EncodeHandshake(s, h).Some? <==> Encodable(s, h)
    ensures EncodeHandshake(s, h).Some? ==>
              DecodeHandshake(s, EncodeHandshake(s, h).value) == Some(Canonical(h))
  {
    if EncodeHandshake(s, h).Some? && h.identity.Some? && h.signature.Some? {
      var payload := EncodeHandshake(s, h).value;
      assert payload[..32] == h.ephemeral && payload[32..64] == h.identity.value;
      if h.nonce.None? {
        assert payload[64..] == h.signature.value;
      } else {
        assert payload[64..128] == h.signature.value;
        if h.address.None? {
          assert payload[128..] == h.nonce.value;
        } else {
          var addr := s.utf8Encode(h.address.value);
          FieldSizes();
          ReadAfterPack(|addr|, 2);
          assert payload[128..144] == h.nonce.value;
          assert payload[144..146] == BigEndian(|addr|, 2);
          assert payload[146..] == addr;
          assert payload[146..146 + |addr|] == addr;
        }
      }
    }
  }

  /** Key, identity, signature, nonce and address lie in this order, the address behind its length. */
  lemma {:induction false} HandshakeLayout(s: Suite, h: Handshake)
    requires EncodeHandshake(s, h).Some?
    ensures var b := EncodeHandshake(s, h).value;
            && |h.ephemeral| == 32 && h.ephemeral <= b
            && (h.identity.Some? && h.signature.Some? ==>
                  && |b| >= 128 && b[32..64] == h.identity.value && b[64..128] == h.signature.value
                  && (h.nonce.None? ==> |b| == 128)
                  && (h.nonce.Some? ==> |b| >= 144 && b[128..144] == h.nonce.value)
                  && (h.nonce.Some? && h.address.None? ==> |b| == 144)
                  && (h.nonce.Some? && h.address.Some? ==>
                        && |b| >= 146 && 0x100 * (b[144] as int) + b[145] == |b| - 146
                        && b[146..] == s.utf8Encode(h.address.value)))
            && (h.identity.None? || h.signature.None? ==> |b| == 32)
  {
    var b := EncodeHandshake(s, h).value;
    if h.identity.Some? && h.signature.Some? {
      assert b[32..64] == h.identity.value && b[64..128] == h.signature.value;
      if h.nonce.Some? {
        assert b[128..144] == h.nonce.value;
        if h.address.Some? {
          var addr := s.utf8Encode(h.address.value);
          FieldSizes();
          ReadAfterPack(|addr|, 2);
          assert b[144..146] == BigEndian(|addr|, 2);
          ReadTwo(b[144..146]);
        }
      }
    }
  }

  /** The length the payload announces for itself; the bytes after it are ignored by the decoder. */
  function AnnouncedLength(payload: Bytes): nat {
    if |payload| < V3_MIN_LEN then |payload| else V3_MIN_LEN + ReadBigEndian(payload[144..146])
  }

  /** Re-encoding an accepted payload gives back its announced part: all of it for the fixed-length forms. */
  lemma HandshakeReencodes(s: Suite, payload: Bytes)
    requires Utf8RoundTrips(s)
    requires DecodeHandshake(s, payload).Some?
    ensures AnnouncedLength(payload) <= |payload|
    ensures EncodeHandshake(s, DecodeHandshake(s, payload).value) == Some(payload[..AnnouncedLength(payload)])
    ensures |payload| < V3_MIN_LEN ==> EncodeHandshake(s, DecodeHandshake(s, payload).value) == Some(payload)
  {
    var h := DecodeHandshake(s, payload).value;
    if |payload| == V1_LEN {
      assert payload == payload[..32] + payload[32..64] + payload[64..];
    } else if |payload| == V2_LEN {
      assert payload == payload[..32] + payload[32..64] + payload[64..128] + payload[128..];
    } else if |payload| >= V3_MIN_LEN {
      FieldSizes();
      PackAfterRead(payload[144..146]);
      ReadBigEndianBound(payload[144..146]);
      var end := AnnouncedLength(payload);
      assert payload[..end] == payload[..32] + payload[32..64] + payload[64..128] + payload[128..144]
                               + payload[144..146] + payload[146..end];
    }
    if |payload| < V3_MIN_LEN {
      assert payload[..AnnouncedLength(payload)] == payload;
    }
  }

  /** payload is the encoding of h; a v3 encoding may be followed by bytes that nobody reads. */
  ghost predicate Carries(s: Suite, payload: Bytes, h: Handshake) {
    && h == Canonical(h)
    && Encodable(s, h)
    && if h.address.Some? then EncodeHandshake(s, h).value <= payload else EncodeHandshake(s, h).value == payload
  }

  lemma TailIsIgnored(s: Suite, front: Bytes, payload: Bytes)
    requires |front| >= V3_MIN_LEN && AnnouncedLength(front) == |front| && front <= payload
    ensures DecodeHandshake(s, payload) == DecodeHandshake(s, front)
  {
    assert payload[..|front|] == front;
    assert payload[..32] == front[..32] && payload[32..64] == front[32..64] && payload[64..128] == front[64..128];
    assert payload[128..144] == front[128..144] && payload[144..146] == front[144..146];
    assert payload[146..|front|] == front[146..|front|];
  }

  /** The decoder is the exact inverse of Carries: it accepts the payloads that carry a handshake, and finds it. */
  lemma DecoderIsExact(s: Suite, payload: Bytes, h: Handshake)
    requires Utf8RoundTrips(s)
    ensures DecodeHandshake(s, payload) == Some(h) <==> Carries(s, payload, h)
  {
    if DecodeHandshake(s, payload) == Some(h) {
      HandshakeReencodes(s, payload);
      HandshakeRoundTrip(s, h);
    }
    if Carries(s, payload, h) {
      HandshakeRoundTrip(s, h);
      var enc := EncodeHandshake(s, h).value;
      if h.address.Some? {
        TailIsIgnored(s, enc, payload);
      }
    }
  }

  /** Exactly which payloads raise ValueError. */
  lemma HandshakeRejections(s: Suite, payload: Bytes)
    ensures DecodeHandshake(s, payload).None? <==>
              || (|payload| !in {32, 128, 144} && |payload| < 146)
              || |payload| < AnnouncedLength(payload)
              || (|payload| >= 146 && s.utf8Decode(payload[146..AnnouncedLength(payload)]).None?)
  {
  }
}
