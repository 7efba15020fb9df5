/**
 * Reading packets from a byte stream that arrives in arbitrary pieces
 * (_recv_exactly and read_packet_sync of torcall/network/protocol.py).
 */
module PacketReader {
  import opened Wrappers
  import opened Bytes
  import opened Protocol

  /** What one read gives: a packet, the None of a closed connection, or the ValueError of an unknown type. */
  datatype ReadResult = Received(packet: Packet) | Eof | Malformed

  function Flatten(chunks: seq<Bytes>): Bytes {
    if chunks == [] then [] else chunks[0] + Flatten(chunks[1..])
  }

  /** The receiving side of a TCP connection: the pieces still to arrive, after which the peer has closed. */
  class Socket {
    var incoming: seq<Bytes>

    ghost predicate Valid()
      reads this
    {
      forall i :: 0 <= i < |incoming| ==> incoming[i] != []
    }

    ghost function Stream(): Bytes
      reads this
    {
      Flatten(incoming)
    }

    constructor (chunks: seq<Bytes>)
      requires forall i :: 0 <= i < |chunks| ==> chunks[i] != []
      ensures Valid() && Stream() == Flatten(chunks)
    {
      incoming := chunks;
    }

    /** socket.recv: at most n bytes of the next piece, and nothing only once the stream has ended. */
    method Recv(n: nat) returns (chunk: Bytes)
      requires Valid() && n > 0
      modifies this
      ensures Valid() && |chunk| <= n
      ensures chunk + Stream() == old(Stream())
      ensures chunk == [] <==> old(Stream()) == []
    {
      if incoming == [] {
        chunk := [];
      } else if |incoming[0]| <= n {
        chunk := incoming[0];
        incoming := incoming[1..];
      } else {
        chunk := incoming[0][..n];
        ghost var whole := incoming[0];
        incoming := [incoming[0][n..]] + incoming[1..];
        assert incoming[1..] == old(incoming)[1..];
        assert whole == chunk + incoming[0];
      }
    }
  }

  /** _recv_exactly: all n bytes, or None when the stream ends first. */
  method RecvExactly(sock: Socket, n: nat) returns (r: Option<Bytes>)
    requires sock.Valid()
    modifies sock
    ensures sock.Valid()
    ensures |old(sock.Stream())| >= n ==> r == Some(old(sock.Stream())[..n]) && sock.Stream() == old(sock.Stream())[n..]
    ensures |old(sock.Stream())| < n ==> r == None && sock.Stream() == []
  {
    var buf: Bytes := [];
    while |buf| < n
      invariant sock.Valid() && |buf| <= n
      invariant buf + sock.Stream() == old(sock.Stream())
    {
      var chunk := sock.Recv(n - |buf|);
      if chunk == [] {
        return None;
      }
      buf := buf + chunk;
    }
    assert buf == old(sock.Stream())[..n];
    return Some(buf);
  }

  /** One read on a stream: its result and the bytes left over. */
  function ReadOne(stream: Bytes): (ReadResult, Bytes) {
    match DecodeHeader(stream)
    case Err(HeaderTooShort) => (Eof, [])
    case Err(_) => (Malformed, stream[HEADER_SIZE..])
    case Ok(h) =>
      if |stream| < HEADER_SIZE + h.length then (Eof, [])
      else
        var end := HEADER_SIZE + h.length;
        (Received(Packet(h.msgType, h.sequence, stream[HEADER_SIZE..end])), stream[end..])
  }

  /** read_packet_sync, over any way of cutting the stream into pieces. */
  method ReadPacketSync(sock: Socket) returns (r: ReadResult)
    requires sock.Valid()
    modifies sock
    ensures sock.Valid()
    ensures (r, sock.Stream()) == ReadOne(old(sock.Stream()))
  {
    ghost var stream := sock.Stream();
    var header := RecvExactly(sock, HEADER_SIZE);
    if header.None? {
      return Eof;
    }
    HeaderIsAPrefix(stream);
    match DecodeHeader(header.value) {
      case Err(_) =>
        return Malformed;
      case Ok(h) =>
        var payload: Bytes := [];
        if h.length > 0 {
          var body := RecvExactly(sock, h.length);
          if body.None? {
            return Eof;
          }
          payload := body.value;
        }
        assert stream[HEADER_SIZE..][..h.length] == stream[HEADER_SIZE..HEADER_SIZE + h.length];
        assert stream[HEADER_SIZE..][h.length..] == stream[HEADER_SIZE + h.length..];
        return Received(Packet(h.msgType, h.sequence, payload));
    }
  }

  lemma HeaderIsAPrefix(stream: Bytes)
    requires |stream| >= HEADER_SIZE
    ensures DecodeHeader(stream[..HEADER_SIZE]) == DecodeHeader(stream)
  {
    var front := stream[..HEADER_SIZE];
    assert front[1..5] == stream[1..5] && front[5..7] == stream[5..7];
  }

  /** Each read agrees with Packet.from_bytes on the same bytes, and consumes exactly the packet it returns. */
  lemma ReadAgreesWithFromBytes(stream: Bytes)
    ensures FromBytes(stream).Ok? <==> ReadOne(stream).0.Received?
    ensures FromBytes(stream).Ok? ==>
              && ReadOne(stream).0.packet == FromBytes(stream).value
              && EncodePacket(FromBytes(stream).value).Some?
              && stream == EncodePacket(FromBytes(stream).value).value + ReadOne(stream).1
    ensures FromBytes(stream) == Err(UnknownType) <==> ReadOne(stream).0.Malformed?
  {
    if FromBytes(stream).Ok? {
      DecodedPacketIsCanonical(stream);
      var enc := EncodePacket(FromBytes(stream).value).value;
      assert stream == enc + stream[|enc|..];
    }
  }

  /** Reading again and again, as the receive loop does, until something other than a packet comes. */
  function ReadAllFrom(stream: Bytes): (seq<Packet>, ReadResult)
    decreases |stream|
  {
    match ReadOne(stream)
    case (Received(p), rest) =>
      var (packets, last) := ReadAllFrom(rest);
      ([p] + packets, last)
    case (other, _) => ([], other)
  }

  method ReadAll(sock: Socket) returns (packets: seq<Packet>, last: ReadResult)
    requires sock.Valid()
    modifies sock
    ensures sock.Valid()
    ensures (packets, last) == ReadAllFrom(old(sock.Stream()))
  {
    ghost var start := ReadAllFrom(sock.Stream());
    packets := [];
    last := ReadPacketSync(sock);
    ghost var rest := start.0;
    while last.Received?
      invariant sock.Valid()
      invariant start.0 == packets + rest
      invariant last.Received? ==> rest == [last.packet] + ReadAllFrom(sock.Stream()).0
      invariant last.Received? ==> start.1 == ReadAllFrom(sock.Stream()).1
      invariant !last.Received? ==> rest == [] && last == start.1
      decreases last.Received?, |sock.Stream()|
    {
      packets := packets + [last.packet];
      rest := ReadAllFrom(sock.Stream()).0;
      last := ReadPacketSync(sock);
    }
    assert packets + rest == packets;
  }

  // ---------------------------------------------------------------------------
  // Framing survives any stream
  // ---------------------------------------------------------------------------

  ghost predicate AllInRange(packets: seq<Packet>) {
    forall i :: 0 <= i < |packets| ==> InRange(packets[i])
  }

  function EncodeAll(packets: seq<Packet>): Bytes
    requires AllInRange(packets)
  {
    if packets == [] then [] else EncodePacket(packets[0]).value + EncodeAll(packets[1..])
  }

  /** How many packets are complete in the first k bytes of an encoded list. */
  ghost function CompleteWithin(packets: seq<Packet>, k: nat): (c: nat)
    requires AllInRange(packets)
    ensures c <= |packets|
    ensures |EncodeAll(packets[..c])| <= k
    ensures c < |packets| ==> k < |EncodeAll(packets[..c + 1])|
  {
    if packets == [] then 0
    else
      var size := |EncodePacket(packets[0]).value|;
      if k < size then
        assert packets[..1] == [packets[0]];
        0
      else
        var c := CompleteWithin(packets[1..], k - size);
        assert packets[..c + 1][1..] == packets[1..][..c];
        assert c + 1 < |packets| ==> packets[..c + 2][1..] == packets[1..][..c + 1];
        c + 1
  }

  /** A packet cut short reads as the end of the stream. */
  lemma PartialPacketIsEof(p: Packet, k: nat)
    requires InRange(p) && k < |EncodePacket(p).value|
    ensures ReadOne(EncodePacket(p).value[..k]).0 == Eof
  {
    var enc := EncodePacket(p).value;
    var cut := enc[..k];
    if k >= HEADER_SIZE {
      var header := EncodeHeader(p.msgType, p.sequence, |p.payload|);
      assert cut == header + p.payload[..k - HEADER_SIZE];
      DecodeEncodedHeader(p.msgType, p.sequence, |p.payload|, p.payload[..k - HEADER_SIZE]);
    }
  }

  lemma ReadAfterPacket(p: Packet, tail: Bytes)
    requires InRange(p)
    ensures ReadOne(EncodePacket(p).value + tail) == (Received(p), tail)
  {
    var enc := EncodePacket(p).value;
    PacketRoundTrip(p, tail);
    ReadAgreesWithFromBytes(enc + tail);
    assert (enc + tail)[|enc|..] == tail;
  }

  /** A stream cut anywhere yields exactly the packets that are complete in it, then None. */
  lemma {:induction false} CutStream(packets: seq<Packet>, k: nat)
    requires AllInRange(packets) && k <= |EncodeAll(packets)|
    ensures ReadAllFrom(EncodeAll(packets)[..k]) == (packets[..CompleteWithin(packets, k)], Eof)
  {
    if packets != [] {
      var enc, rest := EncodePacket(packets[0]).value, EncodeAll(packets[1..]);
      var cut := EncodeAll(packets)[..k];
      if k < |enc| {
        assert cut == enc[..k];
        PartialPacketIsEof(packets[0], k);
      } else {
        var tail := rest[..k - |enc|];
        assert cut == enc + tail;
        ReadAfterPacket(packets[0], tail);
        CutStream(packets[1..], k - |enc|);
        var c := CompleteWithin(packets[1..], k - |enc|);
        assert CompleteWithin(packets, k) == c + 1;
        assert [packets[0]] + packets[1..][..c] == packets[..c + 1];
      }
    }
  }

  /** The whole stream gives back the whole list. */
  lemma WholeStream(packets: seq<Packet>)
    requires AllInRange(packets)
    ensures ReadAllFrom(EncodeAll(packets)) == (packets, Eof)
  {
    var stream := EncodeAll(packets);
    CutStream(packets, |stream|);
    assert stream[..|stream|] == stream;
    var c := CompleteWithin(packets, |stream|);
    if c < |packets| {
      PrefixIsNoLonger(packets, c + 1);
      assert false;
    }
    assert packets[..c] == packets;
  }

  lemma {:induction false} PrefixIsNoLonger(packets: seq<Packet>, n: nat)
    requires AllInRange(packets) && n <= |packets|
    ensures |EncodeAll(packets[..n])| <= |EncodeAll(packets)|
  {
    if n > 0 {
      assert packets[..n][1..] == packets[1..][..n - 1];
      PrefixIsNoLonger(packets[1..], n - 1);
    }
  }

  /** read_packet_sync over a real delivery: any non-empty pieces of the encoded list give the list back. */
  method DeliverAndRead(packets: seq<Packet>, chunks: seq<Bytes>) returns (received: seq<Packet>, last: ReadResult)
    requires AllInRange(packets)
    requires forall i :: 0 <= i < |chunks| ==> chunks[i] != []
    requires Flatten(chunks) == EncodeAll(packets)
    ensures received == packets && last == Eof
  {
    var sock := new Socket(chunks);
    received, last := ReadAll(sock);
    WholeStream(packets);
  }
}
