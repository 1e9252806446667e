/** The binary datagram format of the UDP session: magic, kind, 64-bit sequence
    number, 16-bit length, payload.  Also the per-direction nonce. */
module PacketCodec {
  import opened Base

  const MAGIC: seq<byte> := [77, 68, 85, 49] // "MDU1"
  const HEADER_LEN := 15
  const MAX_PACKET_LEN := 1500
  const MAX_PAYLOAD_LEN := 1100
  const RETRIES := 5
  const TAG_LEN := 16 // authentication tag of ChaCha20-Poly1305
  const U16_MAX := 0xFFFF
  const U64_BOUND := 0x1_0000_0000_0000_0000

  datatype PacketKind = Hello | HelloAck | Data | Ack | Close

  datatype Packet = Packet(kind: PacketKind, seqNo: nat, payload: seq<byte>)

  function KindByte(kind: PacketKind): byte {
    match kind
    case Hello => 1
    case HelloAck => 2
    case Data => 3
    case Ack => 4
    case Close => 5
  }

  function KindFromByte(b: byte): Option<PacketKind> {
    match b
    case 1 => Some(Hello)
    case 2 => Some(HelloAck)
    case 3 => Some(Data)
    case 4 => Some(Ack)
    case 5 => Some(Close)
    case _ => None
  }

  /** A packet value the Rust type can hold: its sequence number is a `u64`. */
  predicate Representable(p: Packet) {
    p.seqNo < U64_BOUND
  }

  function Encode(p: Packet): Option<seq<byte>> {
    if |p.payload| > U16_MAX then None
    else Some(MAGIC + [KindByte(p.kind)] + ToBigEndian(p.seqNo, 8)
              + ToBigEndian(|p.payload|, 2) + p.payload)
  }

  function Decode(bytes: seq<byte>): Option<Packet> {
    if |bytes| < HEADER_LEN || bytes[..4] != MAGIC then None
    else
      match KindFromByte(bytes[4])
      case None => None
      case Some(kind) =>
        var len := FromBigEndian(bytes[13..15]);
        if |bytes| != HEADER_LEN + len then None
        else Some(Packet(kind, FromBigEndian(bytes[5..13]), bytes[HEADER_LEN..]))
  }

  lemma EncodeLayout(p: Packet)
    requires |p.payload| <= U16_MAX
    ensures Encode(p).Some?
    ensures var b := Encode(p).value;
            && |b| == HEADER_LEN + |p.payload|
            && b[..4] == MAGIC
            && b[4] == KindByte(p.kind)
            && b[5..13] == ToBigEndian(p.seqNo, 8)
            && b[13..15] == ToBigEndian(|p.payload|, 2)
            && b[15..] == p.payload
  {
  }

  /** The datagram byte by byte: "MDU1", the kind as 1 to 5, the sequence number and the length
      of the payload most significant byte first, and the payload. */
  lemma WireFormat(p: Packet)
    requires Representable(p) && |p.payload| <= 65535
    ensures Encode(p).Some?
    ensures var b := Encode(p).value;
            && |b| == 15 + |p.payload| && b[15..] == p.payload
            && b[..4] == [77, 68, 85, 49]
            && (p.kind == Hello ==> b[4] == 1) && (p.kind == HelloAck ==> b[4] == 2) && (p.kind == Data ==> b[4] == 3)
            && (p.kind == Ack ==> b[4] == 4) && (p.kind == Close ==> b[4] == 5)
            && FromBigEndian(b[5..13]) == p.seqNo && 256 * (b[13] as int) + b[14] as int == |p.payload|
  {
    EncodeLayout(p);
    Pow256Values();
    FromToBigEndian(p.seqNo, 8);
    FromToBigEndian(|p.payload|, 2);
    TwoBytes(Encode(p).value[13..15]);
  }

  /** Decoding undoes encoding for every payload the length field can carry. */
  lemma DecodeEncode(p: Packet)
    requires Representable(p)
    ensures Encode(p).Some? <==> |p.payload| <= U16_MAX
    ensures Encode(p).Some? ==> Decode(Encode(p).value) == Some(p)
  {
    if |p.payload| <= U16_MAX {
      EncodeLayout(p);
      Pow256Values();
      FromToBigEndian(p.seqNo, 8);
      FromToBigEndian(|p.payload|, 2);
    }
  }

  lemma Fields(b: seq<byte>)
    requires |b| >= HEADER_LEN
    ensures b == b[..4] + [b[4]] + b[5..13] + b[13..15] + b[15..]
  {
  }

  /** Encoding undoes decoding on every accepted datagram. */
  lemma {:induction false} EncodeDecode(bytes: seq<byte>)
    requires Decode(bytes).Some?
    ensures Representable(Decode(bytes).value)
    ensures Encode(Decode(bytes).value) == Some(bytes)
  {
    var p := Decode(bytes).value;
    Pow256Values();
    ToFromBigEndian(bytes[5..13]);
    ToFromBigEndian(bytes[13..15]);
    EncodeLayout(p);
    Fields(bytes);
    Fields(Encode(p).value);
  }

  /** The accepted datagrams are exactly the encodings of packets. */
  lemma AcceptedIffEncoding(bytes: seq<byte>)
    ensures Decode(bytes).Some? <==> exists p :: Representable(p) && Encode(p) == Some(bytes)
  {
    if Decode(bytes).Some? {
      EncodeDecode(bytes);
      assert Representable(Decode(bytes).value);
    }
    forall p | Representable(p) && Encode(p) == Some(bytes)
      ensures Decode(bytes).Some?
    {
      DecodeEncode(p);
    }
  }

  /** A datagram cut short by the fixed receive buffer is never mistaken for a packet. */
  lemma TruncationRejected(p: Packet, cut: nat)
    requires Representable(p) && Encode(p).Some?
    requires cut <= |Encode(p).value|
    ensures Decode(Encode(p).value[..cut]).Some? <==> cut == |Encode(p).value|
  {
    EncodeLayout(p);
    DecodeEncode(p);
    var b := Encode(p).value;
    assert b[..|b|] == b;
    if HEADER_LEN <= cut < |b| {
      assert b[..cut][13..15] == b[13..15];
      Pow256Values();
      FromToBigEndian(|p.payload|, 2);
    }
  }

  // ------------------------------------------------------------------- nonces

  datatype Direction = ClientToNode | NodeToClient {
    function Peer(): Direction {
      if this == ClientToNode then NodeToClient else ClientToNode
    }

    function Byte(): byte {
      if this == ClientToNode then 0 else 1
    }
  }

  function Nonce(d: Direction, seqNo: nat): (n: seq<byte>)
    ensures |n| == 12
  {
    [d.Byte(), 0, 0, 0] + ToBigEndian(seqNo, 8)
  }

  /** The nonce byte by byte: the direction, three zeros, the sequence number. */
  lemma NonceFormat(d: Direction, seqNo: nat)
    requires seqNo < U64_BOUND
    ensures var n := Nonce(d, seqNo);
            && n[..4] == (if d == ClientToNode then [0, 0, 0, 0] else [1, 0, 0, 0])
            && FromBigEndian(n[4..]) == seqNo
  {
    assert Nonce(d, seqNo)[4..] == ToBigEndian(seqNo, 8);
    Pow256Values();
    FromToBigEndian(seqNo, 8);
  }

  /** One nonce never stands for two (direction, sequence number) pairs. */
  lemma NonceInjective(d: Direction, s: nat, d': Direction, s': nat)
    requires s < U64_BOUND && s' < U64_BOUND
    requires Nonce(d, s) == Nonce(d', s')
    ensures d == d' && s == s'
  {
    assert Nonce(d, s)[0] == Nonce(d', s')[0];
    assert Nonce(d, s)[4..] == ToBigEndian(s, 8);
    assert Nonce(d', s')[4..] == ToBigEndian(s', 8);
    Pow256Values();
    FromToBigEndian(s, 8);
    FromToBigEndian(s', 8);
  }
}
