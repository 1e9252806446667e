/** The reliable byte stream over UDP as a transition system: two endpoints, each
    with a writer handle and a reader handle made by `try_clone`, over a network
    that loses, duplicates and reorders datagrams, and may deliver stray ones that
    the peer never sent in this session.  Every lock section, queue
    removal and socket call is its own step, so a run is any interleaving. */
module SessionProtocol {
  import opened Base
  import opened PacketCodec
  import opened Receiver

  /** ChaCha20-Poly1305 under the session key, as a function of nonce and text. */
  datatype Cipher = Cipher(seal: (seq<byte>, seq<byte>) -> seq<byte>,
                           open: (seq<byte>, seq<byte>) -> Option<seq<byte>>)

  ghost predicate Correct(c: Cipher) {
    && (forall n, p :: c.open(n, c.seal(n, p)) == Some(p))
    && (forall n, p :: |c.seal(n, p)| == |p| + TAG_LEN)
  }

  /** Where the writing handle stands inside `write` and `wait_for_ack`. */
  datatype Writer =
    | WIdle
    | WSend(chunk: seq<byte>, at: nat, tries: nat)                 // next: send the packet
    | WWait(chunk: seq<byte>, at: nat, tries: nat)                 // next: take a packet
    | WHold(chunk: seq<byte>, at: nat, tries: nat, packet: Packet) // next: look at it
    | WAck(chunk: seq<byte>, at: nat, tries: nat, ack: nat)        // stored data, ack not sent yet
    | WDone(chunk: seq<byte>, at: nat)                             // next: `send_seq += 1`

  /** Where the reading handle stands inside `read`. */
  datatype Reader =
    | RIdle
    | RWait(want: nat)
    | RHold(want: nat, packet: Packet)
    | RAck(want: nat, ack: nat)
    | RCheck(want: nat)

  /** Who took each arrived packet off the queue. */
  datatype Books = Books(
    arrived: multiset<Packet>,
    writer: multiset<Packet>,
    reader: multiset<Packet>,
    skipped: multiset<Packet>) // taken off the bare socket without matching

  datatype Endpoint = Endpoint(
    dir: Direction,
    shared: bool,            // true: a `PacketInbox` (node); false: the raw socket (client)
    sendSeq: nat,
    recv: Recv,
    queue: seq<Packet>,      // arrived and not yet taken by either handle
    sent: set<Packet>,       // every datagram put on the wire so far
    writer: Writer,
    reader: Reader,
    // history
    log: seq<seq<byte>>,     // log[s]: the chunk first offered under sequence number s
    ok: seq<byte>,           // bytes for which `write` returned Ok
    delivered: seq<byte>,    // bytes returned by `read`
    books: Books)

  /** What is outside the protocol: which chunk a caller may offer after an unacknowledged one
      under the same number, and which datagrams the peer did not send may arrive. */
  datatype Policy = Policy(follows: (seq<byte>, seq<byte>) -> bool, strays: Packet -> bool)

  function NoStrays(): Packet -> bool {
    (p: Packet) => false
  }

  /** Callers that only offer the same chunk again. */
  function Repeating(strays: Packet -> bool): Policy {
    Policy((prev: seq<byte>, next: seq<byte>) => prev == next, strays)
  }

  datatype Action =
    | Arrive(packet: Packet)
    | BeginWrite(bytes: seq<byte>)
    | Transmit
    | TransmitFails
    | TakeForWriter
    | WaitTimesOut
    | WaitFails
    | InspectForWriter
    | AckFromWriter(succeeds: bool)
    | FinishWrite
    | BeginRead(want: nat)
    | TakeForReader
    | ReadFails
    | InspectForReader
    | AckFromReader(succeeds: bool)
    | CheckReady
    | SendClose(n: nat)

  function Chunk(bytes: seq<byte>): seq<byte> {
    bytes[..Min(|bytes|, MAX_PAYLOAD_LEN)]
  }

  predicate WriterWants(p: Packet) {
    p.kind == Ack || p.kind == Data || p.kind == Close
  }

  predicate ReaderWants(p: Packet) {
    p.kind == Data || p.kind == Close
  }

  predicate Wants(forWriter: bool, p: Packet) {
    if forWriter then WriterWants(p) else ReaderWants(p)
  }

  /** `iter().position(predicate)`, or the length when nothing matches. */
  function FirstMatch(q: seq<Packet>, forWriter: bool): (i: nat)
    ensures i <= |q|
    ensures i < |q| ==> Wants(forWriter, q[i])
    ensures forall j :: 0 <= j < i ==> !Wants(forWriter, q[j])
  {
    if q == [] || Wants(forWriter, q[0]) then 0
    else 1 + FirstMatch(q[1..], forWriter)
  }

  /** What `recv_session_packet` does next: with an inbox, remove the first match;
      on the bare socket, take the head and skip it when it does not match. */
  function TakeIndex(e: Endpoint, forWriter: bool): nat {
    if e.shared then FirstMatch(e.queue, forWriter) else 0
  }

  predicate CanTake(e: Endpoint, forWriter: bool) {
    TakeIndex(e, forWriter) < |e.queue|
  }

  predicate Enabled(e: Endpoint, peerSent: set<Packet>, allow: Policy, a: Action) {
    match a
    case Arrive(p) => (p in peerSent || allow.strays(p)) && (e.shared ==> p.kind != Hello)
    case BeginWrite(bytes) =>
      e.writer.WIdle? && (|e.log| > e.sendSeq ==> allow.follows(e.log[e.sendSeq], Chunk(bytes)))
    case Transmit => e.writer.WSend?
    case TransmitFails => e.writer.WSend?
    case TakeForWriter => e.writer.WWait? && CanTake(e, true)
    case WaitTimesOut => e.writer.WWait?
    case WaitFails => e.writer.WWait?
    case InspectForWriter => e.writer.WHold?
    case AckFromWriter(_) => e.writer.WAck?
    case FinishWrite => e.writer.WDone?
    case BeginRead(_) => e.reader.RIdle?
    case TakeForReader => e.reader.RWait? && CanTake(e, false)
    case ReadFails => e.reader.RWait?
    case InspectForReader => e.reader.RHold?
    case AckFromReader(_) => e.reader.RAck?
    case CheckReady => e.reader.RCheck?
    case SendClose(_) => true
  }

  function DataPacket(c: Cipher, d: Direction, s: nat, chunk: seq<byte>): Packet {
    Packet(Data, s, c.seal(Nonce(d, s), chunk))
  }

  function AckPacket(s: nat): Packet {
    Packet(Ack, s, [])
  }

  function Without(q: seq<Packet>, i: nat): seq<Packet>
    requires i < |q|
  {
    q[..i] + q[i + 1..]
  }

  /** Returns up to `want` ready bytes to the caller of `read`. */
  function Handed(e: Endpoint, want: nat): Endpoint {
    var n := Min(want, |e.recv.ready|);
    e.(recv := e.recv.(ready := e.recv.ready[n..]),
       delivered := e.delivered + e.recv.ready[..n],
       reader := RIdle)
  }

  function TakenByWriter(e: Endpoint): Endpoint
    requires e.writer.WWait? && CanTake(e, true)
  {
    var i := TakeIndex(e, true);
    var p := e.queue[i];
    var rest := e.(queue := Without(e.queue, i));
    if WriterWants(p) then
      rest.(writer := WHold(e.writer.chunk, e.writer.at, e.writer.tries, p),
            books := e.books.(writer := e.books.writer + multiset{p}))
    else rest.(books := e.books.(skipped := e.books.skipped + multiset{p}))
  }

  function TakenByReader(e: Endpoint): Endpoint
    requires e.reader.RWait? && CanTake(e, false)
  {
    var i := TakeIndex(e, false);
    var p := e.queue[i];
    var rest := e.(queue := Without(e.queue, i));
    if ReaderWants(p) then
      rest.(reader := RHold(e.reader.want, p),
            books := e.books.(reader := e.books.reader + multiset{p}))
    else rest.(books := e.books.(skipped := e.books.skipped + multiset{p}))
  }

  /** One iteration of `wait_for_ack` on the packet the writer holds. */
  function Inspected(c: Cipher, e: Endpoint): Endpoint
    requires e.writer.WHold?
  {
    var w, p := e.writer, e.writer.packet;
    match p.kind
    case Ack =>
      if p.seqNo == w.at then e.(writer := WDone(w.chunk, w.at))
      else e.(writer := WWait(w.chunk, w.at, w.tries))
    case Data =>
      (match c.open(Nonce(e.dir.Peer(), p.seqNo), p.payload)
       case None => e.(writer := WIdle)
       case Some(text) =>
         e.(recv := Stored(e.recv, p.seqNo, text),
            writer := WAck(w.chunk, w.at, w.tries, p.seqNo)))
    case Close => e.(writer := WIdle)
    case _ => e.(writer := WWait(w.chunk, w.at, w.tries))
  }

  /** One iteration of the loop in `read` on the packet the reader holds. */
  function InspectedByReader(c: Cipher, e: Endpoint): Endpoint
    requires e.reader.RHold?
  {
    var want, p := e.reader.want, e.reader.packet;
    match p.kind
    case Data =>
      (match c.open(Nonce(e.dir.Peer(), p.seqNo), p.payload)
       case None => e.(reader := RIdle)
       case Some(text) =>
         e.(recv := Stored(e.recv, p.seqNo, text), reader := RAck(want, p.seqNo)))
    case Close => e.(reader := RIdle)
    case _ => e.(reader := RWait(want))
  }

  /** The endpoint after one step of its own. */
  function Step(c: Cipher, e: Endpoint, peerSent: set<Packet>, allow: Policy, a: Action): Endpoint
    requires Enabled(e, peerSent, allow, a)
  {
    match a
    case Arrive(p) =>
      e.(queue := e.queue + [p],
         books := e.books.(arrived := e.books.arrived + multiset{p}))
    case BeginWrite(bytes) =>
      e.(writer := WSend(Chunk(bytes), e.sendSeq, 0),
         log := if |e.log| > e.sendSeq then e.log else e.log + [Chunk(bytes)])
    case Transmit =>
      var w := e.writer;
      e.(sent := e.sent + {DataPacket(c, e.dir, w.at, w.chunk)},
         writer := WWait(w.chunk, w.at, w.tries + 1))
    case TransmitFails => e.(writer := WIdle)
    case TakeForWriter => TakenByWriter(e)
    case WaitTimesOut =>
      var w := e.writer;
      e.(writer := if w.tries < RETRIES then WSend(w.chunk, w.at, w.tries) else WIdle)
    case WaitFails => e.(writer := WIdle)
    case InspectForWriter => Inspected(c, e)
    case AckFromWriter(succeeds) =>
      var w := e.writer;
      if succeeds then
        e.(sent := e.sent + {AckPacket(w.ack)}, writer := WWait(w.chunk, w.at, w.tries))
      else e.(writer := WIdle)
    case FinishWrite =>
      e.(sendSeq := e.sendSeq + 1, ok := e.ok + e.writer.chunk, writer := WIdle)
    case BeginRead(want) =>
      if e.recv.ready != [] then Handed(e, want) else e.(reader := RWait(want))
    case TakeForReader => TakenByReader(e)
    case ReadFails => e.(reader := RIdle)
    case InspectForReader => InspectedByReader(c, e)
    case AckFromReader(succeeds) =>
      if succeeds then
        e.(sent := e.sent + {AckPacket(e.reader.ack)}, reader := RCheck(e.reader.want))
      else e.(reader := RIdle)
    case CheckReady =>
      if e.recv.ready != [] then Handed(e, e.reader.want) else e.(reader := RWait(e.reader.want))
    case SendClose(n) => e.(sent := e.sent + {Packet(Close, n, [])})
  }

  // -------------------------------------------------------------------- worlds

  datatype World = World(client: Endpoint, node: Endpoint)

  function Start(dir: Direction, shared: bool, handshake: Packet): Endpoint {
    Endpoint(dir, shared, 0, FRESH, [], {handshake}, WIdle, RIdle,
             [], [], [], Books(multiset{}, multiset{}, multiset{}, multiset{}))
  }

  /** The handshake is over; its datagrams may still be in flight. */
  function Init(hello: seq<byte>): World {
    World(Start(ClientToNode, false, Packet(Hello, 0, hello)),
          Start(NodeToClient, true, Packet(HelloAck, 0, [])))
  }

  datatype Move = Move(byClient: bool, action: Action)

  predicate WorldEnabled(w: World, allow: Policy, m: Move) {
    if m.byClient then Enabled(w.client, w.node.sent, allow, m.action)
    else Enabled(w.node, w.client.sent, allow, m.action)
  }

  function WorldStep(c: Cipher, w: World, allow: Policy, m: Move): World
    requires WorldEnabled(w, allow, m)
  {
    if m.byClient then w.(client := Step(c, w.client, w.node.sent, allow, m.action))
    else w.(node := Step(c, w.node, w.client.sent, allow, m.action))
  }

  /** Some run of enabled moves leads from `w` to `w'`. */
  ghost predicate Reaches(c: Cipher, allow: Policy, w: World, moves: seq<Move>, w': World)
    decreases |moves|
  {
    if moves == [] then w == w'
    else WorldEnabled(w, allow, moves[0])
         && Reaches(c, allow, WorldStep(c, w, allow, moves[0]), moves[1..], w')
  }
}
