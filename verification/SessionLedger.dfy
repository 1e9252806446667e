/** Bookkeeping facts that hold in every run whatever the caller offers: who consumed
    each arrived packet, and how large the datagrams are. */
module SessionLedger {
  import opened Base
  import opened PacketCodec
  import opened SessionProtocol

  ghost predicate Balances(q: seq<Packet>, b: Books, shared: bool) {
    && b.arrived == multiset(q) + b.writer + b.reader + b.skipped
    && (forall p :: p in b.reader ==> p.kind != Ack)
    && (shared ==> b.skipped == multiset{})
  }

  /** Every arrived packet is still queued or was taken exactly once, by one handle. */
  ghost predicate Balanced(e: Endpoint) {
    Balances(e.queue, e.books, e.shared)
  }

  ghost predicate Sized(e: Endpoint) {
    && (!e.writer.WIdle? ==> |e.writer.chunk| <= MAX_PAYLOAD_LEN)
    && (forall s :: 0 <= s < |e.log| ==> |e.log[s]| <= MAX_PAYLOAD_LEN)
    && (forall p :: p in e.sent && p.kind != Hello ==> |p.payload| <= MAX_PAYLOAD_LEN + TAG_LEN)
  }

  lemma TakeBalances(q: seq<Packet>, i: nat)
    requires i < |q|
    ensures multiset(q) == multiset(Without(q, i)) + multiset{q[i]}
  {
    assert q == q[..i] + [q[i]] + q[i + 1..];
  }

  lemma WriterTakeBalances(e: Endpoint)
    requires Balanced(e) && e.writer.WWait? && CanTake(e, true)
    ensures Balanced(TakenByWriter(e))
  {
    TakeBalances(e.queue, TakeIndex(e, true));
  }

  lemma ReaderTakeBalances(e: Endpoint)
    requires Balanced(e) && e.reader.RWait? && CanTake(e, false)
    ensures Balanced(TakenByReader(e))
  {
    TakeBalances(e.queue, TakeIndex(e, false));
  }

  lemma ArrivalBalances(q: seq<Packet>, b: Books, shared: bool, p: Packet)
    requires Balances(q, b, shared)
    ensures Balances(q + [p], b.(arrived := b.arrived + multiset{p}), shared)
  {
  }

  lemma StepBalances(c: Cipher, e: Endpoint, peerSent: set<Packet>, allow: Policy, a: Action)
    requires Balanced(e) && Enabled(e, peerSent, allow, a)
    ensures Balanced(Step(c, e, peerSent, allow, a))
  {
    var e' := Step(c, e, peerSent, allow, a);
    if a.TakeForWriter? {
      WriterTakeBalances(e);
    } else if a.TakeForReader? {
      ReaderTakeBalances(e);
    } else if a.Arrive? {
      ArrivalBalances(e.queue, e.books, e.shared, a.packet);
    } else {
      assert e'.books == e.books && e'.queue == e.queue && e'.shared == e.shared;
    }
  }

  lemma StepSized(c: Cipher, e: Endpoint, peerSent: set<Packet>, allow: Policy, a: Action)
    requires Correct(c) && Sized(e) && Enabled(e, peerSent, allow, a)
    ensures Sized(Step(c, e, peerSent, allow, a))
  {
  }

  ghost predicate Kept(w: World) {
    Balanced(w.client) && Balanced(w.node) && Sized(w.client) && Sized(w.node)
  }

  lemma WorldStepKeeps(c: Cipher, allow: Policy, w: World, m: Move)
    requires Correct(c) && Kept(w) && WorldEnabled(w, allow, m)
    ensures Kept(WorldStep(c, w, allow, m))
    ensures WorldStep(c, w, allow, m).node.shared == w.node.shared
  {
    if m.byClient {
      StepBalances(c, w.client, w.node.sent, allow, m.action);
      StepSized(c, w.client, w.node.sent, allow, m.action);
    } else {
      StepBalances(c, w.node, w.client.sent, allow, m.action);
      StepSized(c, w.node, w.client.sent, allow, m.action);
    }
  }

  lemma {:induction false} RunKeeps(c: Cipher, allow: Policy, w: World, moves: seq<Move>, w': World)
    requires Correct(c) && Kept(w) && Reaches(c, allow, w, moves, w')
    ensures Kept(w')
    ensures w'.node.shared == w.node.shared
    decreases |moves|
  {
    if moves != [] {
      WorldStepKeeps(c, allow, w, moves[0]);
      RunKeeps(c, allow, WorldStep(c, w, allow, moves[0]), moves[1..], w');
    }
  }

  /** Under every interleaving and every caller policy each arrived packet is consumed at
      most once, the reader handle never takes an ack, and the inbox never skips one. */
  lemma PacketsConsumedOnce(c: Cipher, allow: Policy, hello: seq<byte>, moves: seq<Move>, w: World)
    requires Correct(c) && Reaches(c, allow, Init(hello), moves, w)
    ensures Balanced(w.client) && Balanced(w.node)
    ensures w.node.books.skipped == multiset{}
  {
    RunKeeps(c, allow, Init(hello), moves, w);
  }

  /** The datagram fits the receive buffer, and then decodes to what was sent. */
  ghost predicate Fits(p: Packet) {
    Encode(p).Some? && |Encode(p).value| <= MAX_PACKET_LEN && Decode(Encode(p).value) == Some(p)
  }

  /** Every datagram of every run fits the receive buffer, except exactly a Hello whose payload
      is longer than 1485 bytes. */
  lemma DatagramsFit(c: Cipher, allow: Policy, hello: seq<byte>, moves: seq<Move>, w: World, p: Packet)
    requires Correct(c) && Reaches(c, allow, Init(hello), moves, w)
    requires (p in w.client.sent || p in w.node.sent) && Representable(p)
    ensures Fits(p) <==> (p.kind == Hello ==> |p.payload| <= MAX_PACKET_LEN - HEADER_LEN)
  {
    RunKeeps(c, allow, Init(hello), moves, w);
    DecodeEncode(p);
    if Encode(p).Some? {
      EncodeLayout(p);
    }
  }
}
