/** What every run of the session protocol keeps, provided a chunk whose write did
    not return Ok is offered again unchanged: whatever stray datagrams arrive, the output is
    the stream that was offered, and without stray acks nothing is reported written early. */
module SessionSafety {
  import opened Base
  import opened PacketCodec
  import opened Receiver
  import opened SessionProtocol

  /** No stray datagram opens as data: it was sealed under another key, or not at all. */
  ghost predicate Unopened(c: Cipher, strays: Packet -> bool) {
    forall p, d :: strays(p) && p.kind == Data ==> c.open(Nonce(d, p.seqNo), p.payload).None?
  }

  ghost predicate NoStrayAcks(strays: Packet -> bool) {
    forall p :: strays(p) ==> p.kind != Ack
  }

  /** Data on its way to the peer of `x` opens to the chunk logged under its number, if at all. */
  ghost predicate Genuine(c: Cipher, x: Endpoint, p: Packet) {
    p.kind == Data ==>
      match c.open(Nonce(x.dir, p.seqNo), p.payload)
      case None => true
      case Some(text) => p.seqNo < |x.log| && text == x.log[p.seqNo]
  }

  /** An ack on its way from `y` names a chunk that `y` has stored. */
  ghost predicate Backed(y: Endpoint, p: Packet) {
    p.kind == Ack ==> p.seqNo < y.recv.next
  }

  ghost predicate WriterCoherent(x: Endpoint) {
    !x.writer.WIdle? ==>
      x.writer.at == x.sendSeq < |x.log| && x.writer.chunk == x.log[x.sendSeq]
  }

  /** At most one chunk is outstanding, and what was reported written is what came before it. */
  ghost predicate Sending(x: Endpoint) {
    && x.sendSeq <= |x.log| <= x.sendSeq + 1
    && x.ok == Flatten(x.log[..x.sendSeq])
    && WriterCoherent(x)
  }

  /** What has been received is a prefix of the log, and what is buffered is from the log. */
  ghost predicate Receiving(log: seq<seq<byte>>, r: Recv, delivered: seq<byte>) {
    && r.next <= |log|
    && (forall s :: s in r.early ==> s < |log| && r.early[s] == log[s])
    && delivered + r.ready == Flatten(log[..r.next])
  }

  ghost predicate DataGenuine(c: Cipher, x: Endpoint, y: Endpoint) {
    && (forall p :: p in x.sent ==> Genuine(c, x, p))
    && (forall p :: p in y.queue ==> Genuine(c, x, p))
    && (y.writer.WHold? ==> Genuine(c, x, y.writer.packet))
    && (y.reader.RHold? ==> Genuine(c, x, y.reader.packet))
  }

  /** Everything that holds of the stream from `x` to `y`, whatever acks arrive. */
  ghost predicate Stream(c: Cipher, x: Endpoint, y: Endpoint) {
    && y.dir == x.dir.Peer()
    && Sending(x)
    && Receiving(x.log, y.recv, y.delivered)
    && DataGenuine(c, x, y)
  }

  ghost predicate AcksBacked(x: Endpoint, y: Endpoint) {
    && (forall p :: p in y.sent ==> Backed(y, p))
    && (forall p :: p in x.queue ==> Backed(y, p))
    && (x.writer.WHold? ==> Backed(y, x.writer.packet))
    && (y.writer.WAck? ==> y.writer.ack < y.recv.next)
    && (y.reader.RAck? ==> y.reader.ack < y.recv.next)
    && (x.writer.WDone? ==> x.writer.at < y.recv.next)
  }

  /** Stop-and-wait: the receiver is level with the sender or one chunk ahead. */
  ghost predicate Coupled(x: Endpoint, y: Endpoint) {
    x.sendSeq <= y.recv.next && y.recv.early == map[] && AcksBacked(x, y)
  }

  /** With `acks`, every ack is the peer's and the two ends are coupled by them. */
  ghost predicate Link(c: Cipher, acks: bool, x: Endpoint, y: Endpoint) {
    Stream(c, x, y) && (acks ==> Coupled(x, y))
  }

  ghost predicate Links(c: Cipher, acks: bool, e: Endpoint, f: Endpoint) {
    Link(c, acks, e, f) && Link(c, acks, f, e)
  }

  ghost predicate Inv(c: Cipher, acks: bool, w: World) {
    Links(c, acks, w.client, w.node)
  }

  /** What may arrive from `f` without harm. */
  ghost predicate Harmless(c: Cipher, acks: bool, f: Endpoint, p: Packet) {
    Genuine(c, f, p) && (acks ==> Backed(f, p))
  }

  // ------------------------------------------------ the updates steps are made of

  lemma SendingKeeps(c: Cipher, acks: bool, e: Endpoint, f: Endpoint, p: Packet)
    requires Links(c, acks, e, f) && Harmless(c, acks, e, p)
    ensures Links(c, acks, e.(sent := e.sent + {p}), f)
  {
  }

  lemma QueueKeeps(c: Cipher, acks: bool, e: Endpoint, f: Endpoint, q: seq<Packet>, books: Books)
    requires Links(c, acks, e, f)
    requires forall p :: p in q ==> Harmless(c, acks, f, p)
    ensures Links(c, acks, e.(queue := q, books := books), f)
  {
  }

  lemma WriterKeeps(c: Cipher, acks: bool, e: Endpoint, f: Endpoint, w: Writer)
    requires Links(c, acks, e, f)
    requires WriterCoherent(e.(writer := w))
    requires w.WHold? ==> Harmless(c, acks, f, w.packet)
    requires acks && w.WAck? ==> w.ack < e.recv.next
    requires acks && w.WDone? ==> w.at < f.recv.next
    ensures Links(c, acks, e.(writer := w), f)
  {
  }

  lemma ReaderKeeps(c: Cipher, acks: bool, e: Endpoint, f: Endpoint, r: Reader)
    requires Links(c, acks, e, f)
    requires r.RHold? ==> Genuine(c, f, r.packet)
    requires acks && r.RAck? ==> r.ack < e.recv.next
    ensures Links(c, acks, e.(reader := r), f)
  {
  }

  lemma RecvKeeps(c: Cipher, acks: bool, e: Endpoint, f: Endpoint, r: Recv, delivered: seq<byte>)
    requires Links(c, acks, e, f)
    requires e.recv.next <= r.next && Receiving(f.log, r, delivered) && (acks ==> r.early == map[])
    ensures Links(c, acks, e.(recv := r, delivered := delivered), f)
  {
  }

  lemma ReceivingLonger(log: seq<seq<byte>>, chunk: seq<byte>, r: Recv, delivered: seq<byte>)
    requires Receiving(log, r, delivered)
    ensures Receiving(log + [chunk], r, delivered)
  {
    assert (log + [chunk])[..r.next] == log[..r.next];
  }

  lemma LogKeeps(c: Cipher, acks: bool, e: Endpoint, f: Endpoint, chunk: seq<byte>)
    requires Links(c, acks, e, f) && |e.log| == e.sendSeq
    ensures Links(c, acks, e.(log := e.log + [chunk]), f)
  {
    ReceivingLonger(e.log, chunk, f.recv, f.delivered);
    assert (e.log + [chunk])[..e.sendSeq] == e.log[..e.sendSeq];
  }

  // --------------------------------------------------------------- the steps

  lemma {:induction false} DrainedReceiving(log: seq<seq<byte>>, r: Recv, delivered: seq<byte>)
    requires Receiving(log, r, delivered)
    ensures Receiving(log, Drained(r), delivered) && r.next <= Drained(r).next
    ensures r.early == map[] ==> Drained(r) == r
    decreases |r.early|
  {
    if r.next in r.early {
      NextReceived(log, r, delivered, r.early[r.next], r.early - {r.next});
      DrainedReceiving(log, Recv(r.next + 1, r.ready + r.early[r.next], r.early - {r.next}), delivered);
    }
  }

  lemma NextReceived(log: seq<seq<byte>>, r: Recv, delivered: seq<byte>, text: seq<byte>, early: map<nat, seq<byte>>)
    requires Receiving(log, r, delivered) && r.next < |log| && text == log[r.next]
    requires forall s :: s in early ==> s in r.early && early[s] == r.early[s]
    ensures Receiving(log, Recv(r.next + 1, r.ready + text, early), delivered)
  {
    assert log[..r.next + 1] == log[..r.next] + [log[r.next]];
    FlattenSnoc(log[..r.next], log[r.next]);
    assert delivered + (r.ready + text) == delivered + r.ready + text;
  }

  lemma StoredReceiving(log: seq<seq<byte>>, r: Recv, delivered: seq<byte>, s: nat)
    requires Receiving(log, r, delivered) && s < |log|
    ensures Receiving(log, Stored(r, s, log[s]), delivered) && r.next <= Stored(r, s, log[s]).next
    ensures s <= r.next && r.early == map[] ==>
              s < Stored(r, s, log[s]).next && Stored(r, s, log[s]).early == map[]
  {
    if s == r.next {
      NextReceived(log, r, delivered, log[s], r.early);
      DrainedReceiving(log, Recv(s + 1, r.ready + log[s], r.early), delivered);
    }
  }

  /** A data packet that opens opens to its logged chunk, and storing it keeps the stream. */
  lemma StoringKeeps(c: Cipher, acks: bool, e: Endpoint, f: Endpoint, p: Packet)
    requires Links(c, acks, e, f) && p.kind == Data && Genuine(c, f, p)
    ensures match c.open(Nonce(e.dir.Peer(), p.seqNo), p.payload)
            case None => true
            case Some(text) =>
              && p.seqNo < |f.log| && text == f.log[p.seqNo]
              && var r := Stored(e.recv, p.seqNo, text);
              && (acks ==> p.seqNo < r.next)
              && Links(c, acks, e.(recv := r), f)
  {
    assert e.dir.Peer() == f.dir;
    if c.open(Nonce(f.dir, p.seqNo), p.payload).Some? {
      StoredReceiving(f.log, e.recv, e.delivered, p.seqNo);
      RecvKeeps(c, acks, e, f, Stored(e.recv, p.seqNo, f.log[p.seqNo]), e.delivered);
    }
  }

  lemma ReadStepKeeps(c: Cipher, acks: bool, e: Endpoint, f: Endpoint, want: nat)
    requires Links(c, acks, e, f)
    ensures Links(c, acks, if e.recv.ready != [] then Handed(e, want) else e.(reader := RWait(want)), f)
  {
    var n := Min(want, |e.recv.ready|);
    assert e.recv.ready == e.recv.ready[..n] + e.recv.ready[n..];
    var r := e.recv.(ready := e.recv.ready[n..]);
    RecvKeeps(c, acks, e, f, r, e.delivered + e.recv.ready[..n]);
    ReaderKeeps(c, acks, e.(recv := r, delivered := e.delivered + e.recv.ready[..n]), f, RIdle);
    ReaderKeeps(c, acks, e, f, RWait(want));
  }

  lemma BeginWriteKeeps(c: Cipher, acks: bool, e: Endpoint, f: Endpoint, strays: Packet -> bool, bytes: seq<byte>)
    requires Links(c, acks, e, f) && Enabled(e, f.sent, Repeating(strays), BeginWrite(bytes))
    ensures Links(c, acks, Step(c, e, f.sent, Repeating(strays), BeginWrite(bytes)), f)
  {
    var w := WSend(Chunk(bytes), e.sendSeq, 0);
    if |e.log| > e.sendSeq {
      WriterKeeps(c, acks, e, f, w);
    } else {
      LogKeeps(c, acks, e, f, Chunk(bytes));
      WriterKeeps(c, acks, e.(log := e.log + [Chunk(bytes)]), f, w);
    }
  }

  lemma FinishWriteKeeps(c: Cipher, acks: bool, e: Endpoint, f: Endpoint)
    requires Links(c, acks, e, f) && e.writer.WDone?
    ensures Links(c, acks, e.(sendSeq := e.sendSeq + 1, ok := e.ok + e.writer.chunk, writer := WIdle), f)
  {
    assert e.log[..e.sendSeq + 1] == e.log[..e.sendSeq] + [e.log[e.sendSeq]];
    FlattenSnoc(e.log[..e.sendSeq], e.log[e.sendSeq]);
  }

  lemma WriterInspectionKeeps(c: Cipher, acks: bool, e: Endpoint, f: Endpoint)
    requires Links(c, acks, e, f) && e.writer.WHold?
    ensures Links(c, acks, Inspected(c, e), f)
  {
    var w, p := e.writer, e.writer.packet;
    if p.kind == Data && c.open(Nonce(e.dir.Peer(), p.seqNo), p.payload).Some? {
      StoringKeeps(c, acks, e, f, p);
      var r := Stored(e.recv, p.seqNo, f.log[p.seqNo]);
      WriterKeeps(c, acks, e.(recv := r), f, WAck(w.chunk, w.at, w.tries, p.seqNo));
    } else {
      WriterKeeps(c, acks, e, f, Inspected(c, e).writer);
    }
  }

  lemma ReaderInspectionKeeps(c: Cipher, acks: bool, e: Endpoint, f: Endpoint)
    requires Links(c, acks, e, f) && e.reader.RHold?
    ensures Links(c, acks, InspectedByReader(c, e), f)
  {
    var p := e.reader.packet;
    if p.kind == Data && c.open(Nonce(e.dir.Peer(), p.seqNo), p.payload).Some? {
      StoringKeeps(c, acks, e, f, p);
      var r := Stored(e.recv, p.seqNo, f.log[p.seqNo]);
      ReaderKeeps(c, acks, e.(recv := r), f, RAck(e.reader.want, p.seqNo));
    } else {
      ReaderKeeps(c, acks, e, f, InspectedByReader(c, e).reader);
    }
  }

  /** Sending a packet and then moving on. */
  lemma SendThenMove(c: Cipher, acks: bool, e: Endpoint, f: Endpoint, p: Packet, w: Writer, r: Reader)
    requires Links(c, acks, e, f) && Harmless(c, acks, e, p)
    requires WriterCoherent(e.(writer := w)) && (w == e.writer || w.WWait?) && (r == e.reader || r.RCheck?)
    ensures Links(c, acks, e.(sent := e.sent + {p}, writer := w, reader := r), f)
  {
    SendingKeeps(c, acks, e, f, p);
    WriterKeeps(c, acks, e.(sent := e.sent + {p}), f, w);
    ReaderKeeps(c, acks, e.(sent := e.sent + {p}, writer := w), f, r);
  }

  lemma TakingByWriterKeeps(c: Cipher, acks: bool, e: Endpoint, f: Endpoint)
    requires Links(c, acks, e, f) && e.writer.WWait? && CanTake(e, true)
    ensures Links(c, acks, TakenByWriter(e), f)
  {
    var i, e' := TakeIndex(e, true), TakenByWriter(e);
    assert e.queue[i] in e.queue;
    QueueKeeps(c, acks, e, f, Without(e.queue, i), e'.books);
    WriterKeeps(c, acks, e.(queue := Without(e.queue, i), books := e'.books), f, e'.writer);
  }

  lemma TakingByReaderKeeps(c: Cipher, acks: bool, e: Endpoint, f: Endpoint)
    requires Links(c, acks, e, f) && e.reader.RWait? && CanTake(e, false)
    ensures Links(c, acks, TakenByReader(e), f)
  {
    var i, e' := TakeIndex(e, false), TakenByReader(e);
    assert e.queue[i] in e.queue;
    QueueKeeps(c, acks, e, f, Without(e.queue, i), e'.books);
    ReaderKeeps(c, acks, e.(queue := Without(e.queue, i), books := e'.books), f, e'.reader);
  }

  predicate ByReader(a: Action) {
    a.BeginRead? || a.TakeForReader? || a.ReadFails? || a.InspectForReader? || a.AckFromReader? || a.CheckReady?
  }

  lemma ReaderStepKeeps(c: Cipher, acks: bool, strays: Packet -> bool, e: Endpoint, f: Endpoint, a: Action)
    requires Links(c, acks, e, f) && Enabled(e, f.sent, Repeating(strays), a) && ByReader(a)
    ensures Links(c, acks, Step(c, e, f.sent, Repeating(strays), a), f)
  {
    match a {
      case BeginRead(want) => ReadStepKeeps(c, acks, e, f, want);
      case TakeForReader => TakingByReaderKeeps(c, acks, e, f);
      case ReadFails => ReaderKeeps(c, acks, e, f, RIdle);
      case InspectForReader => ReaderInspectionKeeps(c, acks, e, f);
      case AckFromReader(succeeds) =>
        if succeeds {
          SendThenMove(c, acks, e, f, AckPacket(e.reader.ack), e.writer, RCheck(e.reader.want));
        } else {
          ReaderKeeps(c, acks, e, f, RIdle);
        }
      case CheckReady => ReadStepKeeps(c, acks, e, f, e.reader.want);
    }
  }

  predicate Writing(a: Action) {
    a.BeginWrite? || a.Transmit? || a.TransmitFails? || a.FinishWrite? || a.WaitTimesOut? || a.WaitFails?
  }

  lemma WritingStepKeeps(c: Cipher, acks: bool, strays: Packet -> bool, e: Endpoint, f: Endpoint, a: Action)
    requires Correct(c) && Links(c, acks, e, f) && Enabled(e, f.sent, Repeating(strays), a) && Writing(a)
    ensures Links(c, acks, Step(c, e, f.sent, Repeating(strays), a), f)
  {
    if a.BeginWrite? {
      BeginWriteKeeps(c, acks, e, f, strays, a.bytes);
    } else if a.FinishWrite? {
      FinishWriteKeeps(c, acks, e, f);
    } else if a.Transmit? {
      var w := e.writer;
      var p := DataPacket(c, e.dir, w.at, w.chunk);
      SendThenMove(c, acks, e, f, p, WWait(w.chunk, w.at, w.tries + 1), e.reader);
    } else {
      WriterKeeps(c, acks, e, f, WIdle);
      WriterKeeps(c, acks, e, f, WSend(e.writer.chunk, e.writer.at, e.writer.tries));
    }
  }

  predicate WaitingForAck(a: Action) {
    a.TakeForWriter? || a.InspectForWriter? || a.AckFromWriter?
  }

  lemma WaitingStepKeeps(c: Cipher, acks: bool, strays: Packet -> bool, e: Endpoint, f: Endpoint, a: Action)
    requires Links(c, acks, e, f) && Enabled(e, f.sent, Repeating(strays), a) && WaitingForAck(a)
    ensures Links(c, acks, Step(c, e, f.sent, Repeating(strays), a), f)
  {
    match a {
      case TakeForWriter => TakingByWriterKeeps(c, acks, e, f);
      case InspectForWriter => WriterInspectionKeeps(c, acks, e, f);
      case AckFromWriter(succeeds) =>
        var w := e.writer;
        if succeeds {
          SendThenMove(c, acks, e, f, AckPacket(w.ack), WWait(w.chunk, w.at, w.tries), e.reader);
        } else {
          WriterKeeps(c, acks, e, f, WIdle);
        }
    }
  }

  /** A step of one endpoint keeps the stream it sends on and the one it receives. */
  lemma StepKeepsLinks(c: Cipher, acks: bool, strays: Packet -> bool, e: Endpoint, f: Endpoint, a: Action)
    requires Correct(c) && Unopened(c, strays) && (acks ==> NoStrayAcks(strays))
    requires Links(c, acks, e, f) && Enabled(e, f.sent, Repeating(strays), a)
    ensures Links(c, acks, Step(c, e, f.sent, Repeating(strays), a), f)
  {
    if ByReader(a) {
      ReaderStepKeeps(c, acks, strays, e, f, a);
    } else if Writing(a) {
      WritingStepKeeps(c, acks, strays, e, f, a);
    } else if WaitingForAck(a) {
      WaitingStepKeeps(c, acks, strays, e, f, a);
    } else if a.Arrive? {
      QueueKeeps(c, acks, e, f, e.queue + [a.packet], Step(c, e, f.sent, Repeating(strays), a).books);
    } else {
      SendingKeeps(c, acks, e, f, Packet(Close, a.n, []));
    }
  }

  lemma {:induction false} RunKeepsInv(c: Cipher, acks: bool, strays: Packet -> bool, w: World,
                                       moves: seq<Move>, w': World)
    requires Correct(c) && Unopened(c, strays) && (acks ==> NoStrayAcks(strays))
    requires Inv(c, acks, w) && Reaches(c, Repeating(strays), w, moves, w')
    ensures Inv(c, acks, w')
    decreases |moves|
  {
    if moves != [] {
      var a := moves[0].action;
      if moves[0].byClient {
        StepKeepsLinks(c, acks, strays, w.client, w.node, a);
      } else {
        StepKeepsLinks(c, acks, strays, w.node, w.client, a);
      }
      RunKeepsInv(c, acks, strays, WorldStep(c, w, Repeating(strays), moves[0]), moves[1..], w');
    }
  }

  lemma InitInv(c: Cipher, acks: bool, hello: seq<byte>)
    ensures Inv(c, acks, Init(hello))
  {
    var w := Init(hello);
    assert Flatten(w.client.log[..0]) == [] && Flatten(w.node.log[..0]) == [];
  }

  // ---------------------------------------------------------------- main results

  /** The last `write` returned Ok, so nothing is outstanding. */
  ghost predicate Quiescent(x: Endpoint) {
    x.writer.WIdle? && |x.log| == x.sendSeq
  }

  /** What has come out at `y`, together with what is ready to be read there. */
  ghost function Output(y: Endpoint): seq<byte> {
    y.delivered + y.recv.ready
  }

  /** The output is the concatenation of the first chunks offered, in order, and so is what was
      reported written, with at most one more chunk outstanding. */
  ghost predicate Intact(x: Endpoint, y: Endpoint) {
    && y.recv.next <= |x.log| && Output(y) == Flatten(x.log[..y.recv.next])
    && x.sendSeq <= |x.log| <= x.sendSeq + 1 && x.ok == Flatten(x.log[..x.sendSeq])
  }

  /** Whatever stray datagrams arrive, acks included, nothing but the offered bytes comes out, in
      order and without gaps. */
  lemma StreamIntegrity(c: Cipher, strays: Packet -> bool, hello: seq<byte>, moves: seq<Move>, w: World)
    requires Correct(c) && Unopened(c, strays) && Reaches(c, Repeating(strays), Init(hello), moves, w)
    ensures Intact(w.client, w.node) && Intact(w.node, w.client)
  {
    InitInv(c, false, hello);
    RunKeepsInv(c, false, strays, Init(hello), moves, w);
  }

  /** Stream safety from `x` to `y`: every byte reported written is in the output
      exactly once and in order; the output may be ahead only by the one chunk still
      awaiting its ack; and with nothing outstanding both are equal. */
  ghost predicate StreamSafe(x: Endpoint, y: Endpoint) {
    && Intact(x, y)
    && (Output(y) == x.ok || (|x.log| == x.sendSeq + 1 && Output(y) == x.ok + x.log[x.sendSeq]))
    && (Quiescent(x) ==> Output(y) == x.ok)
  }

  lemma LinkIsSafe(c: Cipher, x: Endpoint, y: Endpoint)
    requires Link(c, true, x, y)
    ensures StreamSafe(x, y)
  {
    if y.recv.next == x.sendSeq + 1 {
      assert x.log[..y.recv.next] == x.log[..x.sendSeq] + [x.log[x.sendSeq]];
      FlattenSnoc(x.log[..x.sendSeq], x.log[x.sendSeq]);
    }
  }

  /** Stream safety in both directions, after any interleaving of both handles of both
      endpoints over a lossy, duplicating, reordering network that may also deliver stray
      datagrams other than acks. */
  lemma StreamSafety(c: Cipher, strays: Packet -> bool, hello: seq<byte>, moves: seq<Move>, w: World)
    requires Correct(c) && Unopened(c, strays) && NoStrayAcks(strays)
    requires Reaches(c, Repeating(strays), Init(hello), moves, w)
    ensures StreamSafe(w.client, w.node) && StreamSafe(w.node, w.client)
  {
    InitInv(c, true, hello);
    RunKeepsInv(c, true, strays, Init(hello), moves, w);
    LinkIsSafe(c, w.client, w.node);
    LinkIsSafe(c, w.node, w.client);
  }

  /** Stop-and-wait coupling: the receiver is level or one ahead, its reorder buffer is
      always empty against this sender, and a write is about to be reported complete
      only when the peer has stored exactly its chunk (no leftover ack can do it). */
  lemma StopAndWait(c: Cipher, strays: Packet -> bool, hello: seq<byte>, moves: seq<Move>, w: World, clientSends: bool)
    requires Correct(c) && Unopened(c, strays) && NoStrayAcks(strays)
    requires Reaches(c, Repeating(strays), Init(hello), moves, w)
    ensures var x, y := if clientSends then w.client else w.node,
                        if clientSends then w.node else w.client;
            && x.sendSeq <= y.recv.next <= x.sendSeq + 1
            && y.recv.early == map[]
            && (x.writer.WDone? ==> y.recv.next == x.sendSeq + 1 && Output(y) == x.ok + x.writer.chunk)
  {
    InitInv(c, true, hello);
    RunKeepsInv(c, true, strays, Init(hello), moves, w);
    if clientSends {
      DoneIsStored(c, w.client, w.node);
    } else {
      DoneIsStored(c, w.node, w.client);
    }
  }

  lemma DoneIsStored(c: Cipher, x: Endpoint, y: Endpoint)
    requires Link(c, true, x, y)
    ensures x.sendSeq <= y.recv.next <= x.sendSeq + 1 && y.recv.early == map[]
    ensures x.writer.WDone? ==> y.recv.next == x.sendSeq + 1 && Output(y) == x.ok + x.writer.chunk
  {
    if x.writer.WDone? {
      assert x.log[..y.recv.next] == x.log[..x.sendSeq] + [x.log[x.sendSeq]];
      FlattenSnoc(x.log[..x.sendSeq], x.log[x.sendSeq]);
    }
  }
}
