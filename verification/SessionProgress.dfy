/** What the session protocol does for a write that is still waiting.  Data that opens is acked
    whether it is new, early or already stored; so from every reachable world a waiting write
    can still return Ok, and repeating a lost ack costs the receiver nothing. */
module SessionProgress {
  import opened Base
  import opened PacketCodec
  import opened Receiver
  import opened SessionPolicy
  import opened SessionProtocol
  import opened SessionSafety

  // ------------------------------------------------------------ packets taken

  /** The kinds a handle looks for: `read` data and closes, `wait_for_ack` acks as well. */
  predicate Sought(forWriter: bool, k: PacketKind) {
    k == Data || k == Close || (forWriter && k == Ack)
  }

  /** Packet `i` is next for this handle: with an inbox the first it looks for, on the bare
      socket the head of the queue. */
  predicate Next(e: Endpoint, forWriter: bool, i: nat) {
    && i < |e.queue|
    && (!e.shared ==> i == 0)
    && (e.shared ==> Sought(forWriter, e.queue[i].kind))
    && (e.shared ==> forall j :: 0 <= j < i ==> !Sought(forWriter, e.queue[j].kind))
  }

  /** A handle can take a packet exactly if there is a next one; it takes that one off the
      queue, and holds it exactly if it is of a kind it looks for. */
  lemma TakesNext(e: Endpoint, forWriter: bool, i: nat)
    requires Next(e, forWriter, i)
    ensures CanTake(e, forWriter) && TakeIndex(e, forWriter) == i
    ensures forWriter && e.writer.WWait? ==>
              var e', w := TakenByWriter(e), e.writer;
              && e'.queue == Without(e.queue, i)
              && e'.writer == (if Sought(true, e.queue[i].kind) then WHold(w.chunk, w.at, w.tries, e.queue[i]) else w)
    ensures !forWriter && e.reader.RWait? ==>
              var e', r := TakenByReader(e), e.reader;
              && e'.queue == Without(e.queue, i)
              && e'.reader == (if Sought(false, e.queue[i].kind) then RHold(r.want, e.queue[i]) else r)
  {
  }

  lemma TakesNothing(e: Endpoint, forWriter: bool)
    requires forall i: nat :: !Next(e, forWriter, i)
    ensures !CanTake(e, forWriter)
  {
    assert !Next(e, forWriter, TakeIndex(e, forWriter));
  }

  // ------------------------------------------------------------ packets in hand

  /** Data from the peer that opens to `text`. */
  predicate Opens(c: Cipher, e: Endpoint, p: Packet, text: seq<byte>) {
    p.kind == Data && c.open(Nonce(e.dir.Peer(), p.seqNo), p.payload) == Some(text)
  }

  /** The reader stores what opens and acks it under its own number, wherever `recv.next` is. */
  lemma ReaderStoresAndAcks(c: Cipher, e: Endpoint, sent: set<Packet>, allow: Policy, text: seq<byte>)
    requires e.reader.RHold? && Opens(c, e, e.reader.packet, text)
    ensures var e1 := Step(c, e, sent, allow, InspectForReader);
            && Enabled(e1, sent, allow, AckFromReader(true))
            && Step(c, e1, sent, allow, AckFromReader(true)) ==
               e.(recv := Stored(e.recv, e.reader.packet.seqNo, text), reader := RCheck(e.reader.want),
                  sent := e.sent + {Packet(Ack, e.reader.packet.seqNo, [])})
  {
  }

  /** So does the writer, which then goes on waiting for its own ack. */
  lemma WriterStoresAndAcks(c: Cipher, e: Endpoint, sent: set<Packet>, allow: Policy, text: seq<byte>)
    requires e.writer.WHold? && Opens(c, e, e.writer.packet, text)
    ensures var w, e1 := e.writer, Step(c, e, sent, allow, InspectForWriter);
            && Enabled(e1, sent, allow, AckFromWriter(true))
            && Step(c, e1, sent, allow, AckFromWriter(true)) ==
               e.(recv := Stored(e.recv, w.packet.seqNo, text), writer := WWait(w.chunk, w.at, w.tries),
                  sent := e.sent + {Packet(Ack, w.packet.seqNo, [])})
  {
  }

  /** Anything else in hand changes only where the handle stands: a close or data that does not
      open ends the call, the ack of the outstanding number completes the write, and a stale
      ack is passed over. */
  lemma OtherwiseInHand(c: Cipher, e: Endpoint, sent: set<Packet>, allow: Policy)
    ensures e.reader.RHold? && (forall text :: !Opens(c, e, e.reader.packet, text)) ==>
              var e1 := Step(c, e, sent, allow, InspectForReader);
              && (e.reader.packet.kind == Data || e.reader.packet.kind == Close ==> e1 == e.(reader := RIdle))
              && (e.reader.packet.kind == Ack ==> e1 == e.(reader := RWait(e.reader.want)))
    ensures e.writer.WHold? && (forall text :: !Opens(c, e, e.writer.packet, text)) ==>
              var w, p, e1 := e.writer, e.writer.packet, Step(c, e, sent, allow, InspectForWriter);
              && (p.kind == Data || p.kind == Close ==> e1 == e.(writer := WIdle))
              && (p.kind == Ack && p.seqNo == w.at ==> e1 == e.(writer := WDone(w.chunk, w.at)))
              && (p.kind == Ack && p.seqNo != w.at ==> e1 == e.(writer := WWait(w.chunk, w.at, w.tries)))
  {
    if e.reader.RHold? && e.reader.packet.kind == Data {
      var o := c.open(Nonce(e.dir.Peer(), e.reader.packet.seqNo), e.reader.packet.payload);
      assert o.Some? ==> Opens(c, e, e.reader.packet, o.value);
    }
    if e.writer.WHold? && e.writer.packet.kind == Data {
      var o := c.open(Nonce(e.dir.Peer(), e.writer.packet.seqNo), e.writer.packet.payload);
      assert o.Some? ==> Opens(c, e, e.writer.packet, o.value);
    }
  }

  /** A read that finds bytes ready returns as many as were asked for, or all there are. */
  lemma ReadReturns(c: Cipher, e: Endpoint, sent: set<Packet>, allow: Policy, want: nat)
    requires e.recv.ready != [] && (e.reader.RIdle? || e.reader == RCheck(want))
    ensures var e' := Step(c, e, sent, allow, if e.reader.RIdle? then BeginRead(want) else CheckReady);
            && e'.reader == RIdle && Output(e') == Output(e) && e'.recv.next == e.recv.next
            && |e'.delivered| == |e.delivered| + (if want < |e.recv.ready| then want else |e.recv.ready|)
  {
    var n := Min(want, |e.recv.ready|);
    assert e.recv.ready[..n] + e.recv.ready[n..] == e.recv.ready;
    Regroup(e.delivered, e.recv.ready[..n], e.recv.ready[n..]);
  }

  /** The packet in hand ends the call: the peer is closing, or its data does not open. */
  predicate EndsCall(c: Cipher, e: Endpoint, p: Packet) {
    p.kind == Close || (p.kind == Data && c.open(Nonce(e.dir.Peer(), p.seqNo), p.payload).None?)
  }

  /** How a read ends: with the bytes that are ready after an ack, or by a failing receive, a
      failing ack, a close or data that does not open.  Without bytes it goes on waiting. */
  lemma ReadEndsIff(c: Cipher, e: Endpoint, sent: set<Packet>, allow: Policy, a: Action)
    requires Enabled(e, sent, allow, a)
    ensures var e' := Step(c, e, sent, allow, a);
            e'.reader.RIdle? <==>
            match e.reader
            case RIdle => !a.BeginRead? || e.recv.ready != []
            case RWait(_) => a.ReadFails?
            case RHold(_, p) => a.InspectForReader? && EndsCall(c, e, p)
            case RAck(_, _) => a == AckFromReader(false)
            case RCheck(_) => a.CheckReady? && e.recv.ready != []
  {
  }

  /** How a write ends, and that only one way of ending reports it written: its own ack.  The
      others leave number and report alone: a failing send, receive or ack, the fifth timeout,
      a close or data that does not open. */
  lemma WriteEndsIff(c: Cipher, e: Endpoint, sent: set<Packet>, allow: Policy, a: Action)
    requires Enabled(e, sent, allow, a)
    ensures var e' := Step(c, e, sent, allow, a);
            && (e'.writer.WIdle? <==>
                match e.writer
                case WIdle => !a.BeginWrite?
                case WSend(_, _, _) => a.TransmitFails?
                case WWait(_, _, tries) => a.WaitFails? || (a.WaitTimesOut? && tries >= 5)
                case WHold(_, _, _, p) => a.InspectForWriter? && EndsCall(c, e, p)
                case WAck(_, _, _, _) => a == AckFromWriter(false)
                case WDone(_, _) => a.FinishWrite?)
            && (a.FinishWrite? ==> e'.sendSeq == e.sendSeq + 1 && e'.ok == e.ok + e.writer.chunk)
            && (!a.FinishWrite? ==> e'.sendSeq == e.sendSeq && e'.ok == e.ok)
  {
  }

  // ----------------------------------------------------- runs of one endpoint

  /** The endpoint can take these steps while its peer stands still. */
  ghost predicate Goes(c: Cipher, allow: Policy, sent: set<Packet>, e: Endpoint, actions: seq<Action>, e': Endpoint)
    decreases |actions|
  {
    if actions == [] then e == e'
    else Enabled(e, sent, allow, actions[0])
         && Goes(c, allow, sent, Step(c, e, sent, allow, actions[0]), actions[1..], e')
  }

  ghost predicate Gets(c: Cipher, allow: Policy, sent: set<Packet>, e: Endpoint, e': Endpoint) {
    exists actions :: Goes(c, allow, sent, e, actions, e')
  }

  lemma Stay(c: Cipher, allow: Policy, sent: set<Packet>, e: Endpoint)
    ensures Gets(c, allow, sent, e, e)
  {
    assert Goes(c, allow, sent, e, [], e);
  }

  /** A step, then whatever it can go on to. */
  lemma First(c: Cipher, allow: Policy, sent: set<Packet>, e: Endpoint, a: Action, e': Endpoint)
    requires Enabled(e, sent, allow, a) && Gets(c, allow, sent, Step(c, e, sent, allow, a), e')
    ensures Gets(c, allow, sent, e, e')
  {
    var rest :| Goes(c, allow, sent, Step(c, e, sent, allow, a), rest, e');
    assert ([a] + rest)[0] == a && ([a] + rest)[1..] == rest;
    assert Goes(c, allow, sent, e, [a] + rest, e');
  }

  lemma Single(c: Cipher, allow: Policy, sent: set<Packet>, e: Endpoint, a: Action)
    requires Enabled(e, sent, allow, a)
    ensures Gets(c, allow, sent, e, Step(c, e, sent, allow, a))
  {
    Stay(c, allow, sent, Step(c, e, sent, allow, a));
    First(c, allow, sent, e, a, Step(c, e, sent, allow, a));
  }

  lemma {:induction false} GoesOn(c: Cipher, allow: Policy, sent: set<Packet>, e: Endpoint, actions: seq<Action>,
                                  f: Endpoint, g: Endpoint)
    requires Goes(c, allow, sent, e, actions, f) && Gets(c, allow, sent, f, g)
    ensures Gets(c, allow, sent, e, g)
    decreases |actions|
  {
    if actions != [] {
      GoesOn(c, allow, sent, Step(c, e, sent, allow, actions[0]), actions[1..], f, g);
      First(c, allow, sent, e, actions[0], g);
    }
  }

  lemma Then(c: Cipher, allow: Policy, sent: set<Packet>, e: Endpoint, f: Endpoint, g: Endpoint)
    requires Gets(c, allow, sent, e, f) && Gets(c, allow, sent, f, g)
    ensures Gets(c, allow, sent, e, g)
  {
    var actions :| Goes(c, allow, sent, e, actions, f);
    GoesOn(c, allow, sent, e, actions, f, g);
  }

  function Side(w: World, client: bool): Endpoint {
    if client then w.client else w.node
  }

  function WithSide(w: World, client: bool, e: Endpoint): World {
    if client then w.(client := e) else w.(node := e)
  }

  lemma {:induction false} GoesInWorld(c: Cipher, allow: Policy, w: World, client: bool, actions: seq<Action>,
                                       e': Endpoint) returns (moves: seq<Move>)
    requires Goes(c, allow, Side(w, !client).sent, Side(w, client), actions, e')
    ensures Reaches(c, allow, w, moves, WithSide(w, client, e'))
    decreases |actions|
  {
    if actions == [] {
      moves := [];
    } else {
      var m := Move(client, actions[0]);
      var v := WorldStep(c, w, allow, m);
      var rest := GoesInWorld(c, allow, v, client, actions[1..], e');
      moves := [m] + rest;
      assert moves[0] == m && moves[1..] == rest;
    }
  }

  /** What one endpoint can do alone the world can do. */
  lemma InWorld(c: Cipher, allow: Policy, w: World, client: bool, e': Endpoint) returns (moves: seq<Move>)
    requires Gets(c, allow, Side(w, !client).sent, Side(w, client), e')
    ensures Reaches(c, allow, w, moves, WithSide(w, client, e'))
  {
    var actions :| Goes(c, allow, Side(w, !client).sent, Side(w, client), actions, e');
    moves := GoesInWorld(c, allow, w, client, actions, e');
  }

  // --------------------------------------------------------- clearing the queue

  /** Only the reading half has changed. */
  ghost predicate WriterAside(e: Endpoint, e': Endpoint) {
    && e'.dir == e.dir && e'.shared == e.shared && e'.sendSeq == e.sendSeq && e'.sent == e.sent
    && e'.writer == e.writer && e'.log == e.log && e'.ok == e.ok
  }

  /** The reader can always give up what it is doing. */
  lemma ToIdle(c: Cipher, allow: Policy, sent: set<Packet>, e: Endpoint) returns (e': Endpoint)
    ensures Gets(c, allow, sent, e, e') && WriterAside(e, e') && e'.queue == e.queue && e'.reader.RIdle?
    decreases match e.reader { case RIdle => 0 case RWait(_) => 1 case RAck(_, _) => 1 case RCheck(_) => 2
                               case RHold(_, _) => 3 }
  {
    if e.reader.RIdle? {
      Stay(c, allow, sent, e);
      return e;
    }
    var a := match e.reader { case RWait(_) => ReadFails case RAck(_, _) => AckFromReader(false)
                              case RCheck(_) => CheckReady case _ => InspectForReader };
    e' := ToIdle(c, allow, sent, Step(c, e, sent, allow, a));
    First(c, allow, sent, e, a, e');
  }

  /** And it can always begin to wait, after returning what is ready. */
  lemma ToWait(c: Cipher, allow: Policy, sent: set<Packet>, e: Endpoint) returns (e': Endpoint)
    ensures Gets(c, allow, sent, e, e') && WriterAside(e, e') && e'.queue == e.queue && e'.reader.RWait?
  {
    var e0 := ToIdle(c, allow, sent, e);
    e' := FromIdle(c, allow, sent, e0);
    Then(c, allow, sent, e, e0, e');
  }

  lemma FromIdle(c: Cipher, allow: Policy, sent: set<Packet>, e: Endpoint) returns (e': Endpoint)
    requires e.reader.RIdle?
    ensures Gets(c, allow, sent, e, e') && WriterAside(e, e') && e'.queue == e.queue && e'.reader.RWait?
    decreases |e.recv.ready|
  {
    var a := BeginRead(|e.recv.ready|);
    if e.recv.ready == [] {
      e' := Step(c, e, sent, allow, a);
      Single(c, allow, sent, e, a);
    } else {
      e' := FromIdle(c, allow, sent, Step(c, e, sent, allow, a));
      First(c, allow, sent, e, a, e');
    }
  }

  /** Nothing is queued that would end a write. */
  ghost predicate NoData(q: seq<Packet>) {
    forall i :: 0 <= i < |q| ==> q[i].kind != Data && q[i].kind != Close
  }

  /** The reader can take all data off the queue; on the bare socket, everything. */
  lemma {:induction false} Clear(c: Cipher, allow: Policy, sent: set<Packet>, e: Endpoint) returns (e': Endpoint)
    ensures Gets(c, allow, sent, e, e') && WriterAside(e, e') && e'.reader.RWait?
    ensures NoData(e'.queue) && (!e'.shared ==> e'.queue == [])
    decreases |e.queue|
  {
    var e1 := ToWait(c, allow, sent, e);
    if CanTake(e1, false) {
      e' := Clear(c, allow, sent, Step(c, e1, sent, allow, TakeForReader));
      First(c, allow, sent, e1, TakeForReader, e');
      Then(c, allow, sent, e, e1, e');
    } else {
      e' := e1;
    }
  }

  // --------------------------------------------------------- completing a write

  /** The write of `e` has returned Ok in `e'`. */
  ghost predicate Finished(e: Endpoint, e': Endpoint)
    requires e.writer.WWait?
  {
    e'.writer.WIdle? && e'.sendSeq == e.sendSeq + 1 && e'.ok == e.ok + e.writer.chunk
  }

  lemma StillThere(q: seq<Packet>, i: nat, p: Packet)
    requires i < |q| && p in q && q[i] != p
    ensures p in Without(q, i)
  {
    var j :| 0 <= j < |q| && q[j] == p;
    assert j < i ==> Without(q, i)[j] == p;
    assert j > i ==> Without(q, i)[j - 1] == p;
  }

  lemma AckCanBeTaken(e: Endpoint, ack: Packet)
    requires ack in e.queue && ack.kind == Ack
    ensures CanTake(e, true)
  {
    var j :| 0 <= j < |e.queue| && e.queue[j] == ack;
    assert Wants(true, e.queue[j]);
  }

  lemma OnAck(c: Cipher, allow: Policy, sent: set<Packet>, e: Endpoint) returns (e': Endpoint)
    requires e.writer.WHold? && e.writer.packet.kind == Ack && e.writer.packet.seqNo == e.writer.at
    ensures Gets(c, allow, sent, e, e') && e'.recv == e.recv && e'.delivered == e.delivered
    ensures e'.writer.WIdle? && e'.sendSeq == e.sendSeq + 1 && e'.ok == e.ok + e.writer.chunk
  {
    var e1 := Step(c, e, sent, allow, InspectForWriter);
    e' := Step(c, e1, sent, allow, FinishWrite);
    Single(c, allow, sent, e1, FinishWrite);
    First(c, allow, sent, e, InspectForWriter, e');
  }

  /** With its ack queued and no data, the waiting writer passes over what is stale and returns
      Ok. */
  lemma {:induction false} Answered(c: Cipher, allow: Policy, sent: set<Packet>, e: Endpoint, ack: Packet)
    returns (e': Endpoint)
    requires e.writer.WWait? && NoData(e.queue) && ack in e.queue && ack.kind == Ack && ack.seqNo == e.writer.at
    ensures Gets(c, allow, sent, e, e') && Finished(e, e') && e'.recv == e.recv && e'.delivered == e.delivered
    decreases |e.queue|
  {
    AckCanBeTaken(e, ack);
    var i := TakeIndex(e, true);
    var p := e.queue[i];
    var e1 := Step(c, e, sent, allow, TakeForWriter);
    assert p.kind != Data && p.kind != Close;
    if p.kind == Ack && p.seqNo == e.writer.at {
      e' := OnAck(c, allow, sent, e1);
    } else {
      StillThere(e.queue, i, ack);
      assert NoData(e1.queue);
      if p.kind == Ack {
        e' := Answered(c, allow, sent, Step(c, e1, sent, allow, InspectForWriter), ack);
        First(c, allow, sent, e1, InspectForWriter, e');
      } else {
        e' := Answered(c, allow, sent, e1, ack);
      }
    }
    First(c, allow, sent, e, TakeForWriter, e');
  }

  /** Once the peer has sent the ack, the waiting write can return Ok. */
  lemma AckCompletes(c: Cipher, allow: Policy, sent: set<Packet>, e: Endpoint) returns (e': Endpoint)
    requires e.writer.WWait? && Packet(Ack, e.writer.at, []) in sent
    ensures Gets(c, allow, sent, e, e') && Finished(e, e')
  {
    var ack := Packet(Ack, e.writer.at, []);
    var e1 := Clear(c, allow, sent, e);
    var e2 := Step(c, e1, sent, allow, Arrive(ack));
    assert e2.queue[|e1.queue|] == ack;
    e' := Answered(c, allow, sent, e2, ack);
    First(c, allow, sent, e1, Arrive(ack), e');
    Then(c, allow, sent, e, e1, e');
  }

  // ------------------------------------------------------------- a lost ack repeated

  /** A handle of `y` holds data number `s` that opens. */
  ghost predicate HoldsCopy(c: Cipher, y: Endpoint, s: nat) {
    || (y.reader.RHold? && y.reader.packet.seqNo == s && exists text :: Opens(c, y, y.reader.packet, text))
    || (y.writer.WHold? && y.writer.packet.seqNo == s && exists text :: Opens(c, y, y.writer.packet, text))
  }

  /** Holding data it has already stored, an endpoint can repeat the ack and change nothing that
      was received. */
  lemma AcksAgain(c: Cipher, allow: Policy, sent: set<Packet>, y: Endpoint, s: nat) returns (y': Endpoint)
    requires s < y.recv.next && HoldsCopy(c, y, s)
    ensures Gets(c, allow, sent, y, y') && Packet(Ack, s, []) in y'.sent
    ensures y'.recv == y.recv && y'.delivered == y.delivered
  {
    if y.reader.RHold? && y.reader.packet.seqNo == s && exists text :: Opens(c, y, y.reader.packet, text) {
      var text :| Opens(c, y, y.reader.packet, text);
      ReaderStoresAndAcks(c, y, sent, allow, text);
      y' := InspectThen(c, allow, sent, y, InspectForReader, AckFromReader(true));
    } else {
      var text :| Opens(c, y, y.writer.packet, text);
      WriterStoresAndAcks(c, y, sent, allow, text);
      y' := InspectThen(c, allow, sent, y, InspectForWriter, AckFromWriter(true));
    }
  }

  lemma InspectThen(c: Cipher, allow: Policy, sent: set<Packet>, e: Endpoint, a: Action, b: Action)
    returns (e': Endpoint)
    requires Enabled(e, sent, allow, a) && Enabled(Step(c, e, sent, allow, a), sent, allow, b)
    ensures e' == Step(c, Step(c, e, sent, allow, a), sent, allow, b) && Gets(c, allow, sent, e, e')
  {
    e' := Step(c, Step(c, e, sent, allow, a), sent, allow, b);
    Single(c, allow, sent, Step(c, e, sent, allow, a), b);
    First(c, allow, sent, e, a, e');
  }

  /** First the peer `y` gets to `y'`, which has sent the ack; then the waiting side is done. */
  lemma AfterAck(c: Cipher, allow: Policy, w: World, clientSends: bool, y': Endpoint)
    returns (moves: seq<Move>, w': World)
    requires Side(w, clientSends).writer.WWait?
    requires Gets(c, allow, Side(w, clientSends).sent, Side(w, !clientSends), y')
    requires Packet(Ack, Side(w, clientSends).writer.at, []) in y'.sent
    ensures Reaches(c, allow, w, moves, w')
    ensures Finished(Side(w, clientSends), Side(w', clientSends)) && Side(w', !clientSends) == y'
  {
    var before := InWorld(c, allow, w, !clientSends, y');
    var v := WithSide(w, !clientSends, y');
    var x' := AckCompletes(c, allow, y'.sent, Side(v, clientSends));
    var after := InWorld(c, allow, v, clientSends, x');
    w' := WithSide(v, clientSends, x');
    ReachesTrans(c, allow, w, before, v, after, w');
    moves := before + after;
  }

  /** Wherever a write waits for the ack of a chunk that the peer has stored, and a handle of the
      peer holds another copy of it, some run completes the write with nothing received changed:
      neither the receiver's state nor its output. */
  lemma RepeatedAckCompletes(c: Cipher, strays: Packet -> bool, hello: seq<byte>, past: seq<Move>, w: World,
                             clientSends: bool) returns (moves: seq<Move>, w': World)
    requires Correct(c) && Unopened(c, strays) && Reaches(c, Repeating(strays), Init(hello), past, w)
    requires var x, y := Side(w, clientSends), Side(w, !clientSends);
             x.writer.WWait? && x.sendSeq < y.recv.next && HoldsCopy(c, y, x.sendSeq)
    ensures Reaches(c, Repeating(strays), w, moves, w')
    ensures Finished(Side(w, clientSends), Side(w', clientSends))
    ensures var y, y' := Side(w, !clientSends), Side(w', !clientSends); y'.recv == y.recv && Output(y') == Output(y)
  {
    InitInv(c, false, hello);
    RunKeepsInv(c, false, strays, Init(hello), past, w);
    var x, y := Side(w, clientSends), Side(w, !clientSends);
    var y' := AcksAgain(c, Repeating(strays), x.sent, y, x.sendSeq);
    moves, w' := AfterAck(c, Repeating(strays), w, clientSends, y');
  }

  // -------------------------------------------------- every waiting write can complete

  /** While it waits, the packet is on the wire. */
  ghost predicate Transmitted(c: Cipher, e: Endpoint) {
    e.writer.WWait? || e.writer.WHold? || e.writer.WAck? ==>
      DataPacket(c, e.dir, e.writer.at, e.writer.chunk) in e.sent
  }

  lemma {:induction false} RunTransmits(c: Cipher, allow: Policy, w: World, moves: seq<Move>, w': World)
    requires Transmitted(c, w.client) && Transmitted(c, w.node) && Reaches(c, allow, w, moves, w')
    ensures Transmitted(c, w'.client) && Transmitted(c, w'.node)
    decreases |moves|
  {
    if moves != [] {
      var m := moves[0];
      StepTransmits(c, Side(w, m.byClient), Side(w, !m.byClient).sent, allow, m.action);
      RunTransmits(c, allow, WorldStep(c, w, allow, m), moves[1..], w');
    }
  }

  lemma StepTransmits(c: Cipher, e: Endpoint, sent: set<Packet>, allow: Policy, a: Action)
    requires Transmitted(c, e) && Enabled(e, sent, allow, a)
    ensures Transmitted(c, Step(c, e, sent, allow, a))
  {
  }

  /** An endpoint to which data that opens was sent can come to hold it. */
  lemma ComesToHold(c: Cipher, allow: Policy, sent: set<Packet>, e: Endpoint, p: Packet) returns (e': Endpoint)
    requires p in sent && p.kind == Data
    ensures Gets(c, allow, sent, e, e') && e'.reader.RHold? && e'.reader.packet == p && e'.dir == e.dir
  {
    var e1 := Clear(c, allow, sent, e);
    var e2 := Step(c, e1, sent, allow, Arrive(p));
    var last := |e1.queue|;
    assert e2.queue[last] == p && Wants(false, p);
    assert forall i :: 0 <= i < last ==> e2.queue[i] == e1.queue[i] && !Wants(false, e2.queue[i]);
    assert TakeIndex(e2, false) == last;
    e' := Step(c, e2, sent, allow, TakeForReader);
    Single(c, allow, sent, e2, TakeForReader);
    First(c, allow, sent, e1, Arrive(p), e');
    Then(c, allow, sent, e, e1, e');
  }

  /** An endpoint to which data that opens was sent can come to ack it. */
  lemma ComesToAck(c: Cipher, allow: Policy, sent: set<Packet>, y: Endpoint, p: Packet, text: seq<byte>)
    returns (y': Endpoint)
    requires p in sent && Opens(c, y, p, text)
    ensures Gets(c, allow, sent, y, y') && Packet(Ack, p.seqNo, []) in y'.sent
  {
    var y1 := ComesToHold(c, allow, sent, y, p);
    ReaderStoresAndAcks(c, y1, sent, allow, text);
    y' := InspectThen(c, allow, sent, y1, InspectForReader, AckFromReader(true));
    Then(c, allow, sent, y, y1, y');
  }

  /** From every reachable world in which a write waits for its ack, some run lets it return Ok,
      with the chunk then in the peer's output right after what had been reported before. */
  lemma WaitingWriteCanComplete(c: Cipher, strays: Packet -> bool, hello: seq<byte>, past: seq<Move>, w: World,
                                clientSends: bool) returns (moves: seq<Move>, w': World)
    requires Correct(c) && Unopened(c, strays) && NoStrayAcks(strays)
    requires Reaches(c, Repeating(strays), Init(hello), past, w) && Side(w, clientSends).writer.WWait?
    ensures Reaches(c, Repeating(strays), w, moves, w')
    ensures Finished(Side(w, clientSends), Side(w', clientSends))
    ensures Side(w, clientSends).ok + Side(w, clientSends).writer.chunk <= Output(Side(w', !clientSends))
  {
    var allow := Repeating(strays);
    InitInv(c, false, hello);
    RunKeepsInv(c, false, strays, Init(hello), past, w);
    RunTransmits(c, allow, Init(hello), past, w);
    var x, y := Side(w, clientSends), Side(w, !clientSends);
    var p := DataPacket(c, x.dir, x.sendSeq, x.writer.chunk);
    var y' := ComesToAck(c, allow, x.sent, y, p, x.writer.chunk);
    moves, w' := AfterAck(c, allow, w, clientSends, y');
    ReachesTrans(c, allow, Init(hello), past, w, moves, w');
    StreamSafety(c, strays, hello, past + moves, w');
  }

  // ------------------------------------------------------------ retransmission

  /** The wait goes unanswered: nothing but transmissions and timeouts. */
  ghost predicate Unanswered(actions: seq<Action>) {
    forall i :: 0 <= i < |actions| ==> actions[i] == Transmit || actions[i] == WaitTimesOut
  }

  /** Five transmissions, each followed by a timeout. */
  ghost predicate Alternating(actions: seq<Action>, from: nat) {
    forall i :: 0 <= i < |actions| ==> actions[i] == if (from + i) % 2 == 0 then Transmit else WaitTimesOut
  }

  lemma {:induction false} UnansweredFrom(c: Cipher, allow: Policy, sent: set<Packet>, e: Endpoint,
                                          actions: seq<Action>, e': Endpoint, done: nat)
    requires Unanswered(actions) && Goes(c, allow, sent, e, actions, e') && e'.writer.WIdle? && done < 10
    requires (done % 2 == 0 && e.writer.WSend? && e.writer.tries == done / 2)
             || (done % 2 == 1 && e.writer.WWait? && e.writer.tries == (done + 1) / 2)
    ensures |actions| == 10 - done && Alternating(actions, done)
    ensures e' == e.(writer := WIdle, sent := e'.sent)
    ensures e.sent <= e'.sent <= e.sent + {DataPacket(c, e.dir, e.writer.at, e.writer.chunk)}
    decreases |actions|
  {
    var e1 := Step(c, e, sent, allow, actions[0]);
    if done == 9 {
      assert e1.writer.WIdle?;
      NothingMore(c, allow, sent, e1, actions[1..], e');
    } else {
      UnansweredFrom(c, allow, sent, e1, actions[1..], e', done + 1);
      assert forall i :: 0 < i < |actions| ==> actions[i] == actions[1..][i - 1];
    }
  }

  lemma NothingMore(c: Cipher, allow: Policy, sent: set<Packet>, e: Endpoint, actions: seq<Action>, e': Endpoint)
    requires Unanswered(actions) && e.writer.WIdle? && Goes(c, allow, sent, e, actions, e')
    ensures actions == [] && e' == e
  {
  }

  /** A write that is never answered sends its packet five times, waits out each of them, and
      only then gives up; it leaves the sequence number as it was. */
  lemma UnansweredWrite(c: Cipher, allow: Policy, sent: set<Packet>, e: Endpoint, actions: seq<Action>, e': Endpoint)
    requires e.writer.WSend? && e.writer.tries == 0
    requires Unanswered(actions) && Goes(c, allow, sent, e, actions, e') && e'.writer.WIdle?
    ensures actions == [Transmit, WaitTimesOut, Transmit, WaitTimesOut, Transmit, WaitTimesOut,
                        Transmit, WaitTimesOut, Transmit, WaitTimesOut]
    ensures e' == e.(writer := WIdle,
                     sent := e.sent + {Packet(Data, e.writer.at, c.seal(Nonce(e.dir, e.writer.at), e.writer.chunk))})
  {
    UnansweredFrom(c, allow, sent, e, actions, e', 0);
    var e1 := Step(c, e, sent, allow, actions[0]);
    UnansweredFrom(c, allow, sent, e1, actions[1..], e', 1);
  }
}
