/** Exactly when every run keeps the stream intact: callers of `write`, after one that did not
    return Ok, offer the same chunk again (or stop), and no stray ack arrives. */
module SessionPolicy {
  import opened Base
  import opened PacketCodec
  import opened Receiver
  import opened SessionProtocol
  import opened SessionSafety
  import opened SessionLedger

  /** Bytes reported written equal bytes put out at the peer whenever nothing is pending. */
  ghost predicate Faithful(x: Endpoint, y: Endpoint) {
    Quiescent(x) ==> x.ok == Output(y)
  }

  ghost predicate SafePolicy(c: Cipher, allow: Policy) {
    forall hello, moves, w :: Reaches(c, allow, Init(hello), moves, w) ==>
      Faithful(w.client, w.node) && Faithful(w.node, w.client)
  }

  /** The caller only ever repeats the outstanding chunk. */
  ghost predicate OnlyRepeats(allow: Policy) {
    forall a, b :: |a| <= MAX_PAYLOAD_LEN && |b| <= MAX_PAYLOAD_LEN && allow.follows(a, b) ==> a == b
  }

  lemma {:induction false} ReachesTrans(c: Cipher, allow: Policy, u: World, a: seq<Move>, v: World,
                                        b: seq<Move>, w: World)
    requires Reaches(c, allow, u, a, v) && Reaches(c, allow, v, b, w)
    ensures Reaches(c, allow, u, a + b, w)
    decreases |a|
  {
    if a == [] {
      assert a + b == b;
    } else {
      ReachesTrans(c, allow, WorldStep(c, u, allow, a[0]), a[1..], v, b, w);
      assert (a + b)[1..] == a[1..] + b;
    }
  }

  /** A run under a repeat-only policy is a run of the restricted machine. */
  lemma {:induction false} RepeatRunIsRestricted(c: Cipher, allow: Policy, w: World, moves: seq<Move>, w': World)
    requires Correct(c) && OnlyRepeats(allow) && Kept(w) && Reaches(c, allow, w, moves, w')
    ensures Reaches(c, Repeating(allow.strays), w, moves, w')
    decreases |moves|
  {
    if moves != [] {
      var m := moves[0];
      assert WorldEnabled(w, Repeating(allow.strays), m);
      var v := WorldStep(c, w, allow, m);
      assert v == WorldStep(c, w, Repeating(allow.strays), m);
      WorldStepKeeps(c, allow, w, m);
      RepeatRunIsRestricted(c, allow, v, moves[1..], w');
    }
  }

  function C(a: Action): Move { Move(true, a) }
  function N(a: Action): Move { Move(false, a) }

  /** One enabled move. */
  lemma One(c: Cipher, allow: Policy, w: World, m: Move)
    requires WorldEnabled(w, allow, m)
    ensures Reaches(c, allow, w, [m], WorldStep(c, w, allow, m))
  {
    assert [m][0] == m && [m][1..] == [];
  }

  /** One more enabled move at the end of a run. */
  lemma Extend(c: Cipher, allow: Policy, u: World, moves: seq<Move>, v: World, m: Move)
    requires Reaches(c, allow, u, moves, v) && WorldEnabled(v, allow, m)
    ensures Reaches(c, allow, u, moves + [m], WorldStep(c, v, allow, m))
  {
    One(c, allow, v, m);
    ReachesTrans(c, allow, u, moves, v, [m], WorldStep(c, v, allow, m));
  }

  /** Retries and timeouts exhaust the attempts and change nothing else. */
  lemma {:induction false} TimesOut(c: Cipher, allow: Policy, w: World) returns (moves: seq<Move>)
    requires w.client.writer.WWait? && w.client.writer.tries <= RETRIES
    requires DataPacket(c, w.client.dir, w.client.writer.at, w.client.writer.chunk) in w.client.sent
    ensures Reaches(c, allow, w, moves, w.(client := w.client.(writer := WIdle)))
    decreases RETRIES - w.client.writer.tries
  {
    var e := w.client;
    var v := WorldStep(c, w, allow, C(WaitTimesOut));
    One(c, allow, w, C(WaitTimesOut));
    if e.writer.tries == RETRIES {
      return [C(WaitTimesOut)];
    }
    var u := WorldStep(c, v, allow, C(Transmit));
    One(c, allow, v, C(Transmit));
    assert u.client.sent == e.sent;
    assert u == w.(client := e.(writer := WWait(e.writer.chunk, e.writer.at, e.writer.tries + 1)));
    var rest := TimesOut(c, allow, u);
    var done := w.(client := e.(writer := WIdle));
    assert done == u.(client := u.client.(writer := WIdle));
    ReachesTrans(c, allow, v, [C(Transmit)], u, rest, done);
    ReachesTrans(c, allow, w, [C(WaitTimesOut)], v, [C(Transmit)] + rest, done);
    moves := [C(WaitTimesOut)] + ([C(Transmit)] + rest);
  }

  // ------------------------------------------------------------- pieces of runs

  /** Nothing is outstanding from the client and nothing is waiting at either end. */
  ghost predicate Calm(w: World) {
    && w.client.dir == ClientToNode && w.node.dir == NodeToClient && !w.client.shared && w.node.shared
    && Quiescent(w.client) && w.client.queue == [] && w.node.queue == [] && w.node.reader.RIdle?
    && w.node.recv == Recv(w.client.sendSeq, [], map[])
  }

  function SentChunk(c: Cipher, w: World, chunk: seq<byte>): World {
    var e := w.client;
    w.(client := e.(writer := WWait(chunk, e.sendSeq, 1),
                    log := if |e.log| > e.sendSeq then e.log else e.log + [chunk],
                    sent := e.sent + {DataPacket(c, e.dir, e.sendSeq, chunk)}))
  }

  /** The client offers a chunk and sends it once. */
  lemma Send(c: Cipher, allow: Policy, w: World, chunk: seq<byte>) returns (moves: seq<Move>)
    requires w.client.writer.WIdle? && |chunk| <= MAX_PAYLOAD_LEN
    requires |w.client.log| > w.client.sendSeq ==> allow.follows(w.client.log[w.client.sendSeq], chunk)
    ensures Reaches(c, allow, w, moves, SentChunk(c, w, chunk))
  {
    assert Chunk(chunk) == chunk;
    One(c, allow, w, C(BeginWrite(chunk)));
    var v := WorldStep(c, w, allow, C(BeginWrite(chunk)));
    Extend(c, allow, w, [C(BeginWrite(chunk))], v, C(Transmit));
    moves := [C(BeginWrite(chunk))] + [C(Transmit)];
  }

  /** The node's reader holds packet `p`. */
  function HeldPacket(w: World, p: Packet): World {
    var e := w.node;
    w.(node := e.(reader := RHold(MAX_PAYLOAD_LEN, p),
                  books := e.books.(arrived := e.books.arrived + multiset{p}, reader := e.books.reader + multiset{p})))
  }

  lemma Hold(c: Cipher, allow: Policy, w: World, p: Packet) returns (moves: seq<Move>)
    requires w.node.reader.RIdle? && w.node.queue == [] && w.node.shared && w.node.recv.ready == []
    requires p in w.client.sent && p.kind == Data
    ensures Reaches(c, allow, w, moves, HeldPacket(w, p))
  {
    One(c, allow, w, N(Arrive(p)));
    var w1 := WorldStep(c, w, allow, N(Arrive(p)));
    Extend(c, allow, w, [N(Arrive(p))], w1, N(BeginRead(MAX_PAYLOAD_LEN)));
    var w2 := WorldStep(c, w1, allow, N(BeginRead(MAX_PAYLOAD_LEN)));
    assert w2.node.queue == [p] && Without([p], 0) == [];
    Extend(c, allow, w, [N(Arrive(p))] + [N(BeginRead(MAX_PAYLOAD_LEN))], w2, N(TakeForReader));
    assert WorldStep(c, w2, allow, N(TakeForReader)) == HeldPacket(w, p);
    moves := [N(Arrive(p))] + [N(BeginRead(MAX_PAYLOAD_LEN))] + [N(TakeForReader)];
  }

  /** The node has stored the chunk it holds and sent the ack. */
  function StoredChunk(w: World, k: nat, chunk: seq<byte>): World {
    w.(node := w.node.(recv := Recv(k + 1, chunk, map[]), sent := w.node.sent + {AckPacket(k)},
                       reader := RCheck(MAX_PAYLOAD_LEN)))
  }

  lemma Store(c: Cipher, allow: Policy, w: World, k: nat, chunk: seq<byte>) returns (moves: seq<Move>)
    requires Correct(c) && w.node.dir == NodeToClient && w.node.recv == Recv(k, [], map[])
    requires w.node.reader == RHold(MAX_PAYLOAD_LEN, DataPacket(c, ClientToNode, k, chunk))
    ensures Reaches(c, allow, w, moves, StoredChunk(w, k, chunk))
  {
    One(c, allow, w, N(InspectForReader));
    var w1 := WorldStep(c, w, allow, N(InspectForReader));
    assert [] + chunk == chunk;
    assert w1.node.recv == Recv(k + 1, chunk, map[]) && w1.node.reader == RAck(MAX_PAYLOAD_LEN, k);
    Extend(c, allow, w, [N(InspectForReader)], w1, N(AckFromReader(true)));
    moves := [N(InspectForReader)] + [N(AckFromReader(true))];
  }

  /** The node's reader has returned what was ready. */
  function ReadOut(w: World): World {
    var e := w.node;
    w.(node := e.(recv := e.recv.(ready := []), delivered := e.delivered + e.recv.ready, reader := RIdle))
  }

  lemma Return(c: Cipher, allow: Policy, w: World) returns (moves: seq<Move>)
    requires w.node.reader == RCheck(MAX_PAYLOAD_LEN) && |w.node.recv.ready| <= MAX_PAYLOAD_LEN
    ensures Reaches(c, allow, w, moves, ReadOut(w))
  {
    One(c, allow, w, N(CheckReady));
    var w1 := WorldStep(c, w, allow, N(CheckReady));
    moves := [N(CheckReady)];
    var r := w.node.recv.ready;
    if r == [] {
      assert w.node.delivered + [] == w.node.delivered;
      Extend(c, allow, w, moves, w1, N(ReadFails));
      moves := moves + [N(ReadFails)];
    } else {
      assert r[..|r|] == r && r[|r|..] == [];
    }
  }

  /** The node has received chunk number `k` and everything of it was read. */
  function ReceivedChunk(c: Cipher, w: World, k: nat, chunk: seq<byte>): World {
    ReadOut(StoredChunk(HeldPacket(w, DataPacket(c, ClientToNode, k, chunk)), k, chunk))
  }

  lemma Receive(c: Cipher, allow: Policy, w: World, k: nat, chunk: seq<byte>) returns (moves: seq<Move>)
    requires Correct(c) && w.node.dir == NodeToClient && w.node.shared && |chunk| <= MAX_PAYLOAD_LEN
    requires w.node.reader.RIdle? && w.node.queue == [] && w.node.recv == Recv(k, [], map[])
    requires DataPacket(c, ClientToNode, k, chunk) in w.client.sent
    ensures Reaches(c, allow, w, moves, ReceivedChunk(c, w, k, chunk))
  {
    var p := DataPacket(c, ClientToNode, k, chunk);
    moves := Hold(c, allow, w, p);
    var w1 := HeldPacket(w, p);
    var more := Store(c, allow, w1, k, chunk);
    var w2 := StoredChunk(w1, k, chunk);
    ReachesTrans(c, allow, w, moves, w1, more, w2);
    moves := moves + more;
    more := Return(c, allow, w2);
    ReachesTrans(c, allow, w, moves, w2, more, ReadOut(w2));
    moves := moves + more;
  }

  /** The client's write has returned Ok on ack `p`. */
  function Completed(w: World, p: Packet): World
    requires w.client.writer.WWait?
  {
    var e := w.client;
    w.(client := e.(sendSeq := e.sendSeq + 1, ok := e.ok + e.writer.chunk, writer := WIdle,
                    books := e.books.(arrived := e.books.arrived + multiset{p},
                                      writer := e.books.writer + multiset{p})))
  }

  /** The client holds ack `p`. */
  function HeldAck(w: World, p: Packet): World
    requires w.client.writer.WWait?
  {
    var e := w.client;
    w.(client := e.(writer := WHold(e.writer.chunk, e.writer.at, e.writer.tries, p),
                    books := e.books.(arrived := e.books.arrived + multiset{p},
                                      writer := e.books.writer + multiset{p})))
  }

  lemma TakeAck(c: Cipher, allow: Policy, w: World, p: Packet) returns (moves: seq<Move>)
    requires w.client.writer.WWait? && !w.client.shared && w.client.queue == []
    requires p.kind == Ack && (p in w.node.sent || allow.strays(p))
    ensures Reaches(c, allow, w, moves, HeldAck(w, p))
  {
    One(c, allow, w, C(Arrive(p)));
    var w1 := WorldStep(c, w, allow, C(Arrive(p)));
    assert w1.client.queue == [p] && Without([p], 0) == [];
    Extend(c, allow, w, [C(Arrive(p))], w1, C(TakeForWriter));
    assert WorldStep(c, w1, allow, C(TakeForWriter)) == HeldAck(w, p);
    moves := [C(Arrive(p))] + [C(TakeForWriter)];
  }

  /** Any ack of the right number completes the write. */
  lemma Complete(c: Cipher, allow: Policy, w: World, p: Packet) returns (moves: seq<Move>)
    requires w.client.writer.WWait? && !w.client.shared && w.client.queue == []
    requires p.kind == Ack && p.seqNo == w.client.writer.at && (p in w.node.sent || allow.strays(p))
    ensures Reaches(c, allow, w, moves, Completed(w, p))
  {
    moves := TakeAck(c, allow, w, p);
    var w1 := HeldAck(w, p);
    One(c, allow, w1, C(InspectForWriter));
    var w2 := WorldStep(c, w1, allow, C(InspectForWriter));
    Extend(c, allow, w1, [C(InspectForWriter)], w2, C(FinishWrite));
    assert WorldStep(c, w2, allow, C(FinishWrite)) == Completed(w, p);
    ReachesTrans(c, allow, w, moves, w1, [C(InspectForWriter)] + [C(FinishWrite)], Completed(w, p));
    moves := moves + ([C(InspectForWriter)] + [C(FinishWrite)]);
  }

  // --------------------------------------------------------------- runs that break it

  /** The client's write of `a` has timed out although the node received it. */
  function TimedOutAfter(c: Cipher, w: World, a: seq<byte>): World {
    var v := ReceivedChunk(c, SentChunk(c, w, a), w.client.sendSeq, a);
    v.(client := v.client.(writer := WIdle))
  }

  lemma TimeOutUnheard(c: Cipher, allow: Policy, w: World, a: seq<byte>) returns (moves: seq<Move>)
    requires Correct(c) && Calm(w) && |a| <= MAX_PAYLOAD_LEN
    ensures Reaches(c, allow, w, moves, TimedOutAfter(c, w, a))
  {
    var w1 := SentChunk(c, w, a);
    moves := Send(c, allow, w, a);
    var w2 := ReceivedChunk(c, w1, w.client.sendSeq, a);
    var more := Receive(c, allow, w1, w.client.sendSeq, a);
    ReachesTrans(c, allow, w, moves, w1, more, w2);
    moves := moves + more;
    more := TimesOut(c, allow, w2);
    ReachesTrans(c, allow, w, moves, w2, more, TimedOutAfter(c, w, a));
    moves := moves + more;
  }

  /** For any two chunks, a caller that follows a timed-out `a` with `b` has, from any calm point
      of a session, a run in which `b` is reported written and the peer has `a` in its place. */
  lemma MismatchRun(c: Cipher, allow: Policy, w: World, a: seq<byte>, b: seq<byte>)
    returns (moves: seq<Move>, w': World)
    requires Correct(c) && Calm(w)
    requires |a| <= MAX_PAYLOAD_LEN && |b| <= MAX_PAYLOAD_LEN && allow.follows(a, b)
    ensures Reaches(c, allow, w, moves, w')
    ensures Quiescent(w'.client) && w'.client.ok == w.client.ok + b && Output(w'.node) == Output(w.node) + a
  {
    var w1 := TimedOutAfter(c, w, a);
    moves := TimeOutUnheard(c, allow, w, a);
    assert w1.client.log == w.client.log + [a];
    var w2 := SentChunk(c, w1, b);
    var more := Send(c, allow, w1, b);
    ReachesTrans(c, allow, w, moves, w1, more, w2);
    moves := moves + more;
    var p := AckPacket(w.client.sendSeq);
    w' := Completed(w2, p);
    more := Complete(c, allow, w2, p);
    ReachesTrans(c, allow, w, moves, w2, more, w');
    moves := moves + more;
    assert Output(w.node) + a == w.node.delivered + [] + a;
  }

  lemma InitCalm(hello: seq<byte>)
    ensures Calm(Init(hello)) && Init(hello).client.ok == [] && Output(Init(hello).node) == []
  {
  }

  /** A write of nothing goes through and leaves the session calm, one number further. */
  lemma EmptyRound(c: Cipher, allow: Policy, w: World) returns (moves: seq<Move>, w': World)
    requires Correct(c) && Calm(w)
    ensures Reaches(c, allow, w, moves, w') && Calm(w') && w'.client.sendSeq == w.client.sendSeq + 1
    ensures w'.client.ok == w.client.ok && Output(w'.node) == Output(w.node)
  {
    var k := w.client.sendSeq;
    var w1 := SentChunk(c, w, []);
    moves := Send(c, allow, w, []);
    var w2 := ReceivedChunk(c, w1, k, []);
    var more := Receive(c, allow, w1, k, []);
    ReachesTrans(c, allow, w, moves, w1, more, w2);
    moves := moves + more;
    w' := Completed(w2, AckPacket(k));
    more := Complete(c, allow, w2, AckPacket(k));
    ReachesTrans(c, allow, w, moves, w2, more, w');
    moves := moves + more;
    assert w.client.ok + [] == w.client.ok && w.node.delivered + [] == w.node.delivered;
  }

  lemma {:induction false} EmptyRounds(c: Cipher, allow: Policy, k: nat) returns (moves: seq<Move>, w: World)
    requires Correct(c)
    ensures Reaches(c, allow, Init([]), moves, w) && Calm(w) && w.client.sendSeq == k
    ensures w.client.ok == [] && Output(w.node) == []
    decreases k
  {
    if k == 0 {
      InitCalm([]);
      moves, w := [], Init([]);
    } else {
      var before, v := EmptyRounds(c, allow, k - 1);
      var more, v' := EmptyRound(c, allow, v);
      ReachesTrans(c, allow, Init([]), before, v, more, v');
      moves, w := before + more, v';
    }
  }

  /** With a stray ack of any number there is a run in which a byte is reported written that the
      peer never received. */
  lemma StrayAckRun(c: Cipher, allow: Policy, p: Packet) returns (moves: seq<Move>, w: World)
    requires Correct(c) && allow.strays(p) && p.kind == Ack
    ensures Reaches(c, allow, Init([]), moves, w)
    ensures Quiescent(w.client) && w.client.ok == [0] && Output(w.node) == []
  {
    var v: World;
    moves, v := EmptyRounds(c, allow, p.seqNo);
    var v1 := SentChunk(c, v, [0]);
    var more := Send(c, allow, v, [0]);
    ReachesTrans(c, allow, Init([]), moves, v, more, v1);
    moves := moves + more;
    w := Completed(v1, p);
    more := Complete(c, allow, v1, p);
    ReachesTrans(c, allow, Init([]), moves, v1, more, w);
    moves := moves + more;
  }

  lemma SafeRuns(c: Cipher, allow: Policy)
    requires Correct(c) && Unopened(c, allow.strays) && OnlyRepeats(allow) && NoStrayAcks(allow.strays)
    ensures SafePolicy(c, allow)
  {
    forall hello, moves, w | Reaches(c, allow, Init(hello), moves, w)
      ensures Faithful(w.client, w.node) && Faithful(w.node, w.client)
    {
      RepeatRunIsRestricted(c, allow, Init(hello), moves, w);
      StreamSafety(c, allow.strays, hello, moves, w);
    }
  }

  lemma OtherChunkUnsafe(c: Cipher, allow: Policy, a: seq<byte>, b: seq<byte>)
    requires Correct(c) && a != b
    requires |a| <= MAX_PAYLOAD_LEN && |b| <= MAX_PAYLOAD_LEN && allow.follows(a, b)
    ensures !SafePolicy(c, allow)
  {
    InitCalm([]);
    var moves, w := MismatchRun(c, allow, Init([]), a, b);
    assert [] + b == b && [] + a == a;
    assert !Faithful(w.client, w.node);
  }

  lemma StrayAckUnsafe(c: Cipher, allow: Policy, p: Packet)
    requires Correct(c) && allow.strays(p) && p.kind == Ack
    ensures !SafePolicy(c, allow)
  {
    var moves, w := StrayAckRun(c, allow, p);
    assert !Faithful(w.client, w.node);
  }

  /** Where stray datagrams do not open as data, every run is faithful if and only if callers
      only ever repeat the chunk whose write did not return Ok and no stray datagram is an
      ack. */
  lemma SafeIffOnlyRepeats(c: Cipher, allow: Policy)
    requires Correct(c) && Unopened(c, allow.strays)
    ensures SafePolicy(c, allow) <==> OnlyRepeats(allow) && NoStrayAcks(allow.strays)
  {
    if !OnlyRepeats(allow) {
      var a, b :| |a| <= MAX_PAYLOAD_LEN && |b| <= MAX_PAYLOAD_LEN && allow.follows(a, b) && a != b;
      OtherChunkUnsafe(c, allow, a, b);
    } else if !NoStrayAcks(allow.strays) {
      var p :| allow.strays(p) && p.kind == Ack;
      StrayAckUnsafe(c, allow, p);
    } else {
      SafeRuns(c, allow);
    }
  }
}
