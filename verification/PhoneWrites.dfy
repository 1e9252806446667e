/** The phone's write queue on top of the UDP byte stream.  After a flush whose write did not
    complete in time the queue may grow, and the next chunk offered is cut from the longer
    queue: exactly when does that keep the stream intact? */
module PhoneWrites {
  import opened Base
  import opened PacketCodec
  import opened SessionProtocol
  import opened SessionSafety
  import opened SessionPolicy
  import B = Backends

  type Bytes = seq<byte>

  // ------------------------------------------------------- what a stalled flush leaves

  /** The chunk whose write did not complete in time in a flush of `pending` against these
      answers, if any; the socket may report that as a timeout or as blocking. */
  function StalledOn(pending: Bytes, answers: seq<B.Answer>): Option<Bytes>
    decreases |answers|
  {
    if pending == [] || answers == [] then None
    else
      match answers[0]
      case Accept(n) =>
        var k := Min(n, Min(|pending|, B.SCRATCH));
        if k == 0 then None else StalledOn(pending[k..], answers[1..])
      case Interrupted => StalledOn(pending, answers[1..])
      case TimedOut => Some(B.OfferedChunk(pending))
      case WouldBlock => Some(B.OfferedChunk(pending))
      case Broken => None
  }

  lemma {:induction false} StalledLeaves(pending: Bytes, answers: seq<B.Answer>)
    requires StalledOn(pending, answers).Some?
    ensures var f := B.Flushed(pending, answers);
            !f.failed && f.pending != [] && StalledOn(pending, answers) == Some(B.OfferedChunk(f.pending))
    decreases |answers|
  {
    match answers[0] {
      case Accept(n) => StalledLeaves(pending[Min(n, Min(|pending|, B.SCRATCH))..], answers[1..]);
      case Interrupted => StalledLeaves(pending, answers[1..]);
      case _ =>
    }
  }

  /** The bytes step `t` flushes, where it flushes this stream. */
  function Source(m: B.Maps, t: B.Action): Bytes {
    match t
    case Queue(stream, bytes, _, _) => if stream in m.streams then B.Queued(m, stream) + bytes else []
    case FlushOne(stream, _) => if stream in m.streams then B.Queued(m, stream) else []
    case _ => []
  }

  predicate Flushes(t: B.Action, stream: string) {
    (t.Queue? || t.FlushOne?) && t.stream == stream
  }

  /** The first chunk that step `t` offers to the writer, if it offers any. */
  function FirstOffer(m: B.Maps, t: B.Action): Option<Bytes> {
    if Source(m, t) == [] then None else Some(B.OfferedChunk(Source(m, t)))
  }

  /** The chunk whose write did not complete in time when step `t` flushed its stream. */
  function StepStalledOn(m: B.Maps, t: B.Action): Option<Bytes> {
    match t
    case Queue(_, _, answers, _) => StalledOn(Source(m, t), answers)
    case FlushOne(_, answers) => StalledOn(Source(m, t), answers)
    case _ => None
  }

  /** Such a step leaves that chunk at the head of the queue. */
  lemma StalledStep(m: B.Maps, t: B.Action, stream: string)
    requires Flushes(t, stream) && StepStalledOn(m, t).Some?
    ensures var m' := B.Step(m, t);
            && stream in m'.streams && B.Queued(m', stream) != []
            && StepStalledOn(m, t) == Some(B.OfferedChunk(B.Queued(m', stream)))
  {
    StalledLeaves(Source(m, t), t.answers);
  }

  /** The chunk cut from a queue does not change when bytes are added exactly if none are
      added or a full chunk was there already. */
  lemma ReofferUnchangedIff(pending: Bytes, more: Bytes)
    ensures B.OfferedChunk(pending + more) == B.OfferedChunk(pending) <==>
            more == [] || |pending| >= MAX_PAYLOAD_LEN
    ensures |pending| < MAX_PAYLOAD_LEN ==> B.OfferedChunk(pending) == pending <= B.OfferedChunk(pending + more)
  {
    var a, b := B.OfferedChunk(pending), B.OfferedChunk(pending + more);
    if more == [] {
      assert pending + more == pending;
    } else if |pending| >= MAX_PAYLOAD_LEN {
      assert a == pending[..MAX_PAYLOAD_LEN] && b == (pending + more)[..MAX_PAYLOAD_LEN];
    } else {
      assert |a| == |pending| < |b|;
    }
  }

  /** The step leaves this stream alone: it does not flush, open or remove it. */
  predicate LeavesAlone(t: B.Action, stream: string) {
    t.Warm? || t.stream != stream
  }

  /** What is queued for a live stream is the same in both. */
  predicate SameQueue(m: B.Maps, m': B.Maps, stream: string) {
    stream in m.streams ==> stream in m'.streams && B.Queued(m', stream) == B.Queued(m, stream)
  }

  lemma OthersLeaveAlone(m: B.Maps, s: string, answers: seq<B.Answer>, spare: Option<nat>, stream: string)
    requires s != stream
    ensures SameQueue(m, B.FlushedStream(m, s, answers), stream) && SameQueue(m, B.Removed(m, s, spare), stream)
  {
  }

  lemma QueueLeavesAlone(m: B.Maps, s: string, bytes: Bytes, answers: seq<B.Answer>, spare: Option<nat>, stream: string)
    requires s != stream
    ensures SameQueue(m, B.QueuedWrite(m, s, bytes, answers, spare), stream)
  {
    if s in m.streams {
      var q := m.(pending := m.pending[s := B.Queued(m, s) + bytes]);
      OthersLeaveAlone(q, s, answers, spare, stream);
      OthersLeaveAlone(B.FlushedStream(q, s, answers), s, answers, spare, stream);
    }
  }

  lemma LeftAlone(m: B.Maps, t: B.Action, stream: string)
    requires LeavesAlone(t, stream)
    ensures SameQueue(m, B.Step(m, t), stream)
  {
    match t {
      case Queue(s, bytes, answers, spare) => QueueLeavesAlone(m, s, bytes, answers, spare, stream);
      case FlushOne(s, answers) => OthersLeaveAlone(m, s, answers, None, stream);
      case Remove(s, spare) => OthersLeaveAlone(m, s, [], spare, stream);
      case _ =>
    }
  }

  lemma {:induction false} StaysQueued(m: B.Maps, steps: seq<B.Action>, stream: string)
    requires stream in m.streams && forall k :: 0 <= k < |steps| ==> LeavesAlone(steps[k], stream)
    ensures var m' := B.Run(m, steps); stream in m'.streams && B.Queued(m', stream) == B.Queued(m, stream)
    decreases |steps|
  {
    if steps != [] {
      var n := |steps| - 1;
      assert forall k :: 0 <= k < n ==> steps[..n][k] == steps[k];
      StaysQueued(m, steps[..n], stream);
      LeftAlone(B.Run(m, steps[..n]), steps[n], stream);
    }
  }

  lemma {:induction false} RunAppend(m: B.Maps, a: seq<B.Action>, b: seq<B.Action>)
    ensures B.Run(m, a + b) == B.Run(B.Run(m, a), b)
    decreases |b|
  {
    if b == [] {
      assert a + b == a;
    } else {
      var n := |b| - 1;
      RunAppend(m, a, b[..n]);
      assert (a + b)[..|a + b| - 1] == a + b[..n];
    }
  }

  /** The phone after a run, a step that stalled on this stream, and steps that leave it alone. */
  function Later(actions: seq<B.Action>, t: B.Action, between: seq<B.Action>): B.Maps {
    B.Run(B.EMPTY, actions + [t] + between)
  }

  ghost predicate Stalls(actions: seq<B.Action>, t: B.Action, stream: string, between: seq<B.Action>) {
    && Flushes(t, stream) && StepStalledOn(B.Run(B.EMPTY, actions), t).Some?
    && forall k :: 0 <= k < |between| ==> LeavesAlone(between[k], stream)
  }

  lemma {:induction false} StillAtHead(actions: seq<B.Action>, t: B.Action, stream: string, between: seq<B.Action>)
    requires Stalls(actions, t, stream, between)
    ensures var m := Later(actions, t, between);
            && stream in m.streams && B.Queued(m, stream) != []
            && StepStalledOn(B.Run(B.EMPTY, actions), t) == Some(B.OfferedChunk(B.Queued(m, stream)))
  {
    StalledStep(B.Run(B.EMPTY, actions), t, stream);
    assert (actions + [t])[..|actions|] == actions;
    RunAppend(B.EMPTY, actions + [t], between);
    StaysQueued(B.Run(B.EMPTY, actions + [t]), between, stream);
  }

  /** In any run of the phone: after a write that did not complete in time, and whatever happens
      to other streams in between, the next step that flushes the stream offers the same chunk
      again if and only if it queues nothing or a full chunk is already pending. */
  lemma NextOfferSameIff(actions: seq<B.Action>, t: B.Action, stream: string, between: seq<B.Action>, u: B.Action)
    requires Stalls(actions, t, stream, between) && Flushes(u, stream)
    ensures var m := Later(actions, t, between);
            FirstOffer(m, u) == StepStalledOn(B.Run(B.EMPTY, actions), t) <==>
            u.FlushOne? || u.bytes == [] || |B.Queued(m, stream)| >= MAX_PAYLOAD_LEN
  {
    StillAtHead(actions, t, stream, between);
    var m := Later(actions, t, between);
    ReofferUnchangedIff(B.Queued(m, stream), if u.Queue? then u.bytes else []);
  }

  // --------------------------------------------------------------- the stream below

  /** How the queue behaves: whether it may hold `pending` when a write does not complete in
      time and have `more` behind it when the next write is made. */
  type Growth = (Bytes, Bytes) -> bool

  /** The chunks such a queue offers one after the other. */
  ghost function PolicyOf(may: Growth): Policy {
    Policy((a: Bytes, b: Bytes) =>
             exists pending, more ::
               may(pending, more) && a == B.OfferedChunk(pending) && b == B.OfferedChunk(pending + more),
           NoStrays())
  }

  /** A queue keeps every run of the UDP session intact if and only if, whenever a write did
      not complete in time, nothing is added before the next write or a full chunk is pending. */
  lemma QueueSafeIff(c: Cipher, may: Growth)
    requires Correct(c)
    ensures SafePolicy(c, PolicyOf(may)) <==>
            forall pending, more :: may(pending, more) ==> more == [] || |pending| >= MAX_PAYLOAD_LEN
  {
    SafeIffOnlyRepeats(c, PolicyOf(may));
    if OnlyRepeats(PolicyOf(may)) {
      forall pending, more | may(pending, more) ensures more == [] || |pending| >= MAX_PAYLOAD_LEN {
        assert PolicyOf(may).follows(B.OfferedChunk(pending), B.OfferedChunk(pending + more));
        ReofferUnchangedIff(pending, more);
      }
    }
    if forall pending, more :: may(pending, more) ==> more == [] || |pending| >= MAX_PAYLOAD_LEN {
      forall a, b | |a| <= MAX_PAYLOAD_LEN && |b| <= MAX_PAYLOAD_LEN && PolicyOf(may).follows(a, b) ensures a == b {
        var pending, more :|
          may(pending, more) && a == B.OfferedChunk(pending) && b == B.OfferedChunk(pending + more);
        ReofferUnchangedIff(pending, more);
      }
    }
  }

  /** The phone flushes only what is not empty and adds whatever the browser sends meanwhile. */
  function PhoneGrowth(): Growth {
    (pending: Bytes, more: Bytes) => pending != []
  }

  /** So its queue does not keep every run intact. */
  lemma PhoneQueueUnsafe(c: Cipher)
    requires Correct(c)
    ensures !SafePolicy(c, PolicyOf(PhoneGrowth()))
  {
    QueueSafeIff(c, PhoneGrowth());
    assert PhoneGrowth()([1], [0]);
  }

  /** What is lost: in any run of the phone, if a write does not complete in time with less
      than a full chunk pending and more bytes are queued next, there is, from any calm point
      of the session, a run of it that offers just these two chunks, after which the phone has
      been told that the longer chunk is written while the peer has only the shorter one: the
      bytes between them never arrive. */
  lemma QueuedBytesLost(c: Cipher, w0: World, actions: seq<B.Action>, t: B.Action, stream: string,
                        between: seq<B.Action>, u: B.Action)
    returns (moves: seq<Move>, w: World)
    requires Correct(c) && Calm(w0) && Stalls(actions, t, stream, between)
    requires u.Queue? && u.stream == stream && u.bytes != []
    requires |B.Queued(Later(actions, t, between), stream)| < MAX_PAYLOAD_LEN
    ensures var pending := B.Queued(Later(actions, t, between), stream);
            var b := B.OfferedChunk(pending + u.bytes);
            && Reaches(c, PolicyOf(PhoneGrowth()), w0, moves, w) && Quiescent(w.client)
            && StepStalledOn(B.Run(B.EMPTY, actions), t) == Some(pending)
            && FirstOffer(Later(actions, t, between), u) == Some(b)
            && pending < b <= pending + u.bytes
            && w.client.ok == w0.client.ok + b && Output(w.node) == Output(w0.node) + pending
  {
    StillAtHead(actions, t, stream, between);
    var pending, more := B.Queued(Later(actions, t, between), stream), u.bytes;
    var b := B.OfferedChunk(pending + more);
    ReofferUnchangedIff(pending, more);
    assert PhoneGrowth()(pending, more);
    assert PolicyOf(PhoneGrowth()).follows(pending, b);
    moves, w := MismatchRun(c, PolicyOf(PhoneGrowth()), w0, pending, b);
  }

  /** Every such situation arises: a stream is opened, the bytes are queued, the write stalls. */
  lemma AnyGrowthArises(stream: string, pending: Bytes, answer: B.Answer, actions: seq<B.Action>, t: B.Action)
    requires pending != [] && (answer == B.TimedOut || answer == B.WouldBlock)
    requires actions == [B.Open(stream, "web", true, Some(0))]
    requires t == B.Queue(stream, pending, [answer], None)
    ensures Stalls(actions, t, stream, [])
    ensures StepStalledOn(B.Run(B.EMPTY, actions), t) == Some(B.OfferedChunk(pending))
    ensures B.Queued(Later(actions, t, []), stream) == pending
  {
    assert actions[..0] == [] && B.Run(B.EMPTY, actions) == B.Step(B.EMPTY, actions[0]);
    assert (actions + [t])[..1] == actions && actions + [t] + [] == actions + [t];
    assert [] + pending == pending;
  }
}
