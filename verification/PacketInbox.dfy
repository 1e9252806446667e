/** The packet inbox shared by the two handles of a node's session: a locked queue from which
    each handle removes the first packet it wants, waiting for more when there is none. */
module PacketInbox {
  import opened Base
  import opened PacketCodec
  import opened SessionProtocol

  /** What a handle finds when a wait ends: the queue as the listener and the other handle
      have left it, and whether the wait reports a timeout. */
  datatype Wake = Wake(packets: seq<Packet>, timedOut: bool)

  datatype Received = Received(packet: Option<Packet>, left: seq<Packet>)

  predicate AnyMatch(q: seq<Packet>, forWriter: bool) {
    FirstMatch(q, forWriter) < |q|
  }

  /** `recv_matching` over the queues seen at each wake-up; with no wake-up left the
      deadline has passed. */
  function Recv(q: seq<Packet>, forWriter: bool, wakes: seq<Wake>): Received
    decreases |wakes|
  {
    if AnyMatch(q, forWriter) then
      var i := FirstMatch(q, forWriter);
      Received(Some(q[i]), Without(q, i))
    else if wakes == [] then Received(None, q)
    else if wakes[0].timedOut && !AnyMatch(wakes[0].packets, forWriter) then Received(None, wakes[0].packets)
    else Recv(wakes[0].packets, forWriter, wakes[1..])
  }

  class Inbox {
    var packets: seq<Packet>

    constructor ()
      ensures packets == []
    {
      packets := [];
    }

    method Push(p: Packet)
      modifies this
      ensures packets == old(packets) + [p]
    {
      packets := packets + [p];
    }

    /** `iter().position(predicate)`. */
    method Position(forWriter: bool) returns (i: nat)
      ensures i == FirstMatch(packets, forWriter)
    {
      i := 0;
      while i < |packets| && !Wants(forWriter, packets[i])
        invariant i <= |packets|
        invariant forall j :: 0 <= j < i ==> !Wants(forWriter, packets[j])
      {
        i := i + 1;
      }
    }

    method RecvMatching(forWriter: bool, wakes: seq<Wake>) returns (packet: Option<Packet>)
      modifies this
      ensures Received(packet, packets) == Recv(old(packets), forWriter, wakes)
    {
      var k := 0;
      while true
        invariant k <= |wakes|
        invariant Recv(packets, forWriter, wakes[k..]) == Recv(old(packets), forWriter, wakes)
        decreases |wakes| - k
      {
        var i := Position(forWriter);
        if i < |packets| {
          packet := Some(packets[i]);
          packets := packets[..i] + packets[i + 1..];
          return;
        }
        if k == |wakes| {
          return None;
        }
        assert wakes[k..][0] == wakes[k] && wakes[k..][1..] == wakes[k + 1..];
        packets := wakes[k].packets;
        var any := Position(forWriter);
        if wakes[k].timedOut && any == |packets| {
          return None;
        }
        k := k + 1;
      }
    }
  }

  /** The queues looked at, in order. */
  function Seen(q: seq<Packet>, wakes: seq<Wake>): (s: seq<seq<Packet>>)
    ensures |s| == 1 + |wakes|
    decreases |wakes|
  {
    [q] + if wakes == [] then [] else Seen(wakes[0].packets, wakes[1..])
  }

  /** A successful receive takes the first wanted packet of the first queue seen to hold one
      and leaves the others in order; a timed-out one takes nothing, and the queue it leaves
      held no wanted packet. */
  lemma {:induction false} RecvTakesFirstWanted(q: seq<Packet>, forWriter: bool, wakes: seq<Wake>)
    returns (k: nat)
    ensures k < |Seen(q, wakes)|
    ensures forall j :: 0 <= j < k ==> !AnyMatch(Seen(q, wakes)[j], forWriter)
    ensures var r, at := Recv(q, forWriter, wakes), Seen(q, wakes)[k];
            match r.packet
            case None => r.left == at && forall p :: p in at ==> !Wants(forWriter, p)
            case Some(p) =>
              var i := FirstMatch(at, forWriter);
              i < |at| && p == at[i] && r.left == Without(at, i)
    decreases |wakes|
  {
    if AnyMatch(q, forWriter) || wakes == [] {
      k := 0;
    } else if wakes[0].timedOut && !AnyMatch(wakes[0].packets, forWriter) {
      k := 1;
      assert Seen(q, wakes)[1] == Seen(wakes[0].packets, wakes[1..])[0];
    } else {
      var k' := RecvTakesFirstWanted(wakes[0].packets, forWriter, wakes[1..]);
      k := k' + 1;
    }
  }

  /** Nothing wanted is in the queues seen up to `k`, where the deadline has passed or a wait
      reports a timeout. */
  ghost predicate FoundNothing(q: seq<Packet>, forWriter: bool, wakes: seq<Wake>, k: nat) {
    && k <= |wakes| && (k == |wakes| || (k > 0 && wakes[k - 1].timedOut))
    && (forall j :: 0 <= j <= k ==> !AnyMatch(Seen(q, wakes)[j], forWriter))
  }

  lemma FoundNothingLater(q: seq<Packet>, forWriter: bool, wakes: seq<Wake>, k: nat)
    requires wakes != [] && k > 0
    ensures FoundNothing(q, forWriter, wakes, k) <==>
            && !AnyMatch(q, forWriter)
            && (|| FoundNothing(wakes[0].packets, forWriter, wakes[1..], k - 1)
                || (k == 1 && wakes[0].timedOut && !AnyMatch(wakes[0].packets, forWriter)))
  {
    var s, t := Seen(q, wakes), Seen(wakes[0].packets, wakes[1..]);
    assert s[0] == q && t[0] == wakes[0].packets && forall j :: 0 <= j < |t| ==> s[j + 1] == t[j];
    assert k > 1 && k <= |wakes| ==> wakes[k - 1] == wakes[1..][k - 2];
    if FoundNothing(q, forWriter, wakes, k) {
      assert forall j :: 0 <= j <= k - 1 ==> t[j] == s[j + 1];
    }
  }

  /** A receive gives up exactly if it finds nothing it wants in any queue up to its deadline, or
      up to a wait that reports a timeout. */
  lemma {:induction false} RecvGivesUpIff(q: seq<Packet>, forWriter: bool, wakes: seq<Wake>)
    ensures Recv(q, forWriter, wakes).packet.None? <==> exists k: nat :: FoundNothing(q, forWriter, wakes, k)
    decreases |wakes|
  {
    if wakes == [] {
      assert Seen(q, wakes)[0] == q;
      assert FoundNothing(q, forWriter, wakes, 0) <==> !AnyMatch(q, forWriter);
    } else {
      var q', rest := wakes[0].packets, wakes[1..];
      RecvGivesUpIff(q', forWriter, rest);
      assert !FoundNothing(q, forWriter, wakes, 0);
      if k: nat :| FoundNothing(q, forWriter, wakes, k) {
        FoundNothingLater(q, forWriter, wakes, k);
      }
      if k: nat :| FoundNothing(q', forWriter, rest, k) {
        FoundNothingLater(q, forWriter, wakes, k + 1);
      }
      FoundNothingLater(q, forWriter, wakes, 1);
    }
  }

  /** With an inbox, the steps by which either handle takes a packet are exactly successful
      receives on the queue as it stands, and a step is possible exactly when one succeeds. */
  lemma TakingIsReceiving(e: Endpoint, forWriter: bool)
    requires e.shared
    ensures CanTake(e, forWriter) <==> Recv(e.queue, forWriter, []).packet.Some?
    ensures e.writer.WWait? && CanTake(e, true) ==>
              var r := Recv(e.queue, true, []);
              TakenByWriter(e).queue == r.left && TakenByWriter(e).writer.packet == r.packet.value
    ensures e.reader.RWait? && CanTake(e, false) ==>
              var r := Recv(e.queue, false, []);
              TakenByReader(e).queue == r.left && TakenByReader(e).reader.packet == r.packet.value
  {
  }
}
