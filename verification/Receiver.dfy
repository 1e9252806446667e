/** The receiving half of a UDP session: `recv_seq`, `pending_read` and
    `pending_packets`, and the lock section of `handle_data_packet`. */
module Receiver {
  import opened Base
  import opened PacketCodec

  /** `next` is `recv_seq`, `ready` is `pending_read`, `early` is `pending_packets`. */
  datatype Recv = Recv(next: nat, ready: seq<byte>, early: map<nat, seq<byte>>)

  const FRESH := Recv(0, [], map[])

  /** Moves buffered packets that have become contiguous into `ready`. */
  function Drained(r: Recv): Recv
    decreases |r.early|
  {
    if r.next in r.early then
      Drained(Recv(r.next + 1, r.ready + r.early[r.next], r.early - {r.next}))
    else r
  }

  /** The state after one data packet with sequence number `s` and plaintext `p`. */
  function Stored(r: Recv, s: nat, p: seq<byte>): Recv {
    if s < r.next then r
    else if s > r.next then
      if s in r.early then r else r.(early := r.early[s := p])
    else Drained(Recv(r.next + 1, r.ready + p, r.early))
  }

  /** How one attempt of `write` went: its send failed, or its `wait_for_ack` ended this way. */
  datatype Attempt = SendFailed | Acked | TimedOut | Failed

  datatype WriteResult = Written(count: nat) | WriteTimedOut | WriteFailed

  /** The number of leading timeouts, at most `limit`. */
  function Timeouts(tries: seq<Attempt>, limit: nat): (n: nat)
    requires limit <= |tries|
    ensures n <= limit
    ensures forall i :: 0 <= i < n ==> tries[i] == TimedOut
    ensures n < limit ==> tries[n] != TimedOut
  {
    if limit == 0 || tries[0] != TimedOut then 0 else 1 + Timeouts(tries[1..], limit - 1)
  }

  /** The fields of `SessionState`, which both handles of a stream update in place. */
  class SessionState {
    var sendSeq: nat
    var recvSeq: nat
    var pendingRead: seq<byte>
    var pendingPackets: map<nat, seq<byte>>

    constructor ()
      ensures sendSeq == 0 && View() == FRESH
    {
      sendSeq, recvSeq, pendingRead, pendingPackets := 0, 0, [], map[];
    }

    ghost function View(): Recv
      reads this
    {
      Recv(recvSeq, pendingRead, pendingPackets)
    }

    /** The lock section of `handle_data_packet`. */
    method Store(s: nat, plaintext: seq<byte>)
      modifies this`recvSeq, this`pendingRead, this`pendingPackets
      ensures View() == Stored(old(View()), s, plaintext)
    {
      if s < recvSeq {
        return;
      }
      if s > recvSeq {
        if s !in pendingPackets {
          pendingPackets := pendingPackets[s := plaintext];
        }
        return;
      }
      pendingRead := pendingRead + plaintext;
      recvSeq := recvSeq + 1;
      while recvSeq in pendingPackets
        invariant Drained(View()) == Stored(old(View()), s, plaintext)
        decreases |pendingPackets|
      {
        var payload := pendingPackets[recvSeq];
        pendingPackets := pendingPackets - {recvSeq};
        pendingRead := pendingRead + payload;
        recvSeq := recvSeq + 1;
      }
    }

    /** The retry loop of `write`, however its attempts go: the first attempt that does not
        time out decides, there are at most five, each but a failing send puts the packet on
        the wire once, and the sequence number advances exactly on an ack. */
    method Write(bytes: seq<byte>, tries: seq<Attempt>) returns (result: WriteResult, transmissions: nat)
      requires |tries| >= RETRIES
      modifies this`sendSeq
      ensures var n := Timeouts(tries, RETRIES);
              if n == RETRIES then
                result == WriteTimedOut && transmissions == RETRIES && sendSeq == old(sendSeq)
              else if tries[n] == Acked then
                && result == Written(Min(|bytes|, MAX_PAYLOAD_LEN))
                && transmissions == n + 1 && sendSeq == old(sendSeq) + 1
              else
                && result == WriteFailed && sendSeq == old(sendSeq)
                && transmissions == (if tries[n] == SendFailed then n else n + 1)
    {
      transmissions := 0;
      while transmissions < RETRIES
        invariant transmissions <= Timeouts(tries, RETRIES)
        invariant sendSeq == old(sendSeq)
      {
        var outcome := tries[transmissions];
        if outcome == SendFailed {
          return WriteFailed, transmissions;
        }
        transmissions := transmissions + 1;
        match outcome {
          case Acked =>
            sendSeq := sendSeq + 1;
            return Written(Min(|bytes|, MAX_PAYLOAD_LEN)), transmissions;
          case TimedOut =>
          case _ => return WriteFailed, transmissions;
        }
      }
      result := WriteTimedOut;
    }

    /** `drain_pending`: fills the front of `buffer` and forgets those bytes. */
    method DrainPending(buffer: array<byte>) returns (size: nat)
      modifies this`pendingRead, buffer
      ensures size == Min(buffer.Length, |old(pendingRead)|)
      ensures buffer[..size] + pendingRead == old(pendingRead)
      ensures buffer[size..] == old(buffer[..])[size..]
    {
      size := Min(buffer.Length, |pendingRead|);
      var i := 0;
      while i < size
        invariant 0 <= i <= size
        invariant |pendingRead| == |old(pendingRead)| - i
        invariant buffer[..i] + pendingRead == old(pendingRead)
        invariant buffer[i..] == old(buffer[..])[i..]
      {
        ghost var before := buffer[..i];
        ghost var rest := pendingRead;
        buffer[i] := pendingRead[0];
        pendingRead := pendingRead[1..];
        assert buffer[..i + 1] == before + [rest[0]];
        assert rest == [rest[0]] + pendingRead;
        i := i + 1;
      }
    }
  }

  // ----------------------------------------- order and multiplicity independence

  /** One payload per sequence number. */
  type Payloads = nat -> seq<byte>

  /** The state after the packets `arrivals` (their sequence numbers) in this order. */
  function Received(arrivals: seq<nat>, payload: Payloads): Recv {
    if arrivals == [] then FRESH
    else
      var last := arrivals[|arrivals| - 1];
      Stored(Received(arrivals[..|arrivals| - 1], payload), last, payload(last))
  }

  function Prefix(payload: Payloads, n: nat): seq<byte> {
    if n == 0 then [] else Prefix(payload, n - 1) + payload(n - 1)
  }

  /** `r` is what the set of arrivals `s` determines: everything below the least
      missing number has been output in order, everything above it is buffered. */
  ghost predicate Reflects(r: Recv, s: set<nat>, payload: Payloads) {
    && r.next !in s
    && (forall i :: 0 <= i < r.next ==> i in s)
    && r.ready == Prefix(payload, r.next)
    && (forall i :: i in r.early <==> i in s && i > r.next)
    && (forall i :: i in r.early ==> r.early[i] == payload(i))
  }

  /** Between the two halves of `Stored`: `next` itself may have arrived early. */
  ghost predicate Draining(r: Recv, s: set<nat>, payload: Payloads) {
    && (forall i :: 0 <= i < r.next ==> i in s)
    && r.ready == Prefix(payload, r.next)
    && (forall i :: i in r.early <==> i in s && i >= r.next)
    && (forall i :: i in r.early ==> r.early[i] == payload(i))
  }

  lemma {:induction false} DrainedReflects(r: Recv, s: set<nat>, payload: Payloads)
    requires Draining(r, s, payload)
    ensures Reflects(Drained(r), s, payload)
    decreases |r.early|
  {
    if r.next in r.early {
      var r' := Recv(r.next + 1, r.ready + r.early[r.next], r.early - {r.next});
      assert Draining(r', s, payload);
      DrainedReflects(r', s, payload);
    }
  }

  lemma StoredReflects(r: Recv, s: set<nat>, payload: Payloads, n: nat)
    requires Reflects(r, s, payload)
    ensures Reflects(Stored(r, n, payload(n)), s + {n}, payload)
  {
    if n == r.next {
      var r' := Recv(r.next + 1, r.ready + payload(n), r.early);
      assert Draining(r', s + {n}, payload);
      DrainedReflects(r', s + {n}, payload);
    }
  }

  function Arrived(arrivals: seq<nat>): set<nat> {
    set n | n in arrivals
  }

  /** Whatever the order and repetition of the arrivals, `recv_seq` is the least
      missing number, the output is the contiguous prefix and the buffer holds
      exactly the arrivals above it. */
  lemma {:induction false} ReceivedReflects(arrivals: seq<nat>, payload: Payloads)
    ensures Reflects(Received(arrivals, payload), Arrived(arrivals), payload)
  {
    if arrivals != [] {
      var k := |arrivals| - 1;
      ReceivedReflects(arrivals[..k], payload);
      StoredReflects(Received(arrivals[..k], payload), Arrived(arrivals[..k]), payload, arrivals[k]);
      assert arrivals == arrivals[..k] + [arrivals[k]];
      assert Arrived(arrivals) == Arrived(arrivals[..k]) + {arrivals[k]};
    }
  }

  // ------------------------------------------------- conflicting payloads

  datatype Arrival = Arrival(seqNo: nat, text: seq<byte>)

  /** The state after these packets, whatever texts they carry. */
  function AfterAll(arrivals: seq<Arrival>): Recv {
    if arrivals == [] then FRESH
    else
      var last := arrivals[|arrivals| - 1];
      Stored(AfterAll(arrivals[..|arrivals| - 1]), last.seqNo, last.text)
  }

  function Numbers(arrivals: seq<Arrival>): set<nat> {
    set i | 0 <= i < |arrivals| :: arrivals[i].seqNo
  }

  predicate IsFirst(arrivals: seq<Arrival>, a: Arrival, i: nat) {
    i < |arrivals| && arrivals[i] == a && forall j :: 0 <= j < i ==> arrivals[j].seqNo != a.seqNo
  }

  /** The text of the first packet with this number. */
  function FirstText(arrivals: seq<Arrival>, n: nat): (t: seq<byte>)
    ensures n in Numbers(arrivals) ==> exists i: nat :: IsFirst(arrivals, Arrival(n, t), i)
  {
    if arrivals == [] then []
    else
      var k := |arrivals| - 1;
      if n in Numbers(arrivals[..k]) then
        var t := FirstText(arrivals[..k], n);
        assert forall i: nat :: IsFirst(arrivals[..k], Arrival(n, t), i) ==> IsFirst(arrivals, Arrival(n, t), i);
        t
      else
        assert arrivals[k].seqNo == n ==> IsFirst(arrivals, arrivals[k], k);
        arrivals[k].text
  }

  function FirstTexts(arrivals: seq<Arrival>): Payloads {
    (n: nat) => FirstText(arrivals, n)
  }

  lemma {:induction false} PrefixSame(p: Payloads, q: Payloads, n: nat)
    requires forall i :: 0 <= i < n ==> p(i) == q(i)
    ensures Prefix(p, n) == Prefix(q, n)
  {
    if n > 0 {
      PrefixSame(p, q, n - 1);
    }
  }

  lemma ReflectsSame(r: Recv, s: set<nat>, p: Payloads, q: Payloads)
    requires Reflects(r, s, p) && forall i :: i in s ==> p(i) == q(i)
    ensures Reflects(r, s, q)
  {
    PrefixSame(p, q, r.next);
  }

  /** A number that has arrived is stored no second time. */
  lemma RepeatIgnored(r: Recv, s: set<nat>, payload: Payloads, n: nat, text: seq<byte>)
    requires Reflects(r, s, payload) && n in s
    ensures Stored(r, n, text) == r
  {
  }

  /** Even if packets with the same number carry different texts, the state is what the first
      packet of each number determines; later ones change nothing. */
  lemma {:induction false} FirstArrivalCounts(arrivals: seq<Arrival>)
    ensures Reflects(AfterAll(arrivals), Numbers(arrivals), FirstTexts(arrivals))
  {
    if arrivals != [] {
      var k := |arrivals| - 1;
      var before, n := arrivals[..k], arrivals[k].seqNo;
      FirstArrivalCounts(before);
      assert Numbers(arrivals) == Numbers(before) + {n} by {
        assert forall i :: 0 <= i < k ==> before[i] == arrivals[i];
      }
      ReflectsSame(AfterAll(before), Numbers(before), FirstTexts(before), FirstTexts(arrivals));
      if n in Numbers(before) {
        RepeatIgnored(AfterAll(before), Numbers(before), FirstTexts(arrivals), n, arrivals[k].text);
        assert Numbers(arrivals) == Numbers(before);
      } else {
        StoredReflects(AfterAll(before), Numbers(before), FirstTexts(arrivals), n);
      }
    }
  }

  /** Two arrival sequences with the same set of packets leave the same state. */
  lemma OrderIndependence(a: seq<nat>, b: seq<nat>, payload: Payloads)
    requires Arrived(a) == Arrived(b)
    ensures Received(a, payload) == Received(b, payload)
  {
    ReceivedReflects(a, payload);
    ReceivedReflects(b, payload);
  }
}
