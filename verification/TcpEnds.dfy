/** When a stream ends, on the socket states alone: in one slot, in a pump over all slots, in a
    poll and in every run. */
module TcpEnds {
  import opened Base
  import opened TcpEvents
  import opened TcpRuns
  import opened TcpSlots
  import opened VirtualNetwork

  /** No connection is left and nothing is left to read. */
  predicate Spent(s: Socket) {
    (s.state == Closed || s.state == TimeWait || s.state == Listen) && !s.buffered
  }

  /** The slot holds `n` when it is served: from before, or as the next number for a connection
      that has just been established. */
  predicate Holding(s: Slot, next: nat, n: nat) {
    s.stream == Some(n) || (s.stream.None? && s.socket.state == Established && n == next + 1)
  }

  /** Without an id and without a new connection a slot is left alone. */
  lemma IdleSlot(s: Slot, next: nat, rx: Rx)
    requires s.stream.None? && s.socket.state != Established
    ensures PumpSlot(s, next, rx) == Pump([s], next, [])
  {
  }

  /** What the pump reports of the slot that holds `n`, event by event. */
  lemma SlotReports(s: Slot, next: nat, rx: Rx, n: nat)
    requires Holding(s, next, n)
    ensures var p := PumpSlot(s, next, rx);
            && |p.slots| == 1 && p.next == (if s.stream.None? then n else next)
            && (Connected(n, s.service) in p.events <==> s.stream.None? && s.port == 443)
            && (forall bytes ::
                  Received(n, s.service, bytes) in p.events <==> s.port != 80 && s.socket.buffered && bytes == rx.bytes)
            && (Gone(n, s.service) in p.events <==> p.slots[0].stream.None?)
            && (forall e :: e in p.events ==> e.n == n && e.service == s.service)
  {
    var a := Assigned(s, next);
    assert a.stream == Some(n);
    var connected, received := Announced(s, next), ServedEvents(a, rx);
    var gone := if Over(Served(a, rx)) then [Gone(n, a.service)] else [];
    assert PumpSlot(s, next, rx).events == connected + received + gone;
    assert forall e :: e in connected + received + gone <==> e in connected || e in received || e in gone;
  }

  /** The slot keeps its id exactly as long as its socket is connecting, connected, closing or
      has bytes to read. */
  lemma SlotKeeps(s: Slot, next: nat, rx: Rx, n: nat)
    requires Holding(s, next, n)
    ensures var t := PumpSlot(s, next, rx).slots[0];
            && t.stream == (if Spent(t.socket) then None else Some(n))
            && (t.service, t.port) == (s.service, s.port)
            && (t.socket.epoch, t.socket.at) == (s.socket.epoch, s.socket.at)
            && (t.socket.buffered <==> s.socket.buffered && rx.more)
  {
  }

  /** What closing our side makes of a state: a connection starts to finish, an attempt or a
      listener is gone, and a side already closed stays as it is. */
  predicate ShutDown(before: State, after: State) {
    && (before == Established || before == SynReceived ==> after == FinWait1)
    && (before == CloseWait ==> after == LastAck)
    && (before == Listen || before == SynSent ==> after == Closed)
    && (before in {Closed, FinWait1, FinWait2, Closing, LastAck, TimeWait} ==> after == before)
  }

  /** The HTTPS port reads and nothing more; the HTTP port closes what it reads from. */
  lemma SlotSocket(s: Slot, next: nat, rx: Rx, n: nat)
    requires Holding(s, next, n)
    ensures var before, after := s.socket.state, PumpSlot(s, next, rx).slots[0].socket.state;
            if s.port == 80 && s.socket.buffered then ShutDown(before, after) else after == before
  {
  }

  // ---------------------------------------------------------------- in a pump

  lemma GoneIsOwn(slots: seq<Slot>, next: nat, rx: seq<Rx>, n: nat, service: string, i: nat)
    requires |rx| == |slots| && Distinct(slots) && i < |slots| && slots[i].stream == Some(n)
    requires Gone(n, service) in PumpAll(slots, next, rx).events
    ensures |PumpAll(slots, next, rx).slots| == |slots|
    ensures service == slots[i].service && PumpAll(slots, next, rx).slots[i].stream.None?
  {
    var events := PumpAll(slots, next, rx).events;
    var k :| 0 <= k < |events| && events[k] == Gone(n, service);
    var j, at := GoneFrom(slots, next, rx, k);
    SlotReports(slots[j], at, rx[j], n);
    assert i == j;
  }

  lemma GoneHadId(s: Slot, next: nat, rx: Rx, e: Event)
    requires e.Gone? && e in PumpSlot(s, next, rx).events
    ensures s.stream == Some(e.n)
  {
    if s.stream.None? && s.socket.state == Established {
      SlotReports(s, next, rx, next + 1);
      SlotKeeps(s, next, rx, next + 1);
      SlotSocket(s, next, rx, next + 1);
    } else if s.stream.Some? {
      SlotReports(s, next, rx, s.stream.value);
    }
  }

  /** The slot that reports an end held the id before, and loses it. */
  lemma {:induction false} GoneFrom(slots: seq<Slot>, next: nat, rx: seq<Rx>, k: nat) returns (i: nat, at: nat)
    requires |rx| == |slots| && k < |PumpAll(slots, next, rx).events| && PumpAll(slots, next, rx).events[k].Gone?
    ensures var p := PumpAll(slots, next, rx);
            && i < |slots| == |p.slots| && slots[i].stream == Some(p.events[k].n)
            && p.slots[i] == PumpSlot(slots[i], at, rx[i]).slots[0]
            && p.events[k] in PumpSlot(slots[i], at, rx[i]).events
    decreases |slots|
  {
    var h := PumpSlot(slots[0], next, rx[0]);
    var t := PumpAll(slots[1..], h.next, rx[1..]);
    assert PumpAll(slots, next, rx) == Append(h, t);
    PumpLength(slots[1..], h.next, rx[1..]);
    if k < |h.events| {
      i, at := 0, next;
      assert (h.events + t.events)[k] == h.events[k];
      GoneHadId(slots[0], next, rx[0], h.events[k]);
    } else {
      assert (h.events + t.events)[k] == t.events[k - |h.events|];
      i, at := GoneFrom(slots[1..], h.next, rx[1..], k - |h.events|);
      i := i + 1;
    }
  }

  /** In a pump over slots with distinct ids: the holder of `n` loses it exactly if its socket
      is then spent, and its end is reported exactly then. */
  lemma PumpEnds(slots: seq<Slot>, next: nat, rx: seq<Rx>, n: nat, i: nat)
    requires |rx| == |slots| && Distinct(slots) && i < |slots| && slots[i].stream == Some(n)
    ensures var p := PumpAll(slots, next, rx);
            && |p.slots| == |slots|
            && p.slots[i].stream == (if Spent(p.slots[i].socket) then None else Some(n))
            && forall service ::
                 Gone(n, service) in p.events <==> service == slots[i].service && Spent(p.slots[i].socket)
  {
    var at := PumpAt(slots, next, rx, i);
    SlotKeeps(slots[i], at, rx[i], n);
    SlotReports(slots[i], at, rx[i], n);
    forall service | Gone(n, service) in PumpAll(slots, next, rx).events
      ensures service == slots[i].service && PumpAll(slots, next, rx).slots[i].stream.None?
    {
      GoneIsOwn(slots, next, rx, n, service, i);
    }
  }

  // ---------------------------------------------------------------- in a poll

  /** What the pump makes of a socket that the interface leaves like this is spent. */
  predicate EndsFrom(port: nat, v: View, rx: Rx) {
    && !(v.buffered && rx.more)
    && (v.state == Closed || v.state == TimeWait || v.state == Listen
        || (port == 80 && v.buffered && v.state == SynSent))
  }

  lemma SpentIff(s: Slot, next: nat, rx: Rx, n: nat)
    requires Holding(s, next, n)
    ensures Spent(PumpSlot(s, next, rx).slots[0].socket) <==>
            EndsFrom(s.port, View(s.socket.state, s.socket.buffered), rx)
  {
    SlotKeeps(s, next, rx, n);
    SlotSocket(s, next, rx, n);
  }

  lemma DistinctAtPump(services: seq<VirtualService>, st: Stack, env: Env)
    requires Inv(st)
    ensures Distinct(AtPump(services, st, env))
  {
    var e := Ensured(services, st.slots);
    EnsuredStreams(services, st.slots);
    SameStreamsKeep(st.slots, e, st.next);
    SameStreamsKeep(e, Perturbed(e, env), st.next);
  }

  lemma HolderAtPump(services: seq<VirtualService>, st: Stack, env: Env, i: nat)
    requires i < |st.slots|
    ensures var slots := AtPump(services, st, env);
            && i < |slots| && (slots[i].service, slots[i].port) == (st.slots[i].service, st.slots[i].port)
            && slots[i].stream == st.slots[i].stream
            && View(slots[i].socket.state, slots[i].socket.buffered) == env(i)
  {
    EnsuredAt(services, st.slots, i);
  }

  /** The events of one poll. */
  function Reported(services: seq<VirtualService>, st: Stack, env: Env, rx: nat -> Rx): seq<Event> {
    var slots := AtPump(services, st, env);
    PumpAll(slots, st.next, RxFor(slots, rx)).events
  }

  /** The holder of `n` loses it in a poll exactly if the first interface poll left its socket
      closed or listening with at most what one read takes; exactly then its end is reported. */
  lemma PollEnds(services: seq<VirtualService>, st: Stack, env: Env, rx: nat -> Rx, env': Env, n: nat, i: nat)
    requires Inv(st) && i < |st.slots| && st.slots[i].stream == Some(n)
    ensures var st' := Polled(services, st, env, rx, env');
            var ends := EndsFrom(st.slots[i].port, env(i), rx(i));
            && st'.history == st.history + Reported(services, st, env, rx)
            && i < |st'.slots| && st'.slots[i].stream == (if ends then None else Some(n))
            && forall service ::
                 Gone(n, service) in Reported(services, st, env, rx) <==> service == st.slots[i].service && ends
  {
    var slots := AtPump(services, st, env);
    var r := RxFor(slots, rx);
    DistinctAtPump(services, st, env);
    HolderAtPump(services, st, env, i);
    PumpEnds(slots, st.next, r, n, i);
    var at := PumpAt(slots, st.next, r, i);
    SpentIff(slots[i], at, rx(i), n);
    assert Perturbed(PumpAll(slots, st.next, r).slots, env')[i].stream == PumpAll(slots, st.next, r).slots[i].stream;
  }

  // ---------------------------------------------------------------- in a run

  /** The ways an id can be lost in a step: the phone closes it, or a poll finds its socket
      spent. */
  predicate Loses(a: Action, port: nat, i: nat, n: nat) {
    match a
    case Poll(env, rx, _) => EndsFrom(port, env(i), rx(i))
    case Close(id) => id == StreamId(n)
  }

  lemma ClosedElsewhere(st: Stack, id: string, n: nat, i: nat)
    requires Distinct(st.slots) && i < |st.slots| && st.slots[i].stream == Some(n)
    ensures var slots := CloseAt(st.slots, FindStream(st.slots, id));
            |slots| == |st.slots| && slots[i].stream == (if id == StreamId(n) then None else Some(n))
  {
    var f := FindStream(st.slots, id);
    if f < |st.slots| && id == StreamId(n) {
      StreamIdInjective(st.slots[f].stream.value, n);
      assert f == i;
    }
  }

  /** Closing a live id closes our side of its connection and frees its slot; the other slots,
      and with an unknown id all of them, stay as they are. */
  lemma CloseEnds(slots: seq<Slot>, id: string, i: nat)
    requires Distinct(slots) && i < |slots|
    ensures var t := CloseAt(slots, FindStream(slots, id));
            && |t| == |slots|
            && (if slots[i].stream.Some? && StreamId(slots[i].stream.value) == id then
                  && t[i].stream.None? && ShutDown(slots[i].socket.state, t[i].socket.state)
                  && t[i] == slots[i].(stream := None, socket := slots[i].socket.(state := t[i].socket.state))
                else t[i] == slots[i])
  {
    var f := FindStream(slots, id);
    if f < |slots| && slots[i].stream.Some? && StreamId(slots[i].stream.value) == id {
      StreamIdInjective(slots[f].stream.value, slots[i].stream.value);
      assert f == i;
    }
  }

  /** In any run: a live id is lost in a step exactly if the phone closes it or the poll finds
      its socket spent, and the step reports its end exactly in the second case.  It never
      reports the end of an id it keeps. */
  lemma IdsLostIff(services: seq<VirtualService>, actions: seq<Action>, k: nat, n: nat, i: nat)
    requires k < |actions|
    requires var st := RunTo(services, actions, k); i < |st.slots| && st.slots[i].stream == Some(n)
    ensures var st, st' := RunTo(services, actions, k), RunTo(services, actions, k + 1);
            && i < |st'.slots|
            && st'.slots[i].stream == (if Loses(actions[k], st.slots[i].port, i, n) then None else Some(n))
            && st.history <= st'.history
            && forall service ::
                 Gone(n, service) in st'.history[|st.history|..] <==>
                 service == st.slots[i].service && actions[k].Poll? && Loses(actions[k], st.slots[i].port, i, n)
  {
    var st := RunTo(services, actions, k);
    RunToNext(services, actions, k);
    RunKeepsInv(services, actions[..k]);
    match actions[k] {
      case Poll(env, rx, env') =>
        PollEnds(services, st, env, rx, env', n, i);
        var h := st.history + Reported(services, st, env, rx);
        assert h[|st.history|..] == Reported(services, st, env, rx);
      case Close(id) => ClosedElsewhere(st, id, n, i);
    }
  }
}
