/** The TCP slots of the virtual network stack.  A slot owns one smoltcp socket; sockets
    change only in `iface.poll` (any way at all), `listen`, `close` and receiving. */
module TcpSlots {
  import opened Base
  import opened VirtualNetwork

  const HTTP_PORT := 80
  const HTTPS_PORT := 443

  datatype State =
    | Closed | Listen | SynSent | SynReceived | Established | FinWait1 | FinWait2
    | CloseWait | Closing | LastAck | TimeWait

  /** `epoch` counts the calls of `listen`: one value spans at most one connection.  `at` is
      the address of the last of them. */
  datatype Socket = Socket(state: State, buffered: bool, epoch: nat, at: Option<Ipv4>) {
    predicate IsOpen() { state != Closed && state != TimeWait }
    predicate IsActive() { state != Closed && state != TimeWait && state != Listen }
    predicate MayRecv() { buffered || state == Established || state == FinWait1 || state == FinWait2 }

    function Listening(a: Ipv4): Socket { Socket(Listen, false, epoch + 1, Some(a)) }

    function ClosedByUs(): Socket {
      match state
      case Listen => this.(state := Closed)
      case SynSent => this.(state := Closed)
      case SynReceived => this.(state := FinWait1)
      case Established => this.(state := FinWait1)
      case CloseWait => this.(state := LastAck)
      case _ => this
    }
  }

  const UNUSED := Socket(Closed, false, 0, None)

  /** `stream` is the number n of the id "tcp-n"; `bound` the epoch it was given in. */
  datatype Slot = Slot(service: string, port: nat, socket: Socket, stream: Option<nat>, bound: nat)

  function StreamId(n: nat): string {
    "tcp-" + Decimal(n)
  }

  lemma StreamIdInjective(a: nat, b: nat)
    requires StreamId(a) == StreamId(b)
    ensures a == b
  {
    assert StreamId(a)[4..] == Decimal(a) && StreamId(b)[4..] == Decimal(b);
    DecimalInjective(a, b);
  }

  datatype Event =
    | Connected(n: nat, service: string)
    | Received(n: nat, service: string, bytes: seq<byte>)
    | Gone(n: nat, service: string)

  // ------------------------------------------------------------- ensure_tcp_listeners

  /** Position of the first service with this id, or the length. */
  function FirstWithId(services: seq<VirtualService>, id: string): (i: nat)
    ensures i <= |services|
    ensures i < |services| ==> services[i].id == id
    ensures forall j :: 0 <= j < i ==> services[j].id != id
  {
    if services == [] || services[0].id == id then 0 else 1 + FirstWithId(services[1..], id)
  }

  predicate Known(services: seq<VirtualService>, id: string) {
    FirstWithId(services, id) < |services|
  }

  /** A socket that is not open listens again, at the address of the first service of its id. */
  function Relistened(services: seq<VirtualService>, s: Slot): Slot {
    if Known(services, s.service) && !s.socket.IsOpen() then
      s.(socket := s.socket.Listening(services[FirstWithId(services, s.service)].addr))
    else s
  }

  function RelistenAll(services: seq<VirtualService>, slots: seq<Slot>): (r: seq<Slot>)
    ensures |r| == |slots|
    ensures forall i :: 0 <= i < |slots| ==> r[i] == Relistened(services, slots[i])
  {
    seq(|slots|, i requires 0 <= i < |slots| => Relistened(services, slots[i]))
  }

  /** As `has_listener` looks for it: by service id and port. */
  predicate Serves(s: Slot, id: string, port: nat) {
    s.service == id && s.port == port && s.stream.None? && s.socket.state == Listen
  }

  predicate HasListener(slots: seq<Slot>, id: string, port: nat) {
    exists i :: 0 <= i < |slots| && Serves(slots[i], id, port)
  }

  function NewListener(v: VirtualService, port: nat): Slot {
    Slot(v.id, port, UNUSED.Listening(v.addr), None, 0)
  }

  function WithListener(slots: seq<Slot>, v: VirtualService, port: nat): (r: seq<Slot>)
    ensures HasListener(r, v.id, port)
    ensures slots <= r
    ensures forall i :: |slots| <= i < |r| ==> r[i].stream.None?
  {
    if HasListener(slots, v.id, port) then slots
    else
      var r := slots + [NewListener(v, port)];
      assert Serves(r[|slots|], v.id, port);
      r
  }

  function WithListeners(slots: seq<Slot>, services: seq<VirtualService>): (r: seq<Slot>)
    ensures slots <= r
    ensures forall i :: |slots| <= i < |r| ==> r[i].stream.None?
    decreases services
  {
    if services == [] then slots
    else
      WithListeners(WithListener(WithListener(slots, services[0], HTTP_PORT), services[0], HTTPS_PORT), services[1..])
  }

  function Ensured(services: seq<VirtualService>, slots: seq<Slot>): seq<Slot> {
    WithListeners(RelistenAll(services, slots), services)
  }

  lemma ListenerStays(slots: seq<Slot>, r: seq<Slot>, id: string, port: nat)
    requires slots <= r && HasListener(slots, id, port)
    ensures HasListener(r, id, port)
  {
    var i :| 0 <= i < |slots| && Serves(slots[i], id, port);
    assert Serves(r[i], id, port);
  }

  lemma {:induction false} ListenersForAll(slots: seq<Slot>, services: seq<VirtualService>, i: nat)
    requires i < |services|
    ensures HasListener(WithListeners(slots, services), services[i].id, HTTP_PORT)
    ensures HasListener(WithListeners(slots, services), services[i].id, HTTPS_PORT)
    decreases services
  {
    var id := services[i].id;
    var one := WithListener(slots, services[0], HTTP_PORT);
    var two := WithListener(one, services[0], HTTPS_PORT);
    if i == 0 {
      ListenerStays(one, two, id, HTTP_PORT);
      ListenerStays(two, WithListeners(two, services[1..]), id, HTTP_PORT);
      ListenerStays(two, WithListeners(two, services[1..]), id, HTTPS_PORT);
    } else {
      ListenersForAll(two, services[1..], i - 1);
    }
  }

  /** After it, every published service id listens on both ports in a stream-free slot. */
  lemma EveryServiceListens(services: seq<VirtualService>, slots: seq<Slot>, i: nat)
    requires i < |services|
    ensures HasListener(Ensured(services, slots), services[i].id, HTTP_PORT)
    ensures HasListener(Ensured(services, slots), services[i].id, HTTPS_PORT)
  {
    ListenersForAll(RelistenAll(services, slots), services, i);
  }

  lemma EnsuredPrefix(services: seq<VirtualService>, slots: seq<Slot>)
    ensures RelistenAll(services, slots) <= Ensured(services, slots)
  {
  }

  /** Only closed sockets of published services are touched: they listen at the address of the
      first service of their id, and the slot keeps its stream, service and port. */
  lemma OnlyClosedRelisten(services: seq<VirtualService>, slots: seq<Slot>, i: nat, v: nat)
    requires i < |slots| && v < |services| && services[v].id == slots[i].service
    requires forall u :: 0 <= u < v ==> services[u].id != slots[i].service
    ensures var e := Ensured(services, slots);
            i < |e| &&
            if slots[i].socket.state == Closed || slots[i].socket.state == TimeWait then
              && e[i].socket.state == Listen && !e[i].socket.buffered && e[i].socket.at == Some(services[v].addr)
              && (e[i].service, e[i].port, e[i].stream) == (slots[i].service, slots[i].port, slots[i].stream)
            else e[i] == slots[i]
  {
    EnsuredPrefix(services, slots);
    assert FirstWithId(services, slots[i].service) == v;
  }

  lemma {:induction false} NothingMissing(slots: seq<Slot>, services: seq<VirtualService>)
    requires forall v :: 0 <= v < |services| ==>
               HasListener(slots, services[v].id, HTTP_PORT) && HasListener(slots, services[v].id, HTTPS_PORT)
    ensures WithListeners(slots, services) == slots
    decreases services
  {
    if services != [] {
      NothingMissing(slots, services[1..]);
    }
  }

  lemma {:induction false} AddedListen(slots: seq<Slot>, services: seq<VirtualService>, i: nat)
    requires |slots| <= i < |WithListeners(slots, services)|
    ensures WithListeners(slots, services)[i].socket.state == Listen
    decreases services
  {
    if services != [] {
      var one := WithListener(slots, services[0], HTTP_PORT);
      var two := WithListener(one, services[0], HTTPS_PORT);
      if i < |two| {
        assert two <= WithListeners(two, services[1..]);
      } else {
        AddedListen(two, services[1..], i);
      }
    }
  }

  /** A second call finds nothing to do: a listener is added only where one is missing. */
  lemma EnsuredOnce(services: seq<VirtualService>, slots: seq<Slot>)
    ensures Ensured(services, Ensured(services, slots)) == Ensured(services, slots)
  {
    var e := Ensured(services, slots);
    EnsuredPrefix(services, slots);
    forall i | 0 <= i < |e| ensures Relistened(services, e[i]) == e[i] {
      if i < |slots| {
        assert e[i] == RelistenAll(services, slots)[i] == Relistened(services, slots[i]);
      } else {
        AddedListen(RelistenAll(services, slots), services, i);
      }
    }
    assert RelistenAll(services, e) == e;
    forall v | 0 <= v < |services|
      ensures HasListener(e, services[v].id, HTTP_PORT) && HasListener(e, services[v].id, HTTPS_PORT)
    {
      EveryServiceListens(services, slots, v);
    }
    NothingMissing(e, services);
  }

  // ------------------------------------------------------------------------ pump_tcp

  /** What receiving on a slot's socket yields: the bytes, and whether more is buffered. */
  datatype Rx = Rx(bytes: seq<byte>, more: bool)

  datatype Pump = Pump(slots: seq<Slot>, next: nat, events: seq<Event>)

  /** A new connection takes the next number. */
  function Assigned(s: Slot, next: nat): Slot {
    if s.socket.state == Established && s.stream.None? then
      s.(stream := Some(next + 1), bound := s.socket.epoch)
    else s
  }

  function Announced(s: Slot, next: nat): seq<Event> {
    if s.socket.state == Established && s.stream.None? && s.port == HTTPS_PORT then
      [Connected(next + 1, s.service)]
    else []
  }

  /** Redirect on the HTTP port, receive on the HTTPS port. */
  function Served(s: Slot, rx: Rx): Socket {
    if !s.socket.buffered then s.socket
    else if s.port == HTTP_PORT then s.socket.(buffered := rx.more).ClosedByUs()
    else s.socket.(buffered := rx.more)
  }

  function ServedEvents(s: Slot, rx: Rx): seq<Event>
    requires s.stream.Some?
  {
    if s.port != HTTP_PORT && s.socket.buffered then [Received(s.stream.value, s.service, rx.bytes)] else []
  }

  predicate Over(s: Socket) {
    !s.IsActive() && !s.MayRecv()
  }

  function PumpSlot(s: Slot, next: nat, rx: Rx): Pump {
    var a := Assigned(s, next);
    var next' := if a.stream != s.stream then next + 1 else next;
    if a.stream.None? then Pump([a], next', [])
    else
      var socket := Served(a, rx);
      var over := Over(socket);
      Pump([a.(socket := socket, stream := if over then None else a.stream)], next',
           Announced(s, next) + ServedEvents(a, rx)
           + (if over then [Gone(a.stream.value, a.service)] else []))
  }

  function Append(p: Pump, q: Pump): Pump {
    Pump(p.slots + q.slots, q.next, p.events + q.events)
  }

  function PumpAll(slots: seq<Slot>, next: nat, rx: seq<Rx>): Pump
    requires |rx| == |slots|
  {
    if slots == [] then Pump([], next, [])
    else
      var p := PumpSlot(slots[0], next, rx[0]);
      Append(p, PumpAll(slots[1..], p.next, rx[1..]))
  }

  /** First match by id text, as `send_tcp` and `close_tcp` look a stream up. */
  function FindStream(slots: seq<Slot>, id: string): (i: nat)
    ensures i <= |slots|
    ensures i < |slots| ==> slots[i].stream.Some? && StreamId(slots[i].stream.value) == id
    ensures forall j :: 0 <= j < i ==> !(slots[j].stream.Some? && StreamId(slots[j].stream.value) == id)
  {
    if slots == [] then 0
    else if slots[0].stream.Some? && StreamId(slots[0].stream.value) == id then 0
    else 1 + FindStream(slots[1..], id)
  }

  // ---------------------------------------------------------------------- poll

  /** What `iface.poll` leaves of each socket: any state and buffer content. */
  datatype View = View(state: State, buffered: bool)

  type Env = nat -> View

  function Changed(s: Slot, v: View): Slot {
    s.(socket := s.socket.(state := v.state, buffered := v.buffered))
  }

  function Perturbed(slots: seq<Slot>, env: Env): (r: seq<Slot>)
    ensures |r| == |slots|
    ensures forall i :: 0 <= i < |slots| ==> r[i] == Changed(slots[i], env(i))
  {
    seq(|slots|, i requires 0 <= i < |slots| => Changed(slots[i], env(i)))
  }

  datatype Stack = Stack(slots: seq<Slot>, next: nat, history: seq<Event>)

  function RxFor(slots: seq<Slot>, rx: nat -> Rx): (s: seq<Rx>)
    ensures |s| == |slots|
    ensures forall i :: 0 <= i < |s| ==> s[i] == rx(i)
  {
    seq(|slots|, i requires 0 <= i < |slots| => rx(i))
  }

  /** `poll`: listeners, interface, pump, interface. */
  function Polled(services: seq<VirtualService>, st: Stack, env: Env, rx: nat -> Rx, env': Env): Stack {
    var slots := Perturbed(Ensured(services, st.slots), env);
    var p := PumpAll(slots, st.next, RxFor(slots, rx));
    Stack(Perturbed(p.slots, env'), p.next, st.history + p.events)
  }

  /** Two slots per service, with sockets that have never been used. */
  function InitialSlots(services: seq<VirtualService>): (r: seq<Slot>)
    ensures forall i :: 0 <= i < |r| ==>
              r[i].stream.None? && r[i].socket == UNUSED && (r[i].port == HTTP_PORT || r[i].port == HTTPS_PORT)
  {
    if services == [] then []
    else
      var v := services[|services| - 1];
      InitialSlots(services[..|services| - 1])
      + [Slot(v.id, HTTP_PORT, UNUSED, None, 0), Slot(v.id, HTTPS_PORT, UNUSED, None, 0)]
  }

  // ---------------------------------------------------------------- the class

  class MediumStack {
    const services: seq<VirtualService>
    var slots: seq<Slot>
    var nextStream: nat

    constructor (services: seq<VirtualService>)
      ensures this.services == services && nextStream == 0 && slots == InitialSlots(services)
    {
      this.services := services;
      var initial: seq<Slot> := [];
      for i := 0 to |services|
        invariant initial == InitialSlots(services[..i])
      {
        var v := services[i];
        assert services[..i + 1][..i] == services[..i];
        initial := initial + [Slot(v.id, HTTP_PORT, UNUSED, None, 0), Slot(v.id, HTTPS_PORT, UNUSED, None, 0)];
      }
      assert services[..|services|] == services;
      slots := initial;
      nextStream := 0;
    }

    /** `poll`; what the interface does to the sockets comes from outside. */
    method Poll(env: Env, rx: nat -> Rx, env': Env) returns (events: seq<Event>)
      modifies this
      ensures Stack(slots, nextStream, events) ==
              Polled(services, Stack(old(slots), old(nextStream), []), env, rx, env')
    {
      EnsureListeners();
      slots := Perturbed(slots, env);
      events := PumpTcp(RxFor(slots, rx));
      slots := Perturbed(slots, env');
      assert [] + events == events;
    }

    method EnsureListeners()
      modifies this`slots
      ensures slots == Ensured(services, old(slots))
    {
      ghost var before := slots;
      var i := 0;
      while i < |slots|
        invariant i <= |slots| == |before|
        invariant forall k :: 0 <= k < i ==> slots[k] == Relistened(services, before[k])
        invariant forall k :: i <= k < |slots| ==> slots[k] == before[k]
      {
        var first := FirstWithId(services, slots[i].service);
        if first < |services| && !slots[i].socket.IsOpen() {
          slots := slots[i := slots[i].(socket := slots[i].socket.Listening(services[first].addr))];
        }
        i := i + 1;
      }
      assert slots == RelistenAll(services, before);
      var j := 0;
      while j < |services|
        invariant j <= |services|
        invariant WithListeners(slots, services[j..]) == Ensured(services, before)
      {
        AddIfMissing(services[j], HTTP_PORT);
        AddIfMissing(services[j], HTTPS_PORT);
        assert services[j..][1..] == services[j + 1..];
        j := j + 1;
      }
    }

    method AddIfMissing(v: VirtualService, port: nat)
      modifies this`slots
      ensures slots == WithListener(old(slots), v, port)
    {
      if !(exists i :: 0 <= i < |slots| && Serves(slots[i], v.id, port)) {
        slots := slots + [NewListener(v, port)];
      }
    }

    /** One iteration of the pump loop. */
    method PumpOne(i: nat, rx: Rx) returns (events: seq<Event>)
      requires i < |slots|
      modifies this`slots, this`nextStream
      ensures var p := PumpSlot(old(slots)[i], old(nextStream), rx);
              && |p.slots| == 1 && slots == old(slots)[i := p.slots[0]]
              && nextStream == p.next && events == p.events
    {
      events := [];
      var slot := slots[i];
      if slot.socket.state == Established && slot.stream.None? {
        nextStream := nextStream + 1;
        slot := slot.(stream := Some(nextStream), bound := slot.socket.epoch);
        if slot.port == HTTPS_PORT {
          events := events + [Connected(nextStream, slot.service)];
        }
      }
      if slot.stream.None? {
        return;
      }
      var n := slot.stream.value;
      if slot.socket.buffered {
        if slot.port == HTTP_PORT {
          slot := slot.(socket := slot.socket.(buffered := rx.more).ClosedByUs());
        } else {
          slot := slot.(socket := slot.socket.(buffered := rx.more));
          events := events + [Received(n, slot.service, rx.bytes)];
        }
      }
      if !slot.socket.IsActive() && !slot.socket.MayRecv() {
        events := events + [Gone(n, slot.service)];
        slot := slot.(stream := None);
      }
      slots := slots[i := slot];
    }

    method PumpTcp(rx: seq<Rx>) returns (events: seq<Event>)
      requires |rx| == |slots|
      modifies this`slots, this`nextStream
      ensures Pump(slots, nextStream, events) == PumpAll(old(slots), old(nextStream), rx)
    {
      events := [];
      ghost var before, next0 := slots, nextStream;
      var i := 0;
      while i < |slots|
        invariant i <= |slots| == |before| == |rx|
        invariant slots[i..] == before[i..]
        invariant Append(Pump(slots[..i], nextStream, events), PumpAll(before[i..], nextStream, rx[i..]))
                  == PumpAll(before, next0, rx)
      {
        ghost var p := PumpSlot(slots[i], nextStream, rx[i]);
        ghost var done := Pump(slots[..i], nextStream, events);
        assert before[i..][0] == slots[i] && before[i..][1..] == before[i + 1..];
        assert rx[i..][0] == rx[i] && rx[i..][1..] == rx[i + 1..];
        AppendAssoc(done, p, PumpAll(before[i + 1..], p.next, rx[i + 1..]));
        var more := PumpOne(i, rx[i]);
        events := events + more;
        assert slots[..i + 1] == done.slots + p.slots;
        i := i + 1;
      }
      assert slots[..i] == slots;
    }

    method CloseTcp(id: string) returns (ok: bool)
      modifies this`slots
      ensures var i := FindStream(old(slots), id);
              ok == (i < |old(slots)|) && slots == CloseAt(old(slots), i)
    {
      var i := FindStream(slots, id);
      ok := i < |slots|;
      if ok {
        slots := slots[i := slots[i].(socket := slots[i].socket.ClosedByUs(), stream := None)];
      }
    }
  }

  lemma AppendAssoc(a: Pump, b: Pump, c: Pump)
    ensures Append(a, Append(b, c)) == Append(Append(a, b), c)
  {
    assert a.slots + (b.slots + c.slots) == (a.slots + b.slots) + c.slots;
    assert a.events + (b.events + c.events) == (a.events + b.events) + c.events;
  }

  function CloseAt(slots: seq<Slot>, i: nat): seq<Slot> {
    if i < |slots| then slots[i := slots[i].(socket := slots[i].socket.ClosedByUs(), stream := None)] else slots
  }

  // ------------------------------------------------------------ what one pump keeps

  /** A slot keeps its stream, loses it, or gets a number above all earlier ones. */
  ghost predicate Fate(before: Slot, after: Slot, next: nat, next': nat) {
    after.stream == None || after.stream == before.stream
    || (before.stream.None? && next < after.stream.value <= next')
  }

  ghost predicate FreshEvents(events: seq<Event>, next: nat, next': nat) {
    && (forall k :: 0 <= k < |events| && events[k].Connected? ==> next < events[k].n <= next')
    && (forall k, l :: 0 <= k < l < |events| && events[k].Connected? && events[l].Connected? ==>
          events[k].n < events[l].n)
  }

  ghost predicate FreshNumbers(slots: seq<Slot>, next: nat) {
    forall i, j :: 0 <= i < j < |slots| && slots[i].stream.Some? && slots[j].stream.Some?
                   && slots[i].stream.value > next && slots[j].stream.value > next ==>
      slots[i].stream.value < slots[j].stream.value
  }

  ghost predicate LiveBelow(slots: seq<Slot>, next: nat) {
    forall i :: 0 <= i < |slots| && slots[i].stream.Some? ==> slots[i].stream.value <= next
  }

  lemma PumpSlotFate(s: Slot, next: nat, rx: Rx)
    requires s.stream.Some? ==> s.stream.value <= next
    ensures var p := PumpSlot(s, next, rx);
            && |p.slots| == 1 && next <= p.next <= next + 1
            && Fate(s, p.slots[0], next, p.next)
            && FreshEvents(p.events, next, p.next)
            && (forall k :: 0 <= k < |p.events| && p.events[k].Connected? ==>
                  s.port == HTTPS_PORT && p.events[k].service == s.service && p.next == next + 1)
  {
  }

  lemma {:induction false} PumpAllFate(slots: seq<Slot>, next: nat, rx: seq<Rx>)
    requires |rx| == |slots| && LiveBelow(slots, next)
    ensures var p := PumpAll(slots, next, rx);
            && |p.slots| == |slots| && next <= p.next
            && (forall i :: 0 <= i < |slots| ==> Fate(slots[i], p.slots[i], next, p.next))
            && FreshNumbers(p.slots, next)
            && FreshEvents(p.events, next, p.next)
  {
    if slots != [] {
      var h := PumpSlot(slots[0], next, rx[0]);
      PumpSlotFate(slots[0], next, rx[0]);
      assert LiveBelow(slots[1..], h.next);
      PumpAllFate(slots[1..], h.next, rx[1..]);
      var t := PumpAll(slots[1..], h.next, rx[1..]);
      forall i | 0 <= i < |slots| ensures Fate(slots[i], (h.slots + t.slots)[i], next, t.next) {
        if i > 0 {
          assert Fate(slots[1..][i - 1], t.slots[i - 1], h.next, t.next);
        }
      }
      JoinFresh(h, t, slots, next);
    }
  }

  /** The first slot's new number and event come before those of the rest. */
  lemma JoinFresh(h: Pump, t: Pump, slots: seq<Slot>, next: nat)
    requires |h.slots| == 1 && |slots| == 1 + |t.slots| && LiveBelow(slots, next) && next <= h.next <= t.next
    requires h.slots[0].stream.Some? ==> h.slots[0].stream.value <= h.next
    requires forall i :: 0 <= i < |t.slots| ==> Fate(slots[i + 1], t.slots[i], h.next, t.next)
    requires FreshNumbers(t.slots, h.next)
    requires FreshEvents(h.events, next, h.next) && FreshEvents(t.events, h.next, t.next)
    ensures FreshNumbers(h.slots + t.slots, next) && FreshEvents(h.events + t.events, next, t.next)
  {
    var s := h.slots + t.slots;
    forall i, j | 0 <= i < j < |s| && s[i].stream.Some? && s[j].stream.Some?
                  && s[i].stream.value > next && s[j].stream.value > next
      ensures s[i].stream.value < s[j].stream.value
    {
      assert Fate(slots[j], t.slots[j - 1], h.next, t.next);
      if i > 0 {
        assert Fate(slots[i], t.slots[i - 1], h.next, t.next);
      }
    }
  }

  lemma EnsuredAt(services: seq<VirtualService>, slots: seq<Slot>, i: nat)
    requires i < |slots|
    ensures i < |Ensured(services, slots)| && Ensured(services, slots)[i] == Relistened(services, slots[i])
  {
    var r := RelistenAll(services, slots);
    assert r <= Ensured(services, slots);
  }

  /** A pump treats each slot by itself, at the number reached by then. */
  lemma {:induction false} PumpAt(slots: seq<Slot>, next: nat, rx: seq<Rx>, i: nat) returns (at: nat)
    requires |rx| == |slots| && i < |slots|
    ensures |PumpAll(slots, next, rx).slots| == |slots|
    ensures PumpAll(slots, next, rx).slots[i] == PumpSlot(slots[i], at, rx[i]).slots[0]
    ensures forall e :: e in PumpSlot(slots[i], at, rx[i]).events ==> e in PumpAll(slots, next, rx).events
  {
    var h := PumpSlot(slots[0], next, rx[0]);
    var t := PumpAll(slots[1..], h.next, rx[1..]);
    assert PumpAll(slots, next, rx) == Append(h, t);
    PumpLength(slots[1..], h.next, rx[1..]);
    if i == 0 {
      at := next;
    } else {
      at := PumpAt(slots[1..], h.next, rx[1..], i - 1);
      assert (h.slots + t.slots)[i] == t.slots[i - 1];
    }
  }

  /** What a whole poll makes of slot `i`, whatever the other slots are: relistened, changed,
      pumped at some number, changed.  What the pump reports of it is in the history. */
  lemma {:induction false} PollAt(services: seq<VirtualService>, st: Stack, env: Env, rx: nat -> Rx, env': Env, i: nat)
    returns (at: nat)
    requires i < |st.slots|
    ensures var s := Changed(Relistened(services, st.slots[i]), env(i));
            var st' := Polled(services, st, env, rx, env');
            && i < |st'.slots| && st'.slots[i] == Changed(PumpSlot(s, at, rx(i)).slots[0], env'(i))
            && (forall e :: e in PumpSlot(s, at, rx(i)).events ==> e in st'.history)
            && st.history <= st'.history
  {
    EnsuredAt(services, st.slots, i);
    var slots := Perturbed(Ensured(services, st.slots), env);
    assert slots[i] == Changed(Relistened(services, st.slots[i]), env(i));
    at := PumpAt(slots, st.next, RxFor(slots, rx), i);
  }

  /** The first service has slots 0 and 1. */
  lemma {:induction false} InitialStart(services: seq<VirtualService>)
    requires services != []
    ensures |InitialSlots(services)| >= 2
    ensures InitialSlots(services)[0] == Slot(services[0].id, HTTP_PORT, UNUSED, None, 0)
    ensures InitialSlots(services)[1] == Slot(services[0].id, HTTPS_PORT, UNUSED, None, 0)
  {
    var init := services[..|services| - 1];
    if init == [] {
      assert InitialSlots(init) == [];
    } else {
      InitialStart(init);
    }
  }

  lemma {:induction false} PumpLength(slots: seq<Slot>, next: nat, rx: seq<Rx>)
    requires |rx| == |slots|
    ensures |PumpAll(slots, next, rx).slots| == |slots|
  {
    if slots != [] {
      PumpLength(slots[1..], PumpSlot(slots[0], next, rx[0]).next, rx[1..]);
    }
  }
}
