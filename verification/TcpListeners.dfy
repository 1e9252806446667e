/** Which published addresses have a listener: `ensure_tcp_listeners` looks for one by service
    id, so two services that share an id share the first one's address. */
module TcpListeners {
  import opened Base
  import opened TcpSlots
  import opened TcpRuns
  import opened VirtualNetwork

  /** A stream-free socket listens at this address and port. */
  predicate ListensAt(slots: seq<Slot>, a: Ipv4, port: nat) {
    exists i :: 0 <= i < |slots| && slots[i].port == port && slots[i].stream.None?
                && slots[i].socket.state == Listen && slots[i].socket.at == Some(a)
  }

  /** The socket listens, or last listened, at the address of the first service of its id. */
  predicate AtFirst(services: seq<VirtualService>, s: Slot) {
    Known(services, s.service) && s.socket.at == Some(services[FirstWithId(services, s.service)].addr)
  }

  ghost predicate AllAtFirst(services: seq<VirtualService>, slots: seq<Slot>) {
    forall i :: 0 <= i < |slots| ==> AtFirst(services, slots[i])
  }

  /** Sockets not yet used are closed; all others are placed. */
  predicate SlotPlaced(services: seq<VirtualService>, s: Slot) {
    AtFirst(services, s) || (Known(services, s.service) && s.socket.state == Closed)
  }

  ghost predicate Placed(services: seq<VirtualService>, slots: seq<Slot>) {
    forall i :: 0 <= i < |slots| ==> SlotPlaced(services, slots[i])
  }

  lemma {:induction false} WithListenerPlaced(services: seq<VirtualService>, slots: seq<Slot>, k: nat, port: nat)
    requires AllAtFirst(services, slots) && k < |services|
    requires FirstWithId(services, services[k].id) < k ==> HasListener(slots, services[k].id, port)
    ensures AllAtFirst(services, WithListener(slots, services[k], port))
  {
    assert FirstWithId(services, services[k].id) <= k;
    var r := WithListener(slots, services[k], port);
    forall i | 0 <= i < |r| ensures AtFirst(services, r[i]) {
      if i < |slots| {
        assert r[i] == slots[i];
      }
    }
  }

  /** The services before `k` have listeners, so those after them with an id of theirs get none. */
  ghost predicate EarlierListen(services: seq<VirtualService>, slots: seq<Slot>, k: nat) {
    forall j :: 0 <= j < k && j < |services| ==>
      HasListener(slots, services[j].id, HTTP_PORT) && HasListener(slots, services[j].id, HTTPS_PORT)
  }

  lemma {:induction false} WithListenersPlaced(services: seq<VirtualService>, slots: seq<Slot>, k: nat)
    requires k <= |services| && AllAtFirst(services, slots) && EarlierListen(services, slots, k)
    ensures AllAtFirst(services, WithListeners(slots, services[k..]))
    decreases |services| - k
  {
    if k < |services| {
      var v := services[k];
      var one := WithListener(slots, v, HTTP_PORT);
      var two := WithListener(one, v, HTTPS_PORT);
      EarlierStay(services, slots, one, k);
      EarlierStay(services, one, two, k);
      ListenerStays(one, two, v.id, HTTP_PORT);
      WithListenerPlaced(services, slots, k, HTTP_PORT);
      WithListenerPlaced(services, one, k, HTTPS_PORT);
      assert services[k..][0] == v && services[k..][1..] == services[k + 1..];
      WithListenersPlaced(services, two, k + 1);
    }
  }

  lemma EarlierStay(services: seq<VirtualService>, slots: seq<Slot>, r: seq<Slot>, k: nat)
    requires slots <= r && EarlierListen(services, slots, k)
    ensures EarlierListen(services, r, k)
  {
    forall j | 0 <= j < k && j < |services|
      ensures HasListener(r, services[j].id, HTTP_PORT) && HasListener(r, services[j].id, HTTPS_PORT)
    {
      ListenerStays(slots, r, services[j].id, HTTP_PORT);
      ListenerStays(slots, r, services[j].id, HTTPS_PORT);
    }
  }

  lemma EnsuredPlaced(services: seq<VirtualService>, slots: seq<Slot>)
    requires Placed(services, slots)
    ensures AllAtFirst(services, Ensured(services, slots))
  {
    var r := RelistenAll(services, slots);
    forall i | 0 <= i < |r| ensures AtFirst(services, r[i]) {
      assert SlotPlaced(services, slots[i]) && r[i] == Relistened(services, slots[i]);
    }
    assert services[0..] == services;
    WithListenersPlaced(services, r, 0);
  }

  lemma {:induction false} PumpPlaced(services: seq<VirtualService>, slots: seq<Slot>, next: nat, rx: seq<Rx>)
    requires |rx| == |slots| && AllAtFirst(services, slots)
    ensures AllAtFirst(services, PumpAll(slots, next, rx).slots)
  {
    if slots != [] {
      var h := PumpSlot(slots[0], next, rx[0]);
      assert AtFirst(services, slots[0]) && AtFirst(services, h.slots[0]);
      assert AllAtFirst(services, slots[1..]);
      PumpPlaced(services, slots[1..], h.next, rx[1..]);
    }
  }

  lemma PerturbedPlaced(services: seq<VirtualService>, slots: seq<Slot>, env: Env)
    requires AllAtFirst(services, slots)
    ensures AllAtFirst(services, Perturbed(slots, env))
  {
    forall i | 0 <= i < |slots| ensures AtFirst(services, Perturbed(slots, env)[i]) {
      assert AtFirst(services, slots[i]);
    }
  }

  lemma PollPlaces(services: seq<VirtualService>, st: Stack, env: Env, rx: nat -> Rx, env': Env)
    requires Placed(services, st.slots)
    ensures AllAtFirst(services, Polled(services, st, env, rx, env').slots)
  {
    EnsuredPlaced(services, st.slots);
    var e := Ensured(services, st.slots);
    PerturbedPlaced(services, e, env);
    var slots := Perturbed(e, env);
    PumpPlaced(services, slots, st.next, RxFor(slots, rx));
    PerturbedPlaced(services, PumpAll(slots, st.next, RxFor(slots, rx)).slots, env');
  }

  lemma AtFirstIsPlaced(services: seq<VirtualService>, slots: seq<Slot>)
    requires AllAtFirst(services, slots)
    ensures Placed(services, slots)
  {
    forall i | 0 <= i < |slots| ensures SlotPlaced(services, slots[i]) {
      assert AtFirst(services, slots[i]);
    }
  }

  lemma {:induction false} ClosePlaced(services: seq<VirtualService>, slots: seq<Slot>, i: nat)
    requires Placed(services, slots)
    ensures Placed(services, CloseAt(slots, i))
  {
    forall j | 0 <= j < |slots| ensures SlotPlaced(services, CloseAt(slots, i)[j]) {
      assert SlotPlaced(services, slots[j]);
    }
  }

  lemma {:induction false} RunPlaced(services: seq<VirtualService>, actions: seq<Action>)
    ensures Placed(services, Run(services, Init(services), actions).slots)
    decreases |actions|
  {
    if actions == [] {
      InitPlaced(services);
    } else {
      var k := |actions| - 1;
      RunPlaced(services, actions[..k]);
      var st := Run(services, Init(services), actions[..k]);
      match actions[k] {
        case Poll(env, rx, env') =>
          PollPlaces(services, st, env, rx, env');
          AtFirstIsPlaced(services, Polled(services, st, env, rx, env').slots);
        case Close(id) => ClosePlaced(services, st.slots, FindStream(st.slots, id));
      }
    }
  }

  ghost predicate AllKnown(services: seq<VirtualService>, slots: seq<Slot>) {
    forall i :: 0 <= i < |slots| ==> Known(services, slots[i].service)
  }

  lemma {:induction false} InitialKnown(services: seq<VirtualService>, k: nat)
    requires k <= |services|
    ensures AllKnown(services, InitialSlots(services[..k]))
    decreases k
  {
    if k > 0 {
      InitialKnown(services, k - 1);
      assert services[..k][..k - 1] == services[..k - 1];
      assert services[..k][k - 1] == services[k - 1] && Known(services, services[k - 1].id);
    }
  }

  lemma InitPlaced(services: seq<VirtualService>)
    ensures Placed(services, Init(services).slots)
  {
    InitialKnown(services, |services|);
    assert services[..|services|] == services;
    forall i | 0 <= i < |InitialSlots(services)| ensures SlotPlaced(services, InitialSlots(services)[i]) {
      assert Known(services, InitialSlots(services)[i].service);
    }
  }

  ghost predicate DistinctAddresses(services: seq<VirtualService>) {
    forall i, j :: 0 <= i < j < |services| ==> services[i].addr != services[j].addr
  }

  lemma {:induction false} ListensIff(services: seq<VirtualService>, e: seq<Slot>, j: nat, port: nat)
    requires DistinctAddresses(services) && j < |services|
    requires AllAtFirst(services, e) && HasListener(e, services[j].id, port)
    ensures ListensAt(e, services[j].addr, port) <==> FirstWithId(services, services[j].id) == j
  {
    if ListensAt(e, services[j].addr, port) {
      var i :| 0 <= i < |e| && e[i].port == port && e[i].stream.None?
               && e[i].socket.state == Listen && e[i].socket.at == Some(services[j].addr);
      assert AtFirst(services, e[i]);
      var first := FirstWithId(services, e[i].service);
      assert services[first].addr == services[j].addr;
      assert first == j;
    }
    if FirstWithId(services, services[j].id) == j {
      var i :| 0 <= i < |e| && Serves(e[i], services[j].id, port);
      assert AtFirst(services, e[i]);
    }
  }

  /** After any run, once listeners are prepared, the address of a published service has a
      free listener on both ports if no earlier service has its id, and on neither otherwise. */
  lemma AddressListensIff(services: seq<VirtualService>, actions: seq<Action>, j: nat, port: nat)
    requires DistinctAddresses(services) && j < |services| && (port == HTTP_PORT || port == HTTPS_PORT)
    ensures var e := Ensured(services, Run(services, Init(services), actions).slots);
            ListensAt(e, services[j].addr, port) <==> FirstWithId(services, services[j].id) == j
  {
    var slots := Run(services, Init(services), actions).slots;
    RunPlaced(services, actions);
    EnsuredPlaced(services, slots);
    EveryServiceListens(services, slots, j);
    ListensIff(services, Ensured(services, slots), j, port);
  }

  /** What a hostname resolves to has such a listener exactly when the service it names is the
      first with its id. */
  lemma ResolvedAddressListensIff(name: Naming, published: seq<PublishedService>, net: Network,
                                  actions: seq<Action>, h: string, i: nat, port: nat)
    requires Allocated(name, published, net.services) && Indexed(net)
    requires LastWithHostname(net.services, AsciiLower(TrimDots(h))) == Some(i)
    requires port == HTTP_PORT || port == HTTPS_PORT
    ensures i < |net.services| && ResolveHostname(net, h) == Some(net.services[i])
    ensures var e := Ensured(net.services, Run(net.services, Init(net.services), actions).slots);
            ListensAt(e, net.services[i].addr, port) <==> FirstWithId(net.services, net.services[i].id) == i
  {
    ResolvedRoutesBack(name, published, net, h);
    forall j, k | 0 <= j < k < |net.services| ensures net.services[j].addr != net.services[k].addr {
      AddressesDistinct(name, published, net, j, k);
    }
    AddressListensIff(net.services, actions, i, port);
  }
}
