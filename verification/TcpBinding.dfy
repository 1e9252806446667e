/** When a stream id stays with the connection it was given to: exactly which states a poll
    may be entered in, for one poll and over whole runs. */
module TcpBinding {
  import opened Base
  import opened TcpSlots
  import opened TcpRuns
  import opened VirtualNetwork

  /** The stream id still belongs to the listen epoch it was given in. */
  predicate Bound(s: Slot) {
    s.stream.Some? ==> s.bound == s.socket.epoch
  }

  ghost predicate AllBound(slots: seq<Slot>) {
    forall i :: 0 <= i < |slots| ==> Bound(slots[i])
  }

  /** A slot that still has a stream id although its socket is gone. */
  predicate Dangling(services: seq<VirtualService>, s: Slot) {
    s.stream.Some? && Known(services, s.service) && !s.socket.IsOpen()
  }

  ghost predicate NoneDangling(services: seq<VirtualService>, slots: seq<Slot>) {
    forall i :: 0 <= i < |slots| ==> !Dangling(services, slots[i])
  }

  lemma {:induction false} PumpKeepsBound(slots: seq<Slot>, next: nat, rx: seq<Rx>)
    requires |rx| == |slots| && AllBound(slots)
    ensures AllBound(PumpAll(slots, next, rx).slots)
  {
    if slots != [] {
      var h := PumpSlot(slots[0], next, rx[0]);
      assert Bound(slots[0]) && Bound(h.slots[0]);
      PumpKeepsBound(slots[1..], h.next, rx[1..]);
    }
  }

  lemma PollKeepsBound(services: seq<VirtualService>, st: Stack, env: Env, rx: nat -> Rx, env': Env)
    requires AllBound(st.slots) && NoneDangling(services, st.slots)
    ensures AllBound(Polled(services, st, env, rx, env').slots)
  {
    var e := Ensured(services, st.slots);
    var slots := Perturbed(e, env);
    PumpKeepsBound(slots, st.next, RxFor(slots, rx));
  }

  /** A new connection on every socket, with bytes to read. */
  function Busy(): Env {
    (i: nat) => View(Established, true)
  }

  function Bytes(): nat -> Rx {
    (i: nat) => Rx([104, 105], true)
  }

  /** A dangling slot takes its old id to the next connection, if one arrives. */
  lemma DanglingRebinds(services: seq<VirtualService>, st: Stack, i: nat)
    requires AllBound(st.slots) && i < |st.slots| && Dangling(services, st.slots[i])
    ensures !AllBound(Polled(services, st, Busy(), Bytes(), Busy()).slots)
  {
    assert Bound(st.slots[i]);
    EnsuredAt(services, st.slots, i);
    var slots := Perturbed(Ensured(services, st.slots), Busy());
    var at := PumpAt(slots, st.next, RxFor(slots, Bytes()), i);
    var p := PumpAll(slots, st.next, RxFor(slots, Bytes()));
    assert slots[i].bound == st.slots[i].bound < slots[i].socket.epoch;
    assert p.slots[i].stream == st.slots[i].stream && p.slots[i].bound == slots[i].bound;
    assert !Bound(Perturbed(p.slots, Busy())[i]);
  }

  /** Whatever the interface does, the next poll keeps every id with its connection. */
  ghost predicate EveryPollBinds(services: seq<VirtualService>, st: Stack) {
    forall env, rx, env' :: AllBound(Polled(services, st, env, rx, env').slots)
  }

  /** A poll keeps every id with its connection, whatever the interface does to the sockets,
      if and only if no slot enters it with an id on a closed socket. */
  lemma PollBindsIff(services: seq<VirtualService>, st: Stack)
    requires AllBound(st.slots)
    ensures EveryPollBinds(services, st) <==> NoneDangling(services, st.slots)
  {
    if NoneDangling(services, st.slots) {
      forall env, rx, env' ensures AllBound(Polled(services, st, env, rx, env').slots) {
        PollKeepsBound(services, st, env, rx, env');
      }
    } else {
      var i :| 0 <= i < |st.slots| && Dangling(services, st.slots[i]);
      DanglingRebinds(services, st, i);
    }
  }

  lemma {:induction false} StepBound(services: seq<VirtualService>, st: Stack, a: Action)
    requires AllBound(st.slots) && EveryPollBinds(services, st)
    ensures AllBound(Step(services, st, a).slots)
  {
    match a {
      case Poll(env, rx, env') =>
        assert AllBound(Polled(services, st, env, rx, env').slots);
      case Close(id) => CloseKeepsBound(st.slots, FindStream(st.slots, id));
    }
  }

  /** Ids are bound where every poll so far was sure to bind them. */
  lemma {:induction false} BoundSoFar(services: seq<VirtualService>, actions: seq<Action>, k: nat)
    requires k <= |actions| && forall j :: 0 <= j < k ==> EveryPollBinds(services, RunTo(services, actions, j))
    ensures AllBound(RunTo(services, actions, k).slots)
    decreases k
  {
    if k > 0 {
      BoundSoFar(services, actions, k - 1);
      StepBound(services, RunTo(services, actions, k - 1), actions[k - 1]);
      RunToNext(services, actions, k - 1);
    }
  }

  /** They are also bound where no slot was left dangling so far. */
  lemma {:induction false} CleanIsBound(services: seq<VirtualService>, actions: seq<Action>, k: nat)
    requires k <= |actions| && forall j :: 0 <= j < k ==> NoneDangling(services, RunTo(services, actions, j).slots)
    ensures AllBound(RunTo(services, actions, k).slots)
    decreases k
  {
    if k > 0 {
      var st := RunTo(services, actions, k - 1);
      CleanIsBound(services, actions, k - 1);
      PollBindsIff(services, st);
      StepBound(services, st, actions[k - 1]);
      RunToNext(services, actions, k - 1);
    }
  }

  lemma CloseKeepsBound(slots: seq<Slot>, i: nat)
    requires AllBound(slots)
    ensures AllBound(CloseAt(slots, i))
  {
    forall j | 0 <= j < |slots| ensures Bound(CloseAt(slots, i)[j]) {
      assert Bound(slots[j]);
    }
  }

  /** Over a whole run: a poll at any point of it, whatever the interface does then, keeps
      every id with its connection, if and only if at no point of the run a slot has an id on
      a closed socket. */
  lemma {:induction false} RunBindsIff(services: seq<VirtualService>, actions: seq<Action>)
    ensures (forall k :: 0 <= k <= |actions| ==> EveryPollBinds(services, RunTo(services, actions, k))) <==>
            (forall k :: 0 <= k <= |actions| ==> NoneDangling(services, RunTo(services, actions, k).slots))
  {
    if forall k :: 0 <= k <= |actions| ==> EveryPollBinds(services, RunTo(services, actions, k)) {
      forall k | 0 <= k <= |actions| ensures NoneDangling(services, RunTo(services, actions, k).slots) {
        BoundSoFar(services, actions, k);
        PollBindsIff(services, RunTo(services, actions, k));
      }
    }
    if forall k :: 0 <= k <= |actions| ==> NoneDangling(services, RunTo(services, actions, k).slots) {
      forall k | 0 <= k <= |actions| ensures EveryPollBinds(services, RunTo(services, actions, k)) {
        CleanIsBound(services, actions, k);
        PollBindsIff(services, RunTo(services, actions, k));
      }
    }
  }

  /** The second interface poll of the call found nothing to do. */
  ghost predicate Quiet(slots: seq<Slot>, env: Env) {
    forall i :: 0 <= i < |slots| ==> env(i) == View(slots[i].socket.state, slots[i].socket.buffered)
  }

  /** The socket is closed, or the pump closes it: on the HTTP port it closes what it reads. */
  predicate ClosesInPump(s: Slot) {
    !s.socket.IsOpen() || (s.port == HTTP_PORT && (s.socket.state == Listen || s.socket.state == SynSent))
  }

  lemma SlotKeepsIdIff(s: Slot, next: nat, rx: Rx)
    ensures var t := PumpSlot(s, next, rx).slots[0];
            t.service == s.service &&
            (t.stream.Some? && !t.socket.IsOpen() <==>
             s.stream.Some? && s.socket.buffered && rx.more && ClosesInPump(s))
  {
  }

  /** Where the second interface poll changes nothing, a poll leaves an id on a closed socket
      exactly if more bytes were buffered than the pump read on a socket that was not open, or
      on one of the HTTP port that the pump closed before it was connected. */
  lemma DanglesIffUnread(services: seq<VirtualService>, st: Stack, env: Env, rx: nat -> Rx, env': Env, i: nat)
    requires var slots := Perturbed(Ensured(services, st.slots), env);
             i < |slots| && Quiet(PumpAll(slots, st.next, RxFor(slots, rx)).slots, env')
    ensures var before := Perturbed(Ensured(services, st.slots), env)[i];
            var after := Polled(services, st, env, rx, env').slots;
            i < |after| &&
            (Dangling(services, after[i]) <==>
             && Known(services, before.service) && before.stream.Some?
             && before.socket.buffered && rx(i).more && ClosesInPump(before))
  {
    var slots := Perturbed(Ensured(services, st.slots), env);
    var p := PumpAll(slots, st.next, RxFor(slots, rx));
    var at := PumpAt(slots, st.next, RxFor(slots, rx), i);
    SlotKeepsIdIff(slots[i], at, rx(i));
    assert Perturbed(p.slots, env')[i].stream == p.slots[i].stream;
    assert Perturbed(p.slots, env')[i].service == p.slots[i].service;
    assert Perturbed(p.slots, env')[i].socket.state == p.slots[i].socket.state;
  }

  // A connection is reset while more bytes are buffered than one pump reads; the next
  // connection arrives during the following poll.  The second interface poll of each call
  // leaves the socket as it is.

  /** During poll `a` the interface leaves slot 1 like this, first and second time. */
  predicate Leaves(a: Action, first: View, second: View) {
    a.Poll? && a.env(1) == first && a.env'(1) == second
  }

  /** Slot 1 has been given id `n` and is still bound to it. */
  ghost predicate Holds(st: Stack, id: string, v: View, n: nat) {
    && |st.slots| > 1 && st.slots[1].service == id && st.slots[1].port == HTTPS_PORT
    && st.slots[1].stream == Some(n) && Bound(st.slots[1])
    && st.slots[1].socket.state == v.state && st.slots[1].socket.buffered == v.buffered
  }

  lemma Connects(services: seq<VirtualService>, a: Action) returns (n: nat)
    requires services != [] && Leaves(a, View(Established, false), View(Established, false))
    ensures var st' := Step(services, Init(services), a);
            Holds(st', services[0].id, View(Established, false), n) && Connected(n, services[0].id) in st'.history
  {
    InitialStart(services);
    var s := Changed(Relistened(services, Init(services).slots[1]), a.env(1));
    var at := PollAt(services, Init(services), a.env, a.rx, a.env', 1);
    n := at + 1;
    assert PumpSlot(s, at, a.rx(1)).events[0] == Connected(n, services[0].id);
  }

  lemma ClosesUnread(services: seq<VirtualService>, st: Stack, a: Action, id: string, n: nat)
    requires Holds(st, id, View(Established, false), n)
    requires Leaves(a, View(Closed, true), View(Closed, true)) && a.rx(1).more
    ensures var st' := Step(services, st, a); Holds(st', id, View(Closed, true), n) && st.history <= st'.history
  {
    var at := PollAt(services, st, a.env, a.rx, a.env', 1);
  }

  lemma ReadsNext(services: seq<VirtualService>, st: Stack, a: Action, id: string, n: nat)
    requires Known(services, id) && Holds(st, id, View(Closed, true), n)
    requires a.Poll? && Leaves(a, View(Established, true), View(Established, a.rx(1).more))
    ensures var st' := Step(services, st, a);
            && |st'.slots| > 1 && st'.slots[1].stream == Some(n) && !Bound(st'.slots[1])
            && Received(n, id, a.rx(1).bytes) in st'.history && st.history <= st'.history
  {
    var s := Changed(Relistened(services, st.slots[1]), a.env(1));
    var at := PollAt(services, st, a.env, a.rx, a.env', 1);
    assert PumpSlot(s, at, a.rx(1)).events[0] == Received(n, id, a.rx(1).bytes);
  }

  /** With sockets that may change in any way during an interface poll the failure happens, for
      any published services and whatever happens to the other sockets: a connection is
      announced and closes with unread bytes, which leaves its id on a closed socket, and bytes
      of the next connection are reported under that id. */
  lemma SecondConnectionUnderOldId(services: seq<VirtualService>, a: Action, b: Action, c: Action)
    requires services != [] && Leaves(a, View(Established, false), View(Established, false))
    requires Leaves(b, View(Closed, true), View(Closed, true)) && b.rx(1).more
    requires c.Poll? && Leaves(c, View(Established, true), View(Established, c.rx(1).more))
    ensures !NoneDangling(services, Run(services, Init(services), [a, b]).slots)
    ensures var st := Run(services, Init(services), [a, b, c]);
            && |st.slots| > 1 && st.slots[1].stream.Some? && !Bound(st.slots[1])
            && Connected(st.slots[1].stream.value, services[0].id) in st.history
            && Received(st.slots[1].stream.value, services[0].id, c.rx(1).bytes) in st.history
  {
    var id := services[0].id;
    var n := Connects(services, a);
    RunThree(services, a, b, c);
    var one, two := Run(services, Init(services), [a]), Run(services, Init(services), [a, b]);
    ClosesUnread(services, one, b, id, n);
    assert Known(services, id);
    ReadsNext(services, two, c, id, n);
  }

  lemma RunThree(services: seq<VirtualService>, a: Action, b: Action, c: Action)
    ensures var init := Init(services);
            && Run(services, init, [a]) == Step(services, init, a)
            && Run(services, init, [a, b]) == Step(services, Run(services, init, [a]), b)
            && Run(services, init, [a, b, c]) == Step(services, Run(services, init, [a, b]), c)
  {
    var init := Init(services);
    RunSnoc(services, init, [], a);
    RunSnoc(services, init, [a], b);
    RunSnoc(services, init, [a, b], c);
    assert [] + [a] == [a] && [a] + [b] == [a, b] && [a, b] + [c] == [a, b, c];
  }
}
