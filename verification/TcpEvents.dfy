/** The order of the events of one stream id over whole runs: an announcement first, then
    received bytes, then at most one end, and nothing after it.  Ids of the HTTP port are never
    announced, so for them the end comes alone. */
module TcpEvents {
  import opened Base
  import opened TcpSlots
  import opened TcpRuns
  import opened VirtualNetwork

  datatype Phase = Unseen | Open | Ended | Broken

  function PhaseStep(q: Phase, e: Event, n: nat): Phase {
    if e.n != n then q
    else if q == Unseen && e.Connected? then Open
    else if q == Open && e.Received? then Open
    else if (q == Unseen || q == Open) && e.Gone? then Ended
    else Broken
  }

  /** The phase of id `n` after these events. */
  function After(q: Phase, events: seq<Event>, n: nat): Phase
    decreases |events|
  {
    if events == [] then q else After(PhaseStep(q, events[0], n), events[1..], n)
  }

  lemma {:induction false} AfterAppend(q: Phase, a: seq<Event>, b: seq<Event>, n: nat)
    ensures After(q, a + b, n) == After(After(q, a, n), b, n)
    decreases |a|
  {
    if a == [] {
      assert a + b == b;
    } else {
      AfterAppend(PhaseStep(q, a[0], n), a[1..], b, n);
      assert (a + b)[1..] == a[1..] + b;
    }
  }

  lemma {:induction false} BrokenStays(events: seq<Event>, n: nat)
    ensures After(Broken, events, n) == Broken
  {
    if events != [] {
      BrokenStays(events[1..], n);
    }
  }

  // ---------------------------------------------------------------- one pump

  predicate PortOk(s: Slot) {
    s.port == HTTP_PORT || s.port == HTTPS_PORT
  }

  ghost predicate PortsOk(slots: seq<Slot>) {
    forall i :: 0 <= i < |slots| ==> PortOk(slots[i])
  }

  /** A live id has been announced exactly on the HTTPS port. */
  function LivePhase(s: Slot): Phase {
    if s.port == HTTPS_PORT then Open else Unseen
  }

  /** The phase `q` of id `n` agrees with the slots. */
  ghost predicate Agrees(q: Phase, slots: seq<Slot>, next: nat, n: nat) {
    && q != Broken
    && (n > next ==> q == Unseen)
    && (forall i :: 0 <= i < |slots| && slots[i].stream == Some(n) ==> q == LivePhase(slots[i]))
  }

  /** What one slot does to the phase of an id: nothing unless the id is its own. */
  lemma SlotPhase(s: Slot, next: nat, rx: Rx, q: Phase, n: nat)
    requires PortOk(s) && (s.stream.Some? ==> s.stream.value <= next)
    requires q != Broken && (n > next ==> q == Unseen) && (s.stream == Some(n) ==> q == LivePhase(s))
    ensures var p := PumpSlot(s, next, rx);
            var q' := After(q, p.events, n);
            && q' != Broken && (n > p.next ==> q' == Unseen)
            && (p.slots[0].stream == Some(n) ==> q' == LivePhase(p.slots[0]))
            && (Assigned(s, next).stream != Some(n) ==> q' == q)
            && (Assigned(s, next).stream == Some(n) ==> n <= p.next)
  {
    var a := Assigned(s, next);
    if a.stream.Some? {
      var served := ServedEvents(a, rx);
      var over := if Over(Served(a, rx)) then [Gone(a.stream.value, a.service)] else [];
      AfterAppend(q, Announced(s, next) + served, over, n);
      AfterAppend(q, Announced(s, next), served, n);
    }
  }

  /** Slots that do not hold an id say nothing about it. */
  lemma {:induction false} OthersSilent(slots: seq<Slot>, next: nat, rx: seq<Rx>, q: Phase, n: nat)
    requires |rx| == |slots| && PortsOk(slots) && LiveBelow(slots, next) && n <= next && q != Broken
    requires forall i :: 0 <= i < |slots| ==> slots[i].stream != Some(n)
    ensures After(q, PumpAll(slots, next, rx).events, n) == q
    decreases |slots|
  {
    if slots != [] {
      var h := PumpSlot(slots[0], next, rx[0]);
      SlotPhase(slots[0], next, rx[0], q, n);
      PumpSlotFate(slots[0], next, rx[0]);
      assert LiveBelow(slots[1..], h.next) && PortsOk(slots[1..]);
      OthersSilent(slots[1..], h.next, rx[1..], q, n);
      AfterAppend(q, h.events, PumpAll(slots[1..], h.next, rx[1..]).events, n);
    }
  }

  /** After the first slot the phase agrees with the rest. */
  lemma RestAgrees(slots: seq<Slot>, next: nat, rx: seq<Rx>, q: Phase, n: nat)
    requires |rx| == |slots| > 0 && PortsOk(slots) && LiveBelow(slots, next) && Distinct(slots)
    requires Agrees(q, slots, next, n)
    ensures var h := PumpSlot(slots[0], next, rx[0]);
            Agrees(After(q, h.events, n), slots[1..], h.next, n)
    ensures var h := PumpSlot(slots[0], next, rx[0]);
            PortsOk(slots[1..]) && LiveBelow(slots[1..], h.next) && Distinct(slots[1..])
  {
    var h := PumpSlot(slots[0], next, rx[0]);
    SlotPhase(slots[0], next, rx[0], q, n);
    PumpSlotFate(slots[0], next, rx[0]);
    forall i | 0 <= i < |slots[1..]| && slots[1..][i].stream == Some(n)
      ensures After(q, h.events, n) == LivePhase(slots[1..][i])
    {
      assert slots[i + 1].stream == Some(n) && n <= next;
    }
  }

  lemma {:induction false} PumpPhase(slots: seq<Slot>, next: nat, rx: seq<Rx>, q: Phase, n: nat)
    requires |rx| == |slots| && PortsOk(slots) && LiveBelow(slots, next) && Distinct(slots)
    requires Agrees(q, slots, next, n)
    ensures var p := PumpAll(slots, next, rx); Agrees(After(q, p.events, n), p.slots, p.next, n)
    decreases |slots|
  {
    if slots != [] {
      var h := PumpSlot(slots[0], next, rx[0]);
      var t := PumpAll(slots[1..], h.next, rx[1..]);
      var q' := After(q, h.events, n);
      assert PumpAll(slots, next, rx) == Append(h, t);
      RestAgrees(slots, next, rx, q, n);
      PumpPhase(slots[1..], h.next, rx[1..], q', n);
      AfterAppend(q, h.events, t.events, n);
      SlotPhase(slots[0], next, rx[0], q, n);
      if h.slots[0].stream == Some(n) {
        HeadAlone(slots, next, rx, n);
        OthersSilent(slots[1..], h.next, rx[1..], q', n);
      }
      AgreesCons(After(q', t.events, n), h.slots[0], t.slots, t.next, n);
    }
  }

  lemma AgreesCons(q: Phase, s: Slot, slots: seq<Slot>, next: nat, n: nat)
    requires Agrees(q, slots, next, n) && (s.stream == Some(n) ==> q == LivePhase(s))
    ensures Agrees(q, [s] + slots, next, n)
  {
    forall i | 0 <= i < |[s] + slots| && ([s] + slots)[i].stream == Some(n)
      ensures q == LivePhase(([s] + slots)[i])
    {
      if i > 0 {
        assert ([s] + slots)[i] == slots[i - 1];
      }
    }
  }

  lemma HeadAlone(slots: seq<Slot>, next: nat, rx: seq<Rx>, n: nat)
    requires |rx| == |slots| > 0 && LiveBelow(slots, next) && Distinct(slots)
    requires PumpSlot(slots[0], next, rx[0]).slots[0].stream == Some(n)
    ensures n <= PumpSlot(slots[0], next, rx[0]).next
    ensures forall i :: 0 <= i < |slots[1..]| ==> slots[1..][i].stream != Some(n)
  {
    forall i | 0 <= i < |slots[1..]| ensures slots[1..][i].stream != Some(n) {
      assert slots[1..][i] == slots[i + 1];
    }
  }

  // ------------------------------------------------------------------ whole runs

  lemma {:induction false} PumpPorts(slots: seq<Slot>, next: nat, rx: seq<Rx>)
    requires |rx| == |slots| && PortsOk(slots)
    ensures PortsOk(PumpAll(slots, next, rx).slots)
  {
    if slots != [] {
      var h := PumpSlot(slots[0], next, rx[0]);
      assert PortOk(slots[0]) && PortOk(h.slots[0]);
      PumpPorts(slots[1..], h.next, rx[1..]);
    }
  }

  lemma {:induction false} WithListenersPorts(slots: seq<Slot>, services: seq<VirtualService>)
    requires PortsOk(slots)
    ensures PortsOk(WithListeners(slots, services))
    decreases |services|
  {
    if services != [] {
      var one := WithListener(slots, services[0], HTTP_PORT);
      assert PortsOk(one);
      var two := WithListener(one, services[0], HTTPS_PORT);
      assert PortsOk(two);
      WithListenersPorts(two, services[1..]);
    }
  }

  lemma EnsuredPorts(services: seq<VirtualService>, slots: seq<Slot>)
    requires PortsOk(slots)
    ensures PortsOk(Ensured(services, slots))
  {
    var r := RelistenAll(services, slots);
    forall i | 0 <= i < |r| ensures PortOk(r[i]) {
      assert PortOk(slots[i]);
    }
    WithListenersPorts(r, services);
  }

  lemma PerturbedPorts(slots: seq<Slot>, env: Env)
    requires PortsOk(slots)
    ensures PortsOk(Perturbed(slots, env))
  {
    forall i | 0 <= i < |slots| ensures PortOk(Perturbed(slots, env)[i]) {
      assert PortOk(slots[i]);
    }
  }

  /** The slots as the pump of this poll finds them. */
  function AtPump(services: seq<VirtualService>, st: Stack, env: Env): seq<Slot> {
    Perturbed(Ensured(services, st.slots), env)
  }

  lemma AgreeAtPump(services: seq<VirtualService>, st: Stack, env: Env, q: Phase, n: nat)
    requires Inv(st) && PortsOk(st.slots) && Agrees(q, st.slots, st.next, n)
    ensures var slots := AtPump(services, st, env);
            PortsOk(slots) && LiveBelow(slots, st.next) && Distinct(slots) && Agrees(q, slots, st.next, n)
  {
    var e := Ensured(services, st.slots);
    EnsuredPorts(services, st.slots);
    PerturbedPorts(e, env);
    EnsuredStreams(services, st.slots);
    SameStreamsKeep(st.slots, e, st.next);
    SameStreamsKeep(e, Perturbed(e, env), st.next);
    forall i | 0 <= i < |e| && e[i].stream == Some(n) ensures q == LivePhase(e[i]) {
      if i < |st.slots| {
        EnsuredAt(services, st.slots, i);
      }
    }
  }

  lemma PollPhase(services: seq<VirtualService>, st: Stack, env: Env, rx: nat -> Rx, env': Env, n: nat)
    requires Inv(st) && PortsOk(st.slots) && Agrees(After(Unseen, st.history, n), st.slots, st.next, n)
    ensures var st' := Polled(services, st, env, rx, env');
            PortsOk(st'.slots) && Agrees(After(Unseen, st'.history, n), st'.slots, st'.next, n)
  {
    var q := After(Unseen, st.history, n);
    AgreeAtPump(services, st, env, q, n);
    var slots := AtPump(services, st, env);
    var p := PumpAll(slots, st.next, RxFor(slots, rx));
    PumpPhase(slots, st.next, RxFor(slots, rx), q, n);
    PumpPorts(slots, st.next, RxFor(slots, rx));
    PerturbedPorts(p.slots, env');
    AfterAppend(Unseen, st.history, p.events, n);
  }

  lemma {:induction false} RunPhase(services: seq<VirtualService>, actions: seq<Action>, n: nat)
    ensures var st := Run(services, Init(services), actions);
            Inv(st) && PortsOk(st.slots) && Agrees(After(Unseen, st.history, n), st.slots, st.next, n)
    decreases |actions|
  {
    RunKeepsInv(services, actions);
    if actions != [] {
      var k := |actions| - 1;
      RunPhase(services, actions[..k], n);
      var st := Run(services, Init(services), actions[..k]);
      match actions[k] {
        case Poll(env, rx, env') => PollPhase(services, st, env, rx, env', n);
        case Close(id) => ClosePorts(st.slots, FindStream(st.slots, id));
      }
    }
  }

  lemma ClosePorts(slots: seq<Slot>, i: nat)
    requires PortsOk(slots)
    ensures PortsOk(CloseAt(slots, i))
  {
    forall j | 0 <= j < |slots| ensures PortOk(CloseAt(slots, i)[j]) {
      assert PortOk(slots[j]);
    }
  }

  // ----------------------------------------------------------- what phases mean

  ghost predicate Mentioned(h: seq<Event>, n: nat) {
    exists k :: 0 <= k < |h| && h[k].n == n
  }

  ghost predicate AnnouncedIn(h: seq<Event>, n: nat) {
    exists k :: 0 <= k < |h| && h[k].Connected? && h[k].n == n
  }

  lemma {:induction false} PhaseMeans(h: seq<Event>, n: nat)
    ensures After(Unseen, h, n) == Unseen <==> !Mentioned(h, n)
    ensures After(Unseen, h, n) == Open ==> AnnouncedIn(h, n)
    decreases |h|
  {
    if h != [] {
      var k := |h| - 1;
      PhaseMeans(h[..k], n);
      PhaseSnoc(Unseen, h, n);
      var q := After(Unseen, h[..k], n);
      if h[k].n != n {
        assert Mentioned(h[..k], n) <==> Mentioned(h, n) by {
          if Mentioned(h, n) {
            var j :| 0 <= j < |h| && h[j].n == n;
            assert h[..k][j].n == n;
          }
          if Mentioned(h[..k], n) {
            var j :| 0 <= j < k && h[..k][j].n == n;
            assert h[j].n == n;
          }
        }
      }
      if AnnouncedIn(h[..k], n) {
        var j :| 0 <= j < k && h[..k][j].Connected? && h[..k][j].n == n;
        assert h[j].Connected? && h[j].n == n;
      }
    }
  }

  lemma PhaseSnoc(q: Phase, h: seq<Event>, n: nat)
    requires h != []
    ensures After(q, h, n) == PhaseStep(After(q, h[..|h| - 1], n), h[|h| - 1], n)
  {
    var k := |h| - 1;
    assert h == h[..k] + [h[k]];
    AfterAppend(q, h[..k], [h[k]], n);
    assert After(After(q, h[..k], n), [h[k]], n) == PhaseStep(After(q, h[..k], n), h[k], n);
  }

  /** What came before an event of an unbroken history. */
  lemma PhaseAt(h: seq<Event>, n: nat, k: nat)
    requires k < |h| && After(Unseen, h, n) != Broken
    ensures PhaseStep(After(Unseen, h[..k], n), h[k], n) != Broken
    ensures After(PhaseStep(After(Unseen, h[..k], n), h[k], n), h[k + 1..], n) != Broken
  {
    assert h == h[..k] + ([h[k]] + h[k + 1..]);
    AfterAppend(Unseen, h[..k], [h[k]] + h[k + 1..], n);
    assert ([h[k]] + h[k + 1..])[1..] == h[k + 1..];
    var q := PhaseStep(After(Unseen, h[..k], n), h[k], n);
    if q == Broken {
      BrokenStays(h[k + 1..], n);
    }
  }

  lemma {:induction false} NothingAfterEnd(events: seq<Event>, n: nat)
    requires After(Ended, events, n) != Broken
    ensures !Mentioned(events, n)
    decreases |events|
  {
    if events != [] {
      BrokenStays(events[1..], n);
      NothingAfterEnd(events[1..], n);
      assert forall j :: 1 <= j < |events| ==> events[j] == events[1..][j - 1];
    }
  }

  /** In the history of any run: an announcement is the first event of its id, bytes are
      received only under an announced id, and nothing follows the end of an id. */
  lemma EventOrder(services: seq<VirtualService>, actions: seq<Action>, k: nat)
    requires k < |Run(services, Init(services), actions).history|
    ensures var h := Run(services, Init(services), actions).history;
            && (h[k].Connected? ==> !Mentioned(h[..k], h[k].n))
            && (h[k].Received? ==> AnnouncedIn(h[..k], h[k].n))
            && (h[k].Gone? ==> !Mentioned(h[k + 1..], h[k].n))
  {
    var h := Run(services, Init(services), actions).history;
    var n := h[k].n;
    RunPhase(services, actions, n);
    PhaseAt(h, n, k);
    PhaseMeans(h[..k], n);
    if h[k].Gone? {
      NothingAfterEnd(h[k + 1..], n);
    }
  }

  // ------------------------------------------------- ends that were never announced

  /** An id that ends in a pump was held by a slot before it: a number given in a pump cannot
      end in the same one. */
  lemma {:induction false} EndHolder(slots: seq<Slot>, next: nat, rx: seq<Rx>, k: nat) returns (i: nat)
    requires |rx| == |slots| && k < |PumpAll(slots, next, rx).events| && PumpAll(slots, next, rx).events[k].Gone?
    ensures i < |slots| && slots[i].stream == Some(PumpAll(slots, next, rx).events[k].n)
    decreases |slots|
  {
    var h := PumpSlot(slots[0], next, rx[0]);
    var t := PumpAll(slots[1..], h.next, rx[1..]);
    assert PumpAll(slots, next, rx) == Append(h, t);
    if k < |h.events| {
      i := 0;
      assert (h.events + t.events)[k] == h.events[k];
    } else {
      i := EndHolder(slots[1..], h.next, rx[1..], k - |h.events|);
      i := i + 1;
    }
  }

  /** In any poll of any run, the id whose end is reported was held by a slot, and it had been
      announced if and only if that slot is on the HTTPS port: exactly the HTTP port's ids end
      unannounced. */
  lemma EndAnnouncedIffHttps(services: seq<VirtualService>, actions: seq<Action>, env: Env, rx: nat -> Rx, k: nat)
    returns (i: nat)
    requires var st := Run(services, Init(services), actions);
             var slots := AtPump(services, st, env);
             var events := PumpAll(slots, st.next, RxFor(slots, rx)).events;
             k < |events| && events[k].Gone?
    ensures var st := Run(services, Init(services), actions);
            var slots := AtPump(services, st, env);
            var events := PumpAll(slots, st.next, RxFor(slots, rx)).events;
            && i < |slots| && slots[i].stream == Some(events[k].n)
            && (AnnouncedIn(st.history, events[k].n) <==> slots[i].port == HTTPS_PORT)
  {
    var st := Run(services, Init(services), actions);
    var slots := AtPump(services, st, env);
    i := EndHolder(slots, st.next, RxFor(slots, rx), k);
    var n := slots[i].stream.value;
    RunPhase(services, actions, n);
    AgreeAtPump(services, st, env, After(Unseen, st.history, n), n);
    PhaseMeans(st.history, n);
  }

  /** During poll `a` the interface leaves slot 0 in this state with nothing to read. */
  predicate Leaves(a: Action, state: State) {
    a.Poll? && a.env(0) == View(state, false) && a.env'(0) == View(state, false)
  }

  /** Slot 0 is an open connection to the HTTP port under id `n`. */
  ghost predicate HttpHolds(st: Stack, id: string, n: nat) {
    && |st.slots| > 0 && st.slots[0].service == id && st.slots[0].port == HTTP_PORT
    && st.slots[0].stream == Some(n) && st.slots[0].socket.IsOpen()
  }

  lemma HttpConnects(services: seq<VirtualService>, a: Action) returns (n: nat)
    requires services != [] && Leaves(a, Established)
    ensures HttpHolds(Step(services, Init(services), a), services[0].id, n)
  {
    InitialStart(services);
    var s := Changed(Relistened(services, Init(services).slots[0]), a.env(0));
    var at := PollAt(services, Init(services), a.env, a.rx, a.env', 0);
    n := at + 1;
    assert PumpSlot(s, at, a.rx(0)).slots[0].stream == Some(n);
  }

  lemma HttpEnds(services: seq<VirtualService>, st: Stack, a: Action, id: string, n: nat)
    requires HttpHolds(st, id, n) && Leaves(a, Closed)
    ensures Gone(n, id) in Step(services, st, a).history
  {
    var at := PollAt(services, st, a.env, a.rx, a.env', 0);
    assert PumpSlot(Changed(st.slots[0], View(Closed, false)), at, a.rx(0)).events[0] == Gone(n, id);
  }

  /** It happens, for any published services and whatever happens to the other sockets: a
      connection to the HTTP port opens and closes without a byte, and its end is reported
      although it was never announced. */
  lemma UnannouncedEnd(services: seq<VirtualService>, a: Action, b: Action)
    requires services != [] && Leaves(a, Established) && Leaves(b, Closed)
    ensures var h := Run(services, Init(services), [a] + [b]).history;
            exists n :: Gone(n, services[0].id) in h && !AnnouncedIn(h, n)
  {
    var n := HttpConnects(services, a);
    RunSnoc(services, Init(services), [], a);
    RunSnoc(services, Init(services), [a], b);
    assert [] + [a] == [a];
    HttpEnds(services, Run(services, Init(services), [a]), b, services[0].id, n);
    NeverAnnounced(services, [a], b, n, 0);
  }

  /** A live id of the HTTP port is not announced later either. */
  lemma NeverAnnounced(services: seq<VirtualService>, actions: seq<Action>, b: Action, n: nat, i: nat)
    requires var st := Run(services, Init(services), actions);
             i < |st.slots| && st.slots[i].stream == Some(n) && st.slots[i].port == HTTP_PORT
    ensures !AnnouncedIn(Run(services, Init(services), actions + [b]).history, n)
  {
    var st := Run(services, Init(services), actions);
    RunPhase(services, actions, n);
    PhaseMeans(st.history, n);
    RunSnoc(services, Init(services), actions, b);
    if b.Poll? {
      var slots := AtPump(services, st, b.env);
      AgreeAtPump(services, st, b.env, After(Unseen, st.history, n), n);
      PumpAllFate(slots, st.next, RxFor(slots, b.rx));
      NotAnnouncedIn(st.history, PumpAll(slots, st.next, RxFor(slots, b.rx)).events, st.next,
                     PumpAll(slots, st.next, RxFor(slots, b.rx)).next, n);
    }
  }

  lemma NotAnnouncedIn(h: seq<Event>, events: seq<Event>, next: nat, next': nat, n: nat)
    requires !Mentioned(h, n) && FreshEvents(events, next, next') && n <= next
    ensures !AnnouncedIn(h + events, n)
  {
    forall k | 0 <= k < |h + events| && (h + events)[k].Connected? ensures (h + events)[k].n != n {
      if k < |h| {
        assert (h + events)[k] == h[k];
      } else {
        assert (h + events)[k] == events[k - |h|];
      }
    }
  }
}
