/** Whole runs of the TCP slot machine: stream ids and their announcements. */
module TcpRuns {
  import opened Base
  import opened TcpSlots
  import opened VirtualNetwork

  datatype Action =
    | Poll(env: Env, rx: nat -> Rx, env': Env)
    | Close(id: string)

  function Step(services: seq<VirtualService>, st: Stack, a: Action): Stack {
    match a
    case Poll(env, rx, env') => Polled(services, st, env, rx, env')
    case Close(id) => st.(slots := CloseAt(st.slots, FindStream(st.slots, id)))
  }

  function Run(services: seq<VirtualService>, st: Stack, actions: seq<Action>): Stack
    decreases |actions|
  {
    if actions == [] then st
    else Step(services, Run(services, st, actions[..|actions| - 1]), actions[|actions| - 1])
  }

  function Init(services: seq<VirtualService>): Stack {
    Stack(InitialSlots(services), 0, [])
  }

  // --------------------------------------------------------------- stream ids

  ghost predicate Distinct(slots: seq<Slot>) {
    forall i, j :: 0 <= i < j < |slots| && slots[i].stream.Some? && slots[j].stream.Some? ==>
      slots[i].stream.value != slots[j].stream.value
  }

  ghost predicate Inv(st: Stack) {
    && LiveBelow(st.slots, st.next)
    && Distinct(st.slots)
    && FreshEvents(st.history, 0, st.next)
  }

  ghost predicate SameStreams(a: seq<Slot>, b: seq<Slot>) {
    && |a| <= |b|
    && (forall i :: 0 <= i < |a| ==> b[i].stream == a[i].stream)
    && (forall i :: |a| <= i < |b| ==> b[i].stream.None?)
  }

  lemma SameStreamsKeep(a: seq<Slot>, b: seq<Slot>, next: nat)
    requires SameStreams(a, b) && LiveBelow(a, next) && Distinct(a)
    ensures LiveBelow(b, next) && Distinct(b)
  {
  }

  lemma EnsuredStreams(services: seq<VirtualService>, slots: seq<Slot>)
    ensures SameStreams(slots, Ensured(services, slots))
  {
    var r := RelistenAll(services, slots);
    assert forall i :: 0 <= i < |slots| ==> r[i].stream == slots[i].stream;
    var e := Ensured(services, slots);
    assert forall i :: 0 <= i < |r| ==> e[i] == r[i];
  }

  lemma PumpKeepsDistinct(slots: seq<Slot>, next: nat, p: Pump)
    requires LiveBelow(slots, next) && Distinct(slots) && |p.slots| == |slots| && next <= p.next
    requires forall i :: 0 <= i < |slots| ==> Fate(slots[i], p.slots[i], next, p.next)
    requires FreshNumbers(p.slots, next)
    ensures LiveBelow(p.slots, p.next) && Distinct(p.slots)
  {
    forall i, j | 0 <= i < j < |p.slots| && p.slots[i].stream.Some? && p.slots[j].stream.Some?
      ensures p.slots[i].stream.value != p.slots[j].stream.value
    {
      assert Fate(slots[i], p.slots[i], next, p.next) && Fate(slots[j], p.slots[j], next, p.next);
    }
  }

  lemma JoinHistory(a: seq<Event>, b: seq<Event>, next: nat, next': nat)
    requires FreshEvents(a, 0, next) && FreshEvents(b, next, next') && next <= next'
    ensures FreshEvents(a + b, 0, next')
  {
  }

  lemma PollKeepsInv(services: seq<VirtualService>, st: Stack, env: Env, rx: nat -> Rx, env': Env)
    requires Inv(st)
    ensures Inv(Polled(services, st, env, rx, env'))
    ensures st.next <= Polled(services, st, env, rx, env').next
  {
    var e := Ensured(services, st.slots);
    EnsuredStreams(services, st.slots);
    SameStreamsKeep(st.slots, e, st.next);
    var slots := Perturbed(e, env);
    SameStreamsKeep(e, slots, st.next);
    var p := PumpAll(slots, st.next, RxFor(slots, rx));
    PumpAllFate(slots, st.next, RxFor(slots, rx));
    PumpKeepsDistinct(slots, st.next, p);
    SameStreamsKeep(p.slots, Perturbed(p.slots, env'), p.next);
    JoinHistory(st.history, p.events, st.next, p.next);
  }

  lemma {:induction false} RunKeepsInv(services: seq<VirtualService>, actions: seq<Action>)
    ensures Inv(Run(services, Init(services), actions))
    decreases |actions|
  {
    if actions != [] {
      var k := |actions| - 1;
      RunKeepsInv(services, actions[..k]);
      match actions[k] {
        case Poll(env, rx, env') => PollKeepsInv(services, Run(services, Init(services), actions[..k]), env, rx, env');
        case Close(id) =>
      }
    }
  }

  lemma OnlyMatch(slots: seq<Slot>, id: string, i: nat)
    requires Distinct(slots) && i < |slots|
    requires slots[i].stream.Some? && StreamId(slots[i].stream.value) == id
    ensures i == FindStream(slots, id)
  {
    var f := FindStream(slots, id);
    assert f <= i;
    StreamIdInjective(slots[i].stream.value, slots[f].stream.value);
  }

  lemma ClosingLeavesNone(slots: seq<Slot>, id: string)
    requires Distinct(slots)
    ensures FindStream(CloseAt(slots, FindStream(slots, id)), id) == |slots|
  {
    var f := FindStream(slots, id);
    var r := CloseAt(slots, f);
    var g := FindStream(r, id);
    if g < |r| {
      assert r[g].stream == slots[g].stream;
      OnlyMatch(slots, id, g);
    }
  }

  lemma AnnouncedApart(h: seq<Event>, next: nat, k: nat, l: nat)
    requires FreshEvents(h, 0, next) && k < l < |h| && h[k].Connected? && h[l].Connected?
    ensures StreamId(h[k].n) != StreamId(h[l].n)
  {
    if StreamId(h[k].n) == StreamId(h[l].n) {
      StreamIdInjective(h[k].n, h[l].n);
    }
  }

  /** Over any run: live ids are pairwise distinct, so the first match is the only one and
      closing a stream leaves none; and every id is announced at most once. */
  lemma {:induction false} StreamIdsUnique(services: seq<VirtualService>, actions: seq<Action>, id: string)
    ensures var st := Run(services, Init(services), actions);
            && (forall i :: 0 <= i < |st.slots| && st.slots[i].stream.Some? && StreamId(st.slots[i].stream.value) == id
                  ==> i == FindStream(st.slots, id))
            && FindStream(Step(services, st, Close(id)).slots, id) == |st.slots|
            && (forall k, l :: 0 <= k < l < |st.history| && st.history[k].Connected? && st.history[l].Connected?
                  ==> StreamId(st.history[k].n) != StreamId(st.history[l].n))
  {
    RunKeepsInv(services, actions);
    var st := Run(services, Init(services), actions);
    forall i | 0 <= i < |st.slots| && st.slots[i].stream.Some? && StreamId(st.slots[i].stream.value) == id
      ensures i == FindStream(st.slots, id)
    {
      OnlyMatch(st.slots, id, i);
    }
    ClosingLeavesNone(st.slots, id);
    forall k, l | 0 <= k < l < |st.history| && st.history[k].Connected? && st.history[l].Connected?
      ensures StreamId(st.history[k].n) != StreamId(st.history[l].n)
    {
      AnnouncedApart(st.history, st.next, k, l);
    }
  }

  /** A number that is not live never comes back. */
  ghost predicate Retired(st: Stack, n: nat) {
    n <= st.next && forall i :: 0 <= i < |st.slots| ==> st.slots[i].stream != Some(n)
  }

  lemma StepKeepsRetired(services: seq<VirtualService>, st: Stack, a: Action, n: nat)
    requires Inv(st) && Retired(st, n)
    ensures Retired(Step(services, st, a), n)
  {
    match a {
      case Close(id) =>
      case Poll(env, rx, env') =>
        var e := Ensured(services, st.slots);
        EnsuredStreams(services, st.slots);
        SameStreamsKeep(st.slots, e, st.next);
        var slots := Perturbed(e, env);
        var p := PumpAll(slots, st.next, RxFor(slots, rx));
        PumpAllFate(slots, st.next, RxFor(slots, rx));
        forall i | 0 <= i < |p.slots| ensures p.slots[i].stream != Some(n) {
          assert Fate(slots[i], p.slots[i], st.next, p.next);
          assert slots[i].stream == e[i].stream;
        }
    }
  }

  lemma RunSnoc(services: seq<VirtualService>, st: Stack, actions: seq<Action>, a: Action)
    ensures Run(services, st, actions + [a]) == Step(services, Run(services, st, actions), a)
  {
    assert (actions + [a])[..|actions|] == actions;
  }

  /** Everything up to action `k` has happened. */
  function RunTo(services: seq<VirtualService>, actions: seq<Action>, k: nat): Stack
    requires k <= |actions|
  {
    Run(services, Init(services), actions[..k])
  }

  lemma RunToNext(services: seq<VirtualService>, actions: seq<Action>, k: nat)
    requires k < |actions|
    ensures RunTo(services, actions, k + 1) == Step(services, RunTo(services, actions, k), actions[k])
  {
    assert actions[..k + 1] == actions[..k] + [actions[k]];
    RunSnoc(services, Init(services), actions[..k], actions[k]);
  }

  lemma {:induction false} RetiredNext(services: seq<VirtualService>, actions: seq<Action>, k: nat, n: nat)
    requires k < |actions| && Retired(RunTo(services, actions, k), n)
    ensures Retired(RunTo(services, actions, k + 1), n)
  {
    RunToNext(services, actions, k);
    RunKeepsInv(services, actions[..k]);
    StepKeepsRetired(services, RunTo(services, actions, k), actions[k], n);
  }

  lemma {:induction false} KeptFrom(P: nat -> bool, i: nat, j: nat)
    requires i <= j && P(i) && forall k :: i <= k < j && P(k) ==> P(k + 1)
    ensures P(j)
    decreases j - i
  {
    if i < j {
      KeptFrom(P, i + 1, j);
    }
  }

  /** Ids are never reused: once a stream is gone its id stays gone for the rest of the run. */
  lemma {:induction false} IdsNeverReused(services: seq<VirtualService>, actions: seq<Action>, i: nat, j: nat, n: nat)
    requires i <= j <= |actions| && Retired(RunTo(services, actions, i), n)
    ensures Retired(RunTo(services, actions, j), n)
  {
    var P := (k: nat) => k <= |actions| && Retired(RunTo(services, actions, k), n);
    forall k | i <= k < j && P(k) ensures P(k + 1) {
      RetiredNext(services, actions, k, n);
    }
    KeptFrom(P, i, j);
  }

  /** Only an HTTPS slot is announced. */
  lemma {:induction false} OnlyHttpsAnnounced(slots: seq<Slot>, next: nat, rx: seq<Rx>, k: nat)
    requires |rx| == |slots|
    requires k < |PumpAll(slots, next, rx).events| && PumpAll(slots, next, rx).events[k].Connected?
    ensures exists i :: 0 <= i < |slots| && slots[i].port == HTTPS_PORT && slots[i].stream.None?
              && slots[i].socket.state == Established
              && PumpAll(slots, next, rx).events[k].service == slots[i].service
  {
    var h := PumpSlot(slots[0], next, rx[0]);
    if k >= |h.events| {
      OnlyHttpsAnnounced(slots[1..], h.next, rx[1..], k - |h.events|);
      var i :| 0 <= i < |slots[1..]| && slots[1..][i].port == HTTPS_PORT && slots[1..][i].stream.None?
               && slots[1..][i].socket.state == Established
               && PumpAll(slots[1..], h.next, rx[1..]).events[k - |h.events|].service == slots[1..][i].service;
      assert slots[1..][i] == slots[i + 1];
    }
  }
}
