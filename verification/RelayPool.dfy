/** The relay's pool of waiting node sockets: registration, time-to-live and exclusive
    hand-out to clients, over any interleaving of registrations and client polls. */
module RelayPool {
  import opened Base

  const TTL := 60_000 // milliseconds
  const ROUNDS := 50

  datatype Waiting = Waiting(socket: nat, connectedAt: nat)

  type Pool = map<string, seq<Waiting>>

  predicate Unexpired(w: Waiting, now: nat, ttl: nat) {
    now <= w.connectedAt + ttl
  }

  function StackOf(pool: Pool, node: string): seq<Waiting> {
    if node in pool then pool[node] else []
  }

  /** What a poll round makes of a node's stack: what stays, what is handed out, what is
      dropped (listed from the bottom up). */
  datatype Round = Round(rest: seq<Waiting>, chosen: Option<Waiting>, dropped: seq<Waiting>)

  function Chosen(p: Round): seq<Waiting> {
    match p.chosen case None => [] case Some(w) => [w]
  }

  /** The round hands out the topmost unexpired entry and drops the expired ones above it. */
  ghost predicate RoundSpec(stack: seq<Waiting>, now: nat, ttl: nat, p: Round) {
    && stack == p.rest + Chosen(p) + p.dropped
    && (p.chosen.Some? ==> Unexpired(p.chosen.value, now, ttl))
    && (p.chosen.None? ==> p.rest == [])
    && (forall w :: w in p.dropped ==> !Unexpired(w, now, ttl))
  }

  function PollStack(stack: seq<Waiting>, now: nat, ttl: nat): (p: Round)
    ensures RoundSpec(stack, now, ttl, p)
  {
    if stack == [] then Round([], None, [])
    else
      var n := |stack| - 1;
      if Unexpired(stack[n], now, ttl) then Round(stack[..n], Some(stack[n]), [])
      else
        var p := PollStack(stack[..n], now, ttl);
        assert stack == stack[..n] + [stack[n]];
        p.(dropped := p.dropped + [stack[n]])
  }

  /** The round that ends as the loop will, resumed from its variables. */
  function Resumed(nodes: seq<Waiting>, selected: Option<Waiting>, dropped: seq<Waiting>, now: nat, ttl: nat): Round {
    if selected.Some? then Round(nodes, selected, dropped)
    else
      var p := PollStack(nodes, now, ttl);
      p.(dropped := p.dropped + dropped)
  }

  /** Popping the top entry does not change how the round ends. */
  lemma ResumePopping(nodes: seq<Waiting>, dropped: seq<Waiting>, now: nat, ttl: nat)
    requires nodes != []
    ensures var n := |nodes| - 1;
            Resumed(nodes, None, dropped, now, ttl) ==
            if Unexpired(nodes[n], now, ttl) then Resumed(nodes[..n], Some(nodes[n]), dropped, now, ttl)
            else Resumed(nodes[..n], None, [nodes[n]] + dropped, now, ttl)
  {
    var n := |nodes| - 1;
    if Unexpired(nodes[n], now, ttl) {
      assert [] + dropped == dropped;
    } else {
      var p := PollStack(nodes[..n], now, ttl);
      assert p.dropped + [nodes[n]] + dropped == p.dropped + ([nodes[n]] + dropped);
    }
  }

  /** The map never keeps an empty stack. */
  function WithStack(pool: Pool, node: string, rest: seq<Waiting>): Pool {
    if rest == [] then pool - {node} else pool[node := rest]
  }

  function AfterRegister(pool: Pool, node: string, w: Waiting): Pool {
    pool[node := StackOf(pool, node) + [w]]
  }

  /** The mutex-guarded map. */
  class WaitingNodes {
    var waiting: Pool

    constructor ()
      ensures waiting == map[]
    {
      waiting := map[];
    }

    method Register(node: string, socket: nat, now: nat)
      modifies this
      ensures waiting == AfterRegister(old(waiting), node, Waiting(socket, now))
    {
      if node !in waiting {
        waiting := waiting[node := []];
      }
      waiting := waiting[node := waiting[node] + [Waiting(socket, now)]];
    }

    /** One round of `wait_for_node_stream_with_ttl` under the lock. */
    method PollRound(node: string, now: nat, ttl: nat) returns (selected: Option<Waiting>, dropped: seq<Waiting>)
      modifies this
      ensures var p := PollStack(StackOf(old(waiting), node), now, ttl);
              && selected == p.chosen
              && dropped == p.dropped
              && waiting == WithStack(old(waiting), node, p.rest)
    {
      selected := None;
      dropped := [];
      if node in waiting {
        var nodes := waiting[node];
        ghost var stack := nodes;
        assert PollStack(stack, now, ttl).dropped + [] == PollStack(stack, now, ttl).dropped;
        while nodes != [] && selected.None?
          invariant waiting == old(waiting)
          invariant PollStack(stack, now, ttl) == Resumed(nodes, selected, dropped, now, ttl)
          decreases |nodes|
        {
          var top := nodes[|nodes| - 1];
          ResumePopping(nodes, dropped, now, ttl);
          nodes := nodes[..|nodes| - 1];
          if Unexpired(top, now, ttl) {
            selected := Some(top);
          } else {
            dropped := [top] + dropped;
          }
        }
        assert [] + dropped == dropped;
        if nodes == [] {
          waiting := waiting - {node};
        } else {
          waiting := waiting[node := nodes];
        }
      } else {
        assert waiting - {node} == waiting;
      }
    }
  }

  // ---------------------------------------------------------------- whole runs

  datatype Registration = Registration(node: string, at: nat)

  datatype Pairing = Pairing(client: nat, socket: nat, age: nat)

  datatype Status = Polling(rounds: nat) | Served(pairing: nat) | GaveUp

  datatype Client = Client(node: string, status: Status)

  /** Sockets and clients are numbered in order of appearance. */
  datatype Relay = Relay(
    clock: nat,
    pool: Pool,
    sockets: seq<Registration>,
    clients: seq<Client>,
    pairings: seq<Pairing>,
    discarded: seq<Waiting>)

  datatype Action =
    | NodeJoins(node: string, now: nat)
    | ClientJoins(node: string)
    | Poll(client: nat, now: nat)

  predicate Enabled(r: Relay, a: Action) {
    match a
    case NodeJoins(_, now) => r.clock <= now
    case ClientJoins(_) => true
    case Poll(c, now) => r.clock <= now && c < |r.clients| && r.clients[c].status.Polling?
  }

  /** The client after a round: served by the next pairing, or one round closer to giving up. */
  function NextStatus(s: Status, found: bool, pairing: nat): Status
    requires s.Polling?
  {
    if found then Served(pairing)
    else if s.rounds + 1 < ROUNDS then Polling(s.rounds + 1) else GaveUp
  }

  function Step(r: Relay, a: Action): Relay
    requires Enabled(r, a)
  {
    match a
    case NodeJoins(node, now) =>
      r.(clock := now,
         pool := AfterRegister(r.pool, node, Waiting(|r.sockets|, now)),
         sockets := r.sockets + [Registration(node, now)])
    case ClientJoins(node) => r.(clients := r.clients + [Client(node, Polling(0))])
    case Poll(c, now) => Polled(r, c, now, PollStack(StackOf(r.pool, r.clients[c].node), now, TTL))
  }

  /** The relay after client `c`'s round `p` at time `now`. */
  function Polled(r: Relay, c: nat, now: nat, p: Round): Relay
    requires c < |r.clients| && r.clients[c].status.Polling?
  {
    var client := r.clients[c];
    r.(clock := now,
       pool := WithStack(r.pool, client.node, p.rest),
       clients := r.clients[c := client.(status := NextStatus(client.status, p.chosen.Some?, |r.pairings|))],
       discarded := r.discarded + p.dropped,
       pairings := match p.chosen
                   case None => r.pairings
                   case Some(w) => r.pairings + [Pairing(c, w.socket, Age(w, now))])
  }

  function Age(w: Waiting, now: nat): nat {
    if now >= w.connectedAt then now - w.connectedAt else 0
  }

  const EMPTY := Relay(0, map[], [], [], [], [])

  ghost predicate Reaches(r: Relay, actions: seq<Action>, r': Relay)
    decreases |actions|
  {
    if actions == [] then r == r'
    else Enabled(r, actions[0]) && Reaches(Step(r, actions[0]), actions[1..], r')
  }

  /** How often a socket occurs among waiting or discarded entries. */
  function Occurrences(stack: seq<Waiting>, s: nat): nat {
    if stack == [] then 0 else (if stack[0].socket == s then 1 else 0) + Occurrences(stack[1..], s)
  }

  /** How often a socket has been handed out. */
  function HandOuts(pairings: seq<Pairing>, s: nat): nat {
    if pairings == [] then 0 else (if pairings[0].socket == s then 1 else 0) + HandOuts(pairings[1..], s)
  }

  /** How often a registered socket occurs as waiting, paired and discarded. */
  function Places(r: Relay, s: nat): nat
    requires s < |r.sockets|
  {
    Occurrences(StackOf(r.pool, r.sockets[s].node), s) + HandOuts(r.pairings, s) + Occurrences(r.discarded, s)
  }

  /** A node's stack: registered sockets of that very node, oldest at the bottom. */
  ghost predicate StackOk(stack: seq<Waiting>, node: string, sockets: seq<Registration>, clock: nat) {
    && (forall i :: 0 <= i < |stack| ==>
          && stack[i].socket < |sockets|
          && sockets[stack[i].socket] == Registration(node, stack[i].connectedAt)
          && stack[i].connectedAt <= clock)
    && (forall i, j :: 0 <= i < j < |stack| ==> stack[i].connectedAt <= stack[j].connectedAt)
  }

  /** No stack is empty and every stack is in order. */
  ghost predicate PoolOk(pool: Pool, sockets: seq<Registration>, clock: nat) {
    forall n :: n in pool ==> pool[n] != [] && StackOk(pool[n], n, sockets, clock)
  }

  ghost predicate OncePlaced(r: Relay) {
    && (forall s :: 0 <= s < |r.sockets| ==> Places(r, s) == 1)
    && (forall i :: 0 <= i < |r.discarded| ==> r.discarded[i].socket < |r.sockets|)
  }

  /** A hand-out joins a client to a socket of the node it named, within the time-to-live,
      and hand-outs and served clients are one to one. */
  ghost predicate PairingsOk(clients: seq<Client>, sockets: seq<Registration>, pairings: seq<Pairing>) {
    && (forall i :: 0 <= i < |pairings| ==>
          && pairings[i].client < |clients| && pairings[i].socket < |sockets|
          && clients[pairings[i].client].status == Served(i)
          && clients[pairings[i].client].node == sockets[pairings[i].socket].node
          && pairings[i].age <= TTL)
    && (forall c :: 0 <= c < |clients| && clients[c].status.Served? ==>
          clients[c].status.pairing < |pairings| && pairings[clients[c].status.pairing].client == c)
  }

  ghost predicate Inv(r: Relay) {
    && PoolOk(r.pool, r.sockets, r.clock)
    && OncePlaced(r)
    && PairingsOk(r.clients, r.sockets, r.pairings)
  }

  // ------------------------------------------------------------------ proofs

  lemma PoolStack(pool: Pool, sockets: seq<Registration>, clock: nat, node: string)
    requires PoolOk(pool, sockets, clock)
    ensures StackOk(StackOf(pool, node), node, sockets, clock)
  {
  }

  lemma JoinKeepsPool(pool: Pool, sockets: seq<Registration>, clock: nat, node: string, now: nat)
    requires PoolOk(pool, sockets, clock) && clock <= now
    ensures PoolOk(AfterRegister(pool, node, Waiting(|sockets|, now)), sockets + [Registration(node, now)], now)
  {
    var sockets' := sockets + [Registration(node, now)];
    forall n | n in pool
      ensures StackOk(pool[n], n, sockets', now)
    {
    }
    var stack := StackOf(pool, node);
    assert StackOk(stack, node, sockets', now);
    assert StackOk(stack + [Waiting(|sockets|, now)], node, sockets', now);
  }

  lemma PollKeepsPool(pool: Pool, sockets: seq<Registration>, clock: nat, node: string, now: nat, p: Round)
    requires PoolOk(pool, sockets, clock) && clock <= now && RoundSpec(StackOf(pool, node), now, TTL, p)
    ensures PoolOk(WithStack(pool, node, p.rest), sockets, now)
  {
    forall n | n in pool
      ensures StackOk(pool[n], n, sockets, now)
    {
    }
    if p.rest != [] {
      assert p.rest == pool[node][..|p.rest|];
    }
  }

  lemma {:induction false} OccurrencesAppend(a: seq<Waiting>, b: seq<Waiting>, s: nat)
    ensures Occurrences(a + b, s) == Occurrences(a, s) + Occurrences(b, s)
  {
    if a == [] {
      assert a + b == b;
    } else {
      OccurrencesAppend(a[1..], b, s);
      assert (a + b)[1..] == a[1..] + b;
    }
  }

  lemma {:induction false} HandOutsSnoc(a: seq<Pairing>, p: Pairing, s: nat)
    ensures HandOuts(a + [p], s) == HandOuts(a, s) + (if p.socket == s then 1 else 0)
  {
    if a == [] {
      assert a + [p] == [p];
    } else {
      HandOutsSnoc(a[1..], p, s);
      assert (a + [p])[1..] == a[1..] + [p];
    }
  }

  lemma {:induction false} Absent(a: seq<Waiting>, s: nat)
    requires forall i :: 0 <= i < |a| ==> a[i].socket != s
    ensures Occurrences(a, s) == 0
  {
    if a != [] {
      Absent(a[1..], s);
    }
  }

  lemma {:induction false} NeverHandedOut(a: seq<Pairing>, s: nat)
    requires forall i :: 0 <= i < |a| ==> a[i].socket != s
    ensures HandOuts(a, s) == 0
  {
    if a != [] {
      NeverHandedOut(a[1..], s);
    }
  }

  lemma JoinKeepsPlaces(r: Relay, node: string, now: nat, s: nat)
    requires Inv(r) && r.clock <= now && s <= |r.sockets|
    ensures Places(Step(r, NodeJoins(node, now)), s) == 1
  {
    var stack := StackOf(r.pool, node);
    var w := Waiting(|r.sockets|, now);
    OccurrencesAppend(stack, [w], s);
    if s < |r.sockets| {
      assert Places(r, s) == 1;
    } else {
      assert StackOk(stack, node, r.sockets, r.clock);
      Absent(stack, s);
      Absent(r.discarded, s);
      NeverHandedOut(r.pairings, s);
    }
  }

  /** What leaves the stack in a poll is paired or discarded, and nothing else moves. */
  lemma PollKeepsPlaces(r: Relay, c: nat, now: nat, p: Round, s: nat)
    requires Enabled(r, Poll(c, now)) && s < |r.sockets|
    requires StackOf(r.pool, r.clients[c].node) == p.rest + Chosen(p) + p.dropped
    requires r.sockets[s].node != r.clients[c].node ==>
               Occurrences(StackOf(r.pool, r.clients[c].node), s) == 0
    ensures Places(Polled(r, c, now, p), s) == Places(r, s)
  {
    OccurrencesAppend(p.rest + Chosen(p), p.dropped, s);
    OccurrencesAppend(p.rest, Chosen(p), s);
    OccurrencesAppend(r.discarded, p.dropped, s);
    if p.chosen.Some? {
      HandOutsSnoc(r.pairings, Pairing(c, p.chosen.value.socket, Age(p.chosen.value, now)), s);
    }
  }

  /** A hand-out serves a client that was still polling. */
  lemma PollKeepsPairings(r: Relay, c: nat, now: nat, p: Round)
    requires Enabled(r, Poll(c, now)) && PairingsOk(r.clients, r.sockets, r.pairings)
    requires p.chosen.Some? ==>
               && p.chosen.value.socket < |r.sockets|
               && r.sockets[p.chosen.value.socket].node == r.clients[c].node
               && Age(p.chosen.value, now) <= TTL
    ensures var r' := Polled(r, c, now, p); PairingsOk(r'.clients, r'.sockets, r'.pairings)
  {
  }

  lemma PollKeepsLedger(r: Relay, c: nat, now: nat, p: Round)
    requires OncePlaced(r) && Enabled(r, Poll(c, now))
    requires StackOf(r.pool, r.clients[c].node) == p.rest + Chosen(p) + p.dropped
    requires forall s :: 0 <= s < |r.sockets| && r.sockets[s].node != r.clients[c].node ==>
               Occurrences(StackOf(r.pool, r.clients[c].node), s) == 0
    requires forall w :: w in p.dropped ==> w.socket < |r.sockets|
    ensures OncePlaced(Polled(r, c, now, p))
  {
    var r' := Polled(r, c, now, p);
    forall s | 0 <= s < |r'.sockets|
      ensures Places(r', s) == 1
    {
      PollKeepsPlaces(r, c, now, p, s);
      assert Places(r, s) == 1;
    }
  }

  lemma PollStepKeepsInv(r: Relay, c: nat, now: nat)
    requires Inv(r) && Enabled(r, Poll(c, now))
    ensures Inv(Step(r, Poll(c, now)))
  {
    var node := r.clients[c].node;
    var stack := StackOf(r.pool, node);
    var p := PollStack(stack, now, TTL);
    PoolStack(r.pool, r.sockets, r.clock, node);
    PollKeepsPool(r.pool, r.sockets, r.clock, node, now, p);
    forall s | 0 <= s < |r.sockets| && r.sockets[s].node != node
      ensures Occurrences(stack, s) == 0
    {
      Absent(stack, s);
    }
    RoundMembers(stack, p);
    PollKeepsPairings(r, c, now, p);
    PollKeepsLedger(r, c, now, p);
  }

  lemma RoundMembers(stack: seq<Waiting>, p: Round)
    requires stack == p.rest + Chosen(p) + p.dropped
    ensures forall w :: w in p.dropped ==> w in stack
    ensures p.chosen.Some? ==> p.chosen.value in stack
  {
    if p.chosen.Some? {
      assert stack[|p.rest|] == p.chosen.value;
    }
  }

  lemma JoinStepKeepsInv(r: Relay, node: string, now: nat)
    requires Inv(r) && r.clock <= now
    ensures Inv(Step(r, NodeJoins(node, now)))
  {
    var r' := Step(r, NodeJoins(node, now));
    JoinKeepsPool(r.pool, r.sockets, r.clock, node, now);
    forall s | 0 <= s < |r'.sockets|
      ensures Places(r', s) == 1
    {
      JoinKeepsPlaces(r, node, now, s);
    }
  }

  lemma StepKeepsInv(r: Relay, a: Action)
    requires Inv(r) && Enabled(r, a)
    ensures Inv(Step(r, a))
  {
    match a {
      case NodeJoins(node, now) => JoinStepKeepsInv(r, node, now);
      case ClientJoins(node) =>
        assert forall s :: 0 <= s < |r.sockets| ==> Places(Step(r, a), s) == Places(r, s);
      case Poll(c, now) => PollStepKeepsInv(r, c, now);
    }
  }

  lemma {:induction false} RunKeepsInv(r: Relay, actions: seq<Action>, r': Relay)
    requires Inv(r) && Reaches(r, actions, r')
    ensures Inv(r')
    decreases |actions|
  {
    if actions != [] {
      StepKeepsInv(r, actions[0]);
      RunKeepsInv(Step(r, actions[0]), actions[1..], r');
    }
  }

  lemma EmptyInv()
    ensures Inv(EMPTY)
  {
  }

  /** Over any interleaving: every registered socket is waiting, paired or discarded, in
      exactly one place exactly once; hand-outs respect node id and time-to-live and are one
      to one with served clients; no stack is empty. */
  lemma RelayConserves(actions: seq<Action>, r: Relay)
    requires Reaches(EMPTY, actions, r)
    ensures forall s :: 0 <= s < |r.sockets| ==> Places(r, s) == 1
    ensures PairingsOk(r.clients, r.sockets, r.pairings)
    ensures PoolOk(r.pool, r.sockets, r.clock)
  {
    EmptyInv();
    RunKeepsInv(EMPTY, actions, r);
  }

  /** A round fails exactly when no unexpired socket waits for that node; otherwise it hands
      out the most recently registered one and drops nothing; it drops only expired ones. */
  lemma RoundOutcome(actions: seq<Action>, r: Relay, node: string, now: nat)
    requires Reaches(EMPTY, actions, r) && r.clock <= now
    ensures var stack := StackOf(r.pool, node);
            var p := PollStack(stack, now, TTL);
            && (p.chosen.None? <==> forall w :: w in stack ==> now > w.connectedAt + 60_000)
            && (p.chosen.Some? ==> stack != [] && p.chosen.value == stack[|stack| - 1] && p.dropped == [])
            && (forall w :: w in p.dropped ==> now > w.connectedAt + 60_000)
            && (forall w :: w in stack ==> w.connectedAt <= stack[|stack| - 1].connectedAt)
  {
    RelayConserves(actions, r);
    PoolStack(r.pool, r.sockets, r.clock, node);
    var stack := StackOf(r.pool, node);
    var p := PollStack(stack, now, TTL);
    NewestIsTop(stack, node, r.sockets, r.clock, now, p);
  }

  /** What a poll does to the waiting sockets of the client's node. */
  ghost predicate Serves(r: Relay, c: nat, now: nat, r': Relay)
    requires c < |r.clients| == |r'.clients|
  {
    var node := r.clients[c].node;
    var stack := StackOf(r.pool, node);
    if exists w :: w in stack && now <= w.connectedAt + 60_000 then
      var newest := stack[|stack| - 1];
      && r'.pairings == r.pairings + [Pairing(c, newest.socket, Age(newest, now))]
      && r'.clients[c].status == Served(|r.pairings|) && r'.discarded == r.discarded
      && StackOf(r'.pool, node) == stack[..|stack| - 1]
    else
      && r'.pairings == r.pairings && !r'.clients[c].status.Served?
      && r'.discarded == r.discarded + stack && StackOf(r'.pool, node) == []
  }

  /** What a client's poll does after any run.  If a socket that joined for its node within the
      last minute waits, the newest one is the client's and waits no longer; otherwise nothing
      is handed out and every socket of that node is discarded.  Other clients and other nodes
      are not affected. */
  lemma PollServes(actions: seq<Action>, r: Relay, c: nat, now: nat)
    requires Reaches(EMPTY, actions, r) && Enabled(r, Poll(c, now))
    ensures var r' := Step(r, Poll(c, now));
            && |r'.clients| == |r.clients| && Serves(r, c, now, r')
            && (forall d :: 0 <= d < |r.clients| && d != c ==> r'.clients[d] == r.clients[d])
            && forall n :: n != r.clients[c].node ==> StackOf(r'.pool, n) == StackOf(r.pool, n)
  {
    var stack := StackOf(r.pool, r.clients[c].node);
    var p := PollStack(stack, now, TTL);
    RoundOutcome(actions, r, r.clients[c].node, now);
    RoundShape(stack, now, p);
    PolledServes(r, c, now, p);
  }

  lemma {:induction false} PolledServes(r: Relay, c: nat, now: nat, p: Round)
    requires c < |r.clients| && r.clients[c].status.Polling?
    requires var stack := StackOf(r.pool, r.clients[c].node);
             && (p.chosen.None? <==> forall w :: w in stack ==> now > w.connectedAt + 60_000)
             && (p.chosen.None? ==> p.rest == [] && p.dropped == stack)
             && (p.chosen.Some? ==> stack != [] && p.dropped == [] && p.chosen.value == stack[|stack| - 1]
                                    && p.rest == stack[..|stack| - 1])
    ensures Serves(r, c, now, Polled(r, c, now, p))
    ensures forall n :: n != r.clients[c].node ==> StackOf(Polled(r, c, now, p).pool, n) == StackOf(r.pool, n)
  {
    assert r.discarded + [] == r.discarded;
  }

  lemma RoundShape(stack: seq<Waiting>, now: nat, p: Round)
    requires RoundSpec(stack, now, TTL, p)
    ensures p.chosen.None? ==> p.dropped == stack
    ensures p.chosen.Some? && p.dropped == [] ==> stack != [] && p.rest == stack[..|stack| - 1]
  {
  }

  // ------------------------------------------------------------ rounds of a client

  /** How many rounds client `c` has polled. */
  function Polls(actions: seq<Action>, c: nat): nat {
    if actions == [] then 0
    else (if actions[0].Poll? && actions[0].client == c then 1 else 0) + Polls(actions[1..], c)
  }

  lemma {:induction false} SettledStays(r: Relay, actions: seq<Action>, r': Relay, c: nat)
    requires Reaches(r, actions, r') && c < |r.clients| && !r.clients[c].status.Polling?
    ensures Polls(actions, c) == 0 && c < |r'.clients| && r'.clients[c] == r.clients[c]
    decreases |actions|
  {
    if actions != [] {
      SettledStays(Step(r, actions[0]), actions[1..], r', c);
    }
  }

  /** The client's rounds so far, told from its status and from the actions. */
  ghost predicate RoundsAgree(s: Status, polls: nat) {
    match s
    case Polling(k) => polls == k < 50
    case Served(_) => 1 <= polls <= 50
    case GaveUp => polls == 50
  }

  lemma {:induction false} RoundsFrom(r: Relay, actions: seq<Action>, r': Relay, c: nat, before: nat)
    requires Reaches(r, actions, r') && c < |r'.clients| && before < 50
    requires if c < |r.clients| then r.clients[c].status == Polling(before) else before == 0
    ensures RoundsAgree(r'.clients[c].status, before + Polls(actions, c))
    decreases |actions|
  {
    if actions != [] {
      var a, r1 := actions[0], Step(r, actions[0]);
      if a.Poll? && a.client == c {
        if r1.clients[c].status.Polling? {
          RoundsFrom(r1, actions[1..], r', c, before + 1);
        } else {
          SettledStays(r1, actions[1..], r', c);
        }
      } else {
        RoundsFrom(r1, actions[1..], r', c, before);
      }
    }
  }

  /** In any run a client gives up after exactly fifty rounds, none of which found it a socket;
      one still polling has made fewer, and one that is served was served by its fiftieth. */
  lemma FiftyRounds(actions: seq<Action>, r: Relay, c: nat)
    requires Reaches(EMPTY, actions, r) && c < |r.clients|
    ensures RoundsAgree(r.clients[c].status, Polls(actions, c))
  {
    RoundsFrom(EMPTY, actions, r, c, 0);
  }

  lemma DroppedIsNewer(stack: seq<Waiting>, node: string, sockets: seq<Registration>, clock: nat, p: Round)
    requires StackOk(stack, node, sockets, clock) && p.chosen.Some?
    requires stack == p.rest + Chosen(p) + p.dropped
    ensures p.dropped != [] ==> p.dropped[0] in p.dropped && p.chosen.value.connectedAt <= p.dropped[0].connectedAt
  {
    assert stack[|p.rest|] == p.chosen.value;
    assert p.dropped != [] ==> stack[|p.rest| + 1] == p.dropped[0];
  }

  lemma NewestIsTop(stack: seq<Waiting>, node: string, sockets: seq<Registration>, clock: nat, now: nat, p: Round)
    requires StackOk(stack, node, sockets, clock) && RoundSpec(stack, now, TTL, p)
    ensures p.chosen.None? <==> forall w :: w in stack ==> !Unexpired(w, now, TTL)
    ensures p.chosen.Some? ==> stack != [] && p.chosen.value == stack[|stack| - 1] && p.dropped == []
    ensures forall w :: w in stack ==> w.connectedAt <= stack[|stack| - 1].connectedAt
  {
    RoundMembers(stack, p);
    if p.chosen.Some? {
      DroppedIsNewer(stack, node, sockets, clock, p);
    } else {
      assert stack == p.dropped;
    }
  }
}
