/** The order in which `connect_session_service_tls` tries its candidates. */
module ConnectOrder {
  import opened Base
  import opened Sorting
  import opened Candidates

  datatype Mode = Auto | RelayOnly

  datatype PeerKind = DirectTcp | RelayTcp | WssRelay

  datatype PeerCandidate = PeerCandidate(kind: PeerKind, addr: string, priority: int)

  datatype SessionGrant = SessionGrant(legacy: seq<PeerCandidate>, ice: seq<IceCandidate>)

  /** One connection attempt; `round` counts the tries of a legacy candidate from 1. */
  datatype Attempt = Ice(ice: IceCandidate) | Legacy(peer: PeerCandidate, round: nat)

  function ByPriority(): Order<PeerCandidate> {
    (l: PeerCandidate, r: PeerCandidate) => l.priority >= r.priority
  }

  predicate IsRelay(c: PeerCandidate) {
    c.kind == RelayTcp || c.kind == WssRelay
  }

  function RelaysOnly(cs: seq<PeerCandidate>): (r: seq<PeerCandidate>)
    ensures forall c :: c in r <==> c in cs && c.kind != DirectTcp
  {
    if cs == [] then [] else (if IsRelay(cs[0]) then [cs[0]] else []) + RelaysOnly(cs[1..])
  }

  /** `ordered_legacy_candidates_for_mode`. */
  function OrderedLegacy(g: SessionGrant, mode: Mode): seq<PeerCandidate> {
    Sort(if mode == RelayOnly then RelaysOnly(g.legacy) else g.legacy, ByPriority())
  }

  /** Descending priority; equal priorities keep the grant's order; nothing lost or added; and
      these facts leave only this list. */
  lemma LegacyOrder(g: SessionGrant, mode: Mode, other: seq<PeerCandidate>)
    ensures var input := if mode == RelayOnly then RelaysOnly(g.legacy) else g.legacy;
            var list := OrderedLegacy(g, mode);
            && multiset(list) == multiset(input)
            && (forall i, j :: 0 <= i < j < |list| ==> list[i].priority >= list[j].priority)
            && (Ordered(other, ByPriority())
                && (forall e :: Class(other, e, ByPriority()) == Class(input, e, ByPriority()))
                ==> other == list)
  {
    var input := if mode == RelayOnly then RelaysOnly(g.legacy) else g.legacy;
    var le := ByPriority();
    SortIsStable(input, le);
    var list := OrderedLegacy(g, mode);
    assert forall i, j :: 0 <= i < j < |list| ==> le(list[i], list[j]);
    if Ordered(other, le) && forall e :: Class(other, e, le) == Class(input, e, le) {
      forall e ensures Class(other, e, le) == Class(list, e, le) {
        assert Class(list, e, le) == Class(input, e, le);
      }
      StableSortUnique(other, list, le);
    }
  }

  // ---------------------------------------------------------------- the plan

  function Usable(cs: seq<IceCandidate>, usable: IceCandidate -> bool): seq<Attempt> {
    if cs == [] then []
    else (if usable(cs[0]) then [Ice(cs[0])] else []) + Usable(cs[1..], usable)
  }

  function Rounds(c: PeerCandidate, n: nat): (r: seq<Attempt>)
    ensures |r| == n
    ensures forall i :: 0 <= i < n ==> r[i] == Legacy(c, i + 1)
  {
    seq(n, i requires 0 <= i < n => Legacy(c, i + 1))
  }

  function Repeated(cs: seq<PeerCandidate>, n: nat): seq<Attempt> {
    if cs == [] then [] else Rounds(cs[0], n) + Repeated(cs[1..], n)
  }

  function Tries(attempts: nat): nat {
    if attempts == 0 then 1 else attempts
  }

  /** Every attempt that would be made if all failed, in order. */
  function Plan(g: SessionGrant, mode: Mode, preferred: Option<IceCandidate>, usable: IceCandidate -> bool,
                attempts: nat): seq<Attempt> {
    (if mode == Auto then Usable(IceChecklist(g.ice, preferred), usable) else [])
    + Repeated(OrderedLegacy(g, mode), Tries(attempts))
  }

  /** What the k-th attempt of a call would do; any behaviour over time is allowed. */
  type Oracle = (nat, Attempt) -> bool

  /** `failures` has been tried without success and `rest` is still to come. */
  ghost predicate Progress(plan: seq<Attempt>, failures: seq<Attempt>, rest: seq<Attempt>, succeeds: Oracle) {
    && plan == failures + rest
    && (forall k :: 0 <= k < |failures| ==> !succeeds(k, failures[k]))
  }

  /** The outcome of trying a plan in order: its first success, or every attempt failed. */
  ghost predicate FirstSuccess(plan: seq<Attempt>, connected: Option<Attempt>,
                               failures: seq<Attempt>, succeeds: Oracle) {
    && failures <= plan
    && (forall k :: 0 <= k < |failures| ==> !succeeds(k, plan[k]))
    && (if connected.Some? then
          && |failures| < |plan| && connected.value == plan[|failures|]
          && succeeds(|failures|, connected.value)
        else failures == plan)
  }

  /** The ICE loop, in the order of the checklist. */
  method TryIce(list: seq<IceCandidate>, usable: IceCandidate -> bool, succeeds: Oracle, ghost later: seq<Attempt>)
    returns (connected: Option<Attempt>, failures: seq<Attempt>)
    ensures connected.None? ==> Progress(Usable(list, usable) + later, failures, later, succeeds)
    ensures connected.Some? ==> FirstSuccess(Usable(list, usable) + later, connected, failures, succeeds)
  {
    ghost var plan := Usable(list, usable) + later;
    failures := [];
    connected := None;
    var i := 0;
    while i < |list|
      invariant i <= |list|
      invariant Progress(plan, failures, Usable(list[i..], usable) + later, succeeds)
    {
      assert list[i..][0] == list[i] && list[i..][1..] == list[i + 1..];
      if usable(list[i]) {
        var a := Ice(list[i]);
        ghost var rest := Usable(list[i + 1..], usable) + later;
        assert Usable(list[i..], usable) + later == [a] + rest;
        if succeeds(|failures|, a) {
          return Some(a), failures;
        }
        failures := failures + [a];
      }
      i := i + 1;
    }
  }

  /** The retry loop for one legacy candidate. */
  method TryPeer(c: PeerCandidate, tries: nat, tried: seq<Attempt>, succeeds: Oracle,
                 ghost plan: seq<Attempt>, ghost later: seq<Attempt>)
    returns (connected: Option<Attempt>, failures: seq<Attempt>)
    requires Progress(plan, tried, Rounds(c, tries) + later, succeeds)
    ensures connected.None? ==> Progress(plan, failures, later, succeeds)
    ensures connected.Some? ==> FirstSuccess(plan, connected, failures, succeeds)
  {
    ghost var rounds := Rounds(c, tries);
    failures := tried;
    connected := None;
    var round := 1;
    while round <= tries
      invariant 1 <= round <= tries + 1
      invariant Progress(plan, failures, rounds[round - 1..] + later, succeeds)
    {
      var a := Legacy(c, round);
      assert rounds[round - 1..] + later == [a] + (rounds[round..] + later);
      if succeeds(|failures|, a) {
        return Some(a), failures;
      }
      failures := failures + [a];
      round := round + 1;
    }
    assert rounds[tries..] + later == later;
  }

  /** Against any oracle the result is the first success of the plan, and the failure list has
      exactly one entry per failed attempt, in order. */
  method ConnectServiceTls(g: SessionGrant, mode: Mode, preferred: Option<IceCandidate>,
                           usable: IceCandidate -> bool, attempts: nat, succeeds: Oracle)
    returns (connected: Option<Attempt>, failures: seq<Attempt>)
    ensures FirstSuccess(Plan(g, mode, preferred, usable, attempts), connected, failures, succeeds)
  {
    var tries := Tries(attempts);
    ghost var plan := Plan(g, mode, preferred, usable, attempts);
    var peers := OrderedLegacy(g, mode);
    failures := [];
    if mode == Auto {
      connected, failures := TryIce(IceChecklist(g.ice, preferred), usable, succeeds, Repeated(peers, tries));
      if connected.Some? {
        return;
      }
    }
    var j := 0;
    while j < |peers|
      invariant j <= |peers|
      invariant Progress(plan, failures, Repeated(peers[j..], tries), succeeds)
    {
      assert peers[j..][0] == peers[j] && peers[j..][1..] == peers[j + 1..];
      connected, failures := TryPeer(peers[j], tries, failures, succeeds, plan, Repeated(peers[j + 1..], tries));
      if connected.Some? {
        return;
      }
      j := j + 1;
    }
    connected := None;
  }

  // ------------------------------------------------------------ the plan, position by position

  /** Filtering goes candidate by candidate and keeps the order. */
  lemma {:induction false} UsableAppend(a: seq<IceCandidate>, b: seq<IceCandidate>, usable: IceCandidate -> bool)
    ensures Usable(a + b, usable) == Usable(a, usable) + Usable(b, usable)
    ensures forall x :: x in Usable(a, usable) <==> x.Ice? && x.ice in a && usable(x.ice)
    decreases |a|
  {
    if a == [] {
      assert a + b == b;
    } else {
      UsableAppend(a[1..], b, usable);
      assert (a + b)[0] == a[0] && (a + b)[1..] == a[1..] + b;
      Regroup(if usable(a[0]) then [Ice(a[0])] else [], Usable(a[1..], usable), Usable(b, usable));
    }
  }

  /** Candidate `j` is tried `n` times in a row, after the `n` tries of each earlier one. */
  lemma {:induction false} RepeatedAt(cs: seq<PeerCandidate>, n: nat, j: nat, round: nat)
    requires j < |cs| && 1 <= round <= n
    ensures |Repeated(cs, n)| == |cs| * n && 0 <= j * n + round - 1 < |cs| * n
    ensures Repeated(cs, n)[j * n + round - 1] == Legacy(cs[j], round)
    decreases |cs|
  {
    RepeatedLength(cs, n);
    RepeatedLength(cs[1..], n);
    assert |cs| * n == n + |cs[1..]| * n;
    if j > 0 {
      RepeatedAt(cs[1..], n, j - 1, round);
      assert j * n == n + (j - 1) * n;
    } else {
      assert j * n == 0;
    }
  }

  lemma {:induction false} RepeatedLength(cs: seq<PeerCandidate>, n: nat)
    ensures |Repeated(cs, n)| == |cs| * n
    decreases |cs|
  {
    if cs != [] {
      RepeatedLength(cs[1..], n);
      assert |cs| * n == n + |cs[1..]| * n;
    }
  }

  /** The plan of a call: first, except in relay-only mode, each usable candidate of the
      checklist once; then each legacy candidate `attempts` times in a row, or once if
      `attempts` is 0, counting its rounds from 1. */
  lemma PlanShape(g: SessionGrant, mode: Mode, preferred: Option<IceCandidate>, usable: IceCandidate -> bool,
                  attempts: nat, j: nat, round: nat)
    requires j < |OrderedLegacy(g, mode)| && round >= 1 && (round <= attempts || round == 1)
    ensures var plan, list := Plan(g, mode, preferred, usable, attempts), OrderedLegacy(g, mode);
            var ice := if mode == Auto then Usable(IceChecklist(g.ice, preferred), usable) else [];
            var n := if attempts == 0 then 1 else attempts;
            && ice <= plan && |plan| == |ice| + |list| * n && |ice| + j * n + round - 1 < |plan|
            && plan[|ice| + j * n + round - 1] == Legacy(list[j], round)
  {
    var n := if attempts == 0 then 1 else attempts;
    RepeatedAt(OrderedLegacy(g, mode), n, j, round);
  }

  // ----------------------------------------------------------- what is never tried

  lemma {:induction false} RepeatedMembers(cs: seq<PeerCandidate>, n: nat)
    ensures forall a :: a in Repeated(cs, n) ==> a.Legacy? && a.peer in cs && 1 <= a.round <= n
  {
    if cs != [] {
      RepeatedMembers(cs[1..], n);
    }
  }

  /** Relay-only mode never tries ICE or direct TCP. */
  lemma RelayOnlyStaysOnRelays(g: SessionGrant, preferred: Option<IceCandidate>, usable: IceCandidate -> bool,
                               attempts: nat, a: Attempt)
    requires a in Plan(g, RelayOnly, preferred, usable, attempts)
    ensures a.Legacy? && a.peer.kind != DirectTcp && a.peer in g.legacy
  {
    var list := OrderedLegacy(g, RelayOnly);
    RepeatedMembers(list, Tries(attempts));
    SortIsStable(RelaysOnly(g.legacy), ByPriority());
    assert a.peer in multiset(list) && a.peer in RelaysOnly(g.legacy);
  }
}
