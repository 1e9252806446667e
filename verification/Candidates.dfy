/** ICE candidates from two sides: the control plane names and lists them in a grant, the
    client sorts them into its checklist.  The checklist is unique only because of the names. */
module Candidates {
  import opened Base
  import opened Sorting

  datatype IceKind = Host | Srflx | Relay

  datatype IceCandidate = IceCandidate(
    foundation: string, transport: string, priority: nat, addr: string, port: nat, kind: IceKind)

  function KindText(k: IceKind): string {
    match k
    case Host => "host"
    case Srflx => "srflx"
    case Relay => "relay"
  }

  function KindRank(k: IceKind): nat {
    match k
    case Host => 0
    case Srflx => 1
    case Relay => 2
  }

  // ------------------------------------------------------------- string order

  predicate StrLe(a: string, b: string) {
    a == "" || (b != "" && (a[0] < b[0] || (a[0] == b[0] && StrLe(a[1..], b[1..]))))
  }

  lemma {:induction false} StrLeTotal(a: string, b: string)
    ensures StrLe(a, b) || StrLe(b, a)
    ensures StrLe(a, b) && StrLe(b, a) ==> a == b
  {
    if a != "" && b != "" && a[0] == b[0] {
      StrLeTotal(a[1..], b[1..]);
      assert a == [a[0]] + a[1..] && b == [b[0]] + b[1..];
    }
  }

  lemma {:induction false} StrLeTrans(a: string, b: string, c: string)
    requires StrLe(a, b) && StrLe(b, c)
    ensures StrLe(a, c)
  {
    if a != "" && a[0] == b[0] && b[0] == c[0] {
      StrLeTrans(a[1..], b[1..], c[1..]);
    }
  }

  /** The strings agree before position `k` and the first has the smaller character there. */
  predicate LessAt(a: string, b: string, k: nat) {
    k < |a| && k < |b| && a[..k] == b[..k] && a[k] < b[k]
  }

  /** The string order is the alphabetical one: a prefix, or smaller at the first difference. */
  lemma {:induction false} StrLeIsAlphabetical(a: string, b: string)
    ensures StrLe(a, b) <==> a <= b || exists k: nat :: LessAt(a, b, k)
  {
    if a != "" && b != "" && a[0] == b[0] {
      var a', b' := a[1..], b[1..];
      StrLeIsAlphabetical(a', b');
      assert a <= b <==> a' <= b' by {
        assert a == [a[0]] + a' && b == [b[0]] + b';
      }
      forall k: nat ensures LessAt(a', b', k) <==> LessAt(a, b, k + 1) {
        LessAtTail(a, b, k);
      }
      assert !LessAt(a, b, 0);
      forall k: nat | LessAt(a, b, k) ensures k > 0 && LessAt(a', b', k - 1) {
        assert LessAt(a, b, k - 1 + 1);
      }
    } else if a != "" && b != "" {
      assert LessAt(a, b, 0) <==> a[0] < b[0];
      assert forall k: nat :: LessAt(a, b, k) && k > 0 ==> a[..k][0] == b[..k][0];
    }
  }

  lemma LessAtTail(a: string, b: string, k: nat)
    requires a != "" && b != "" && a[0] == b[0]
    ensures LessAt(a[1..], b[1..], k) <==> LessAt(a, b, k + 1)
  {
    if k + 1 <= |a| && k + 1 <= |b| {
      assert a[..k + 1] == [a[0]] + a[1..][..k] && b[..k + 1] == [b[0]] + b[1..][..k];
    }
  }

  // ------------------------------------------------------------- checklist

  predicate SameTransport(a: string, b: string) {
    AsciiLower(a) == AsciiLower(b)
  }

  predicate SameIce(l: IceCandidate, r: IceCandidate) {
    SameTransport(l.transport, r.transport) && l.kind == r.kind && l.addr == r.addr && l.port == r.port
  }

  function PreferenceRank(c: IceCandidate, preferred: Option<IceCandidate>): nat {
    if preferred.Some? && SameIce(c, preferred.value) then 0 else 1
  }

  /** The comparator of `ice_checklist`: preferred first, then kind, then priority downwards,
      then foundation. */
  predicate Before(preferred: Option<IceCandidate>, l: IceCandidate, r: IceCandidate) {
    var pl, pr := PreferenceRank(l, preferred), PreferenceRank(r, preferred);
    if pl != pr then pl < pr
    else if l.kind != r.kind then KindRank(l.kind) < KindRank(r.kind)
    else if l.priority != r.priority then l.priority > r.priority
    else StrLe(l.foundation, r.foundation)
  }

  function ChecklistOrder(preferred: Option<IceCandidate>): Order<IceCandidate> {
    (l: IceCandidate, r: IceCandidate) => Before(preferred, l, r)
  }

  function UdpOnly(cs: seq<IceCandidate>): seq<IceCandidate> {
    if cs == [] then []
    else (if SameTransport(cs[0].transport, "udp") then [cs[0]] else []) + UdpOnly(cs[1..])
  }

  function IceChecklist(cs: seq<IceCandidate>, preferred: Option<IceCandidate>): seq<IceCandidate> {
    Sort(UdpOnly(cs), ChecklistOrder(preferred))
  }

  lemma BeforeTotal(p: Option<IceCandidate>, l: IceCandidate, r: IceCandidate)
    ensures Before(p, l, r) || Before(p, r, l)
    ensures Before(p, l, r) && Before(p, r, l) ==> l.foundation == r.foundation
  {
    StrLeTotal(l.foundation, r.foundation);
  }

  lemma BeforeTrans(p: Option<IceCandidate>, x: IceCandidate, y: IceCandidate, z: IceCandidate)
    requires Before(p, x, y) && Before(p, y, z)
    ensures Before(p, x, z)
  {
    if StrLe(x.foundation, y.foundation) && StrLe(y.foundation, z.foundation) {
      StrLeTrans(x.foundation, y.foundation, z.foundation);
    }
  }

  lemma ChecklistPreorder(p: Option<IceCandidate>)
    ensures TotalPreorder(ChecklistOrder(p))
  {
    var le := ChecklistOrder(p);
    forall x, y ensures le(x, y) || le(y, x) {
      BeforeTotal(p, x, y);
    }
    forall x, y, z | le(x, y) && le(y, z) ensures le(x, z) {
      BeforeTrans(p, x, y, z);
    }
  }

  ghost predicate DistinctFoundations(cs: seq<IceCandidate>) {
    forall i, j :: 0 <= i < j < |cs| ==> cs[i].foundation != cs[j].foundation
  }

  lemma {:induction false} UdpOnlyContents(cs: seq<IceCandidate>)
    ensures forall c :: multiset(UdpOnly(cs))[c] == if SameTransport(c.transport, "udp") then multiset(cs)[c] else 0
  {
    if cs != [] {
      UdpOnlyContents(cs[1..]);
      assert cs == [cs[0]] + cs[1..];
      assert multiset(cs) == multiset{cs[0]} + multiset(cs[1..]);
    }
  }

  /** On candidates with pairwise distinct foundations the checklist is the only ordered
      arrangement of the UDP candidates: any ordered permutation of them equals it. */
  lemma ChecklistUnique(cs: seq<IceCandidate>, preferred: Option<IceCandidate>, other: seq<IceCandidate>)
    requires DistinctFoundations(cs)
    requires multiset(other) == multiset(UdpOnly(cs)) && Ordered(other, ChecklistOrder(preferred))
    ensures other == IceChecklist(cs, preferred)
  {
    var le := ChecklistOrder(preferred);
    var mine := IceChecklist(cs, preferred);
    ChecklistPreorder(preferred);
    SortIsStable(UdpOnly(cs), le);
    UdpOnlyContents(cs);
    forall x, y | x in other && y in other && le(x, y) && le(y, x)
      ensures x == y
    {
      BeforeTotal(preferred, x, y);
      assert x in multiset(other) && y in multiset(other);
      assert x in multiset(cs) && y in multiset(cs);
    }
    SortedPermutationUnique(other, mine, le);
  }

  /** Hence it does not depend on the order in which the grant lists them. */
  lemma ChecklistOrderIndependent(a: seq<IceCandidate>, b: seq<IceCandidate>, preferred: Option<IceCandidate>)
    requires DistinctFoundations(a) && multiset(a) == multiset(b)
    ensures IceChecklist(a, preferred) == IceChecklist(b, preferred)
  {
    var le := ChecklistOrder(preferred);
    ChecklistPreorder(preferred);
    SortIsStable(UdpOnly(b), le);
    SamePermutedUdp(a, b);
    ChecklistUnique(a, preferred, IceChecklist(b, preferred));
  }

  predicate Tie(p: Option<IceCandidate>, x: IceCandidate, y: IceCandidate) {
    Before(p, x, y) && Before(p, y, x)
  }

  /** No two different candidates agree on preference, kind, priority and foundation. */
  ghost predicate TieFree(cs: seq<IceCandidate>, p: Option<IceCandidate>) {
    forall i, j :: 0 <= i < j < |cs| && Tie(p, cs[i], cs[j]) ==> cs[i] == cs[j]
  }

  /** With a tie, whichever of the two stands first in the grant stands first in the list. */
  lemma TieFollowsInput(x: IceCandidate, y: IceCandidate, rest: seq<IceCandidate>, p: Option<IceCandidate>)
    requires x != y && Tie(p, x, y)
    ensures Sort([x, y] + rest, ChecklistOrder(p)) != Sort([y, x] + rest, ChecklistOrder(p))
  {
    var le := ChecklistOrder(p);
    ChecklistPreorder(p);
    var a, b := [x, y] + rest, [y, x] + rest;
    SortIsStable(a, le);
    SortIsStable(b, le);
    assert le(x, x) && le(x, y) && le(y, x);
    assert Class(a, x, le)[0] == x;
    assert Class(b, x, le)[0] == y;
  }

  /** Every permutation of the grant's candidates gives the same checklist. */
  ghost predicate OrderIndependent(cs: seq<IceCandidate>, p: Option<IceCandidate>) {
    forall b :: multiset(b) == multiset(cs) ==> IceChecklist(b, p) == IceChecklist(cs, p)
  }

  lemma SamePermutedUdp(a: seq<IceCandidate>, b: seq<IceCandidate>)
    requires multiset(a) == multiset(b)
    ensures multiset(UdpOnly(a)) == multiset(UdpOnly(b))
  {
    UdpOnlyContents(a);
    UdpOnlyContents(b);
  }

  lemma TieFreeSortsAlike(u: seq<IceCandidate>, p: Option<IceCandidate>, v: seq<IceCandidate>)
    requires TieFree(u, p) && multiset(v) == multiset(u)
    ensures Sort(v, ChecklistOrder(p)) == Sort(u, ChecklistOrder(p))
  {
    var le := ChecklistOrder(p);
    ChecklistPreorder(p);
    SortIsStable(u, le);
    SortIsStable(v, le);
    forall x, y | x in Sort(v, le) && y in Sort(v, le) && le(x, y) && le(y, x)
      ensures x == y
    {
      assert x in multiset(Sort(v, le)) && y in multiset(Sort(v, le));
      assert x in multiset(u) && y in multiset(u);
    }
    SortedPermutationUnique(Sort(v, le), Sort(u, le), le);
  }

  function NotUdp(cs: seq<IceCandidate>): seq<IceCandidate> {
    if cs == [] then []
    else (if SameTransport(cs[0].transport, "udp") then [] else [cs[0]]) + NotUdp(cs[1..])
  }

  lemma {:induction false} NotUdpContents(cs: seq<IceCandidate>)
    ensures multiset(cs) == multiset(UdpOnly(cs)) + multiset(NotUdp(cs))
    decreases |cs|
  {
    if cs != [] {
      NotUdpContents(cs[1..]);
      assert cs == [cs[0]] + cs[1..];
      assert multiset(cs) == multiset{cs[0]} + multiset(cs[1..]);
    }
  }

  lemma {:induction false} NoUdpLeft(cs: seq<IceCandidate>)
    ensures UdpOnly(NotUdp(cs)) == []
    decreases |cs|
  {
    if cs != [] {
      NoUdpLeft(cs[1..]);
      var rest := NotUdp(cs[1..]);
      if !SameTransport(cs[0].transport, "udp") {
        assert ([cs[0]] + rest)[1..] == rest;
      } else {
        assert [] + rest == rest;
      }
    }
  }

  lemma {:induction false} UdpOnlyAppend(a: seq<IceCandidate>, b: seq<IceCandidate>)
    ensures UdpOnly(a + b) == UdpOnly(a) + UdpOnly(b)
    decreases |a|
  {
    if a == [] {
      assert a + b == b;
    } else {
      UdpOnlyAppend(a[1..], b);
      assert (a + b)[0] == a[0] && (a + b)[1..] == a[1..] + b;
      var head := if SameTransport(a[0].transport, "udp") then [a[0]] else [];
      assert head + (UdpOnly(a[1..]) + UdpOnly(b)) == head + UdpOnly(a[1..]) + UdpOnly(b);
    }
  }

  lemma {:induction false} AllUdp(cs: seq<IceCandidate>)
    requires forall i :: 0 <= i < |cs| ==> SameTransport(cs[i].transport, "udp")
    ensures UdpOnly(cs) == cs
  {
    if cs != [] {
      AllUdp(cs[1..]);
    }
  }

  lemma UdpMembers(cs: seq<IceCandidate>, v: seq<IceCandidate>)
    requires multiset(v) == multiset(UdpOnly(cs))
    ensures UdpOnly(v) == v
  {
    UdpOnlyContents(cs);
    forall i | 0 <= i < |v| ensures SameTransport(v[i].transport, "udp") {
      assert v[i] in multiset(v);
    }
    AllUdp(v);
  }

  /** Any order of the UDP candidates is the UDP part of some order of the grant. */
  lemma Rearranged(cs: seq<IceCandidate>, v: seq<IceCandidate>)
    requires multiset(v) == multiset(UdpOnly(cs))
    ensures multiset(v + NotUdp(cs)) == multiset(cs) && UdpOnly(v + NotUdp(cs)) == v
  {
    NotUdpContents(cs);
    NoUdpLeft(cs);
    UdpMembers(cs, v);
    UdpOnlyAppend(v, NotUdp(cs));
  }

  /** Two orders of the UDP candidates that sort differently come from two orders of the grant. */
  lemma {:induction false} DifferentlySorted(cs: seq<IceCandidate>, p: Option<IceCandidate>,
                                             v: seq<IceCandidate>, w: seq<IceCandidate>)
    requires multiset(v) == multiset(UdpOnly(cs)) && multiset(w) == multiset(UdpOnly(cs))
    requires Sort(v, ChecklistOrder(p)) != Sort(w, ChecklistOrder(p))
    ensures !OrderIndependent(cs, p)
  {
    Rearranged(cs, v);
    Rearranged(cs, w);
    TwoOrders(cs, p, v + NotUdp(cs), w + NotUdp(cs));
  }

  lemma {:induction false} TwoOrders(cs: seq<IceCandidate>, p: Option<IceCandidate>,
                                     a: seq<IceCandidate>, b: seq<IceCandidate>)
    requires multiset(a) == multiset(cs) && multiset(b) == multiset(cs)
    requires IceChecklist(a, p) != IceChecklist(b, p)
    ensures !OrderIndependent(cs, p)
  {
  }

  lemma TieIsDependent(cs: seq<IceCandidate>, p: Option<IceCandidate>, i: nat, j: nat)
    requires i < j < |UdpOnly(cs)| && Tie(p, UdpOnly(cs)[i], UdpOnly(cs)[j]) && UdpOnly(cs)[i] != UdpOnly(cs)[j]
    ensures !OrderIndependent(cs, p)
  {
    var u := UdpOnly(cs);
    var rest := Extract(u, i, j);
    TieFollowsInput(u[i], u[j], rest, p);
    DifferentlySorted(cs, p, [u[i], u[j]] + rest, [u[j], u[i]] + rest);
  }

  /** The checklist is independent of the order of the grant if and only if the grant's UDP
      candidates are free of ties. */
  lemma OrderIndependentIffTieFree(cs: seq<IceCandidate>, p: Option<IceCandidate>)
    ensures OrderIndependent(cs, p) <==> TieFree(UdpOnly(cs), p)
  {
    var u := UdpOnly(cs);
    if TieFree(u, p) {
      forall b | multiset(b) == multiset(cs) ensures IceChecklist(b, p) == IceChecklist(cs, p) {
        SamePermutedUdp(b, cs);
        TieFreeSortsAlike(u, p, UdpOnly(b));
      }
    } else {
      var i, j :| 0 <= i < j < |u| && Tie(p, u[i], u[j]) && u[i] != u[j];
      TieIsDependent(cs, p, i, j);
    }
  }

  lemma Extract(cs: seq<IceCandidate>, i: nat, j: nat) returns (rest: seq<IceCandidate>)
    requires i < j < |cs|
    ensures multiset([cs[i], cs[j]] + rest) == multiset(cs)
    ensures multiset([cs[j], cs[i]] + rest) == multiset(cs)
  {
    var a, b, c := cs[..i], cs[i + 1..j], cs[j + 1..];
    rest := a + b + c;
    assert cs == a + [cs[i]] + b + [cs[j]] + c;
    assert multiset(cs) == multiset(a) + multiset(b) + multiset(c) + multiset{cs[i], cs[j]};
    assert multiset(rest) == multiset(a) + multiset(b) + multiset(c);
  }

  /** Matches of the preferred candidate come before everything else. */
  lemma PreferredFirst(cs: seq<IceCandidate>, preferred: IceCandidate, i: nat, j: nat)
    requires i < j < |IceChecklist(cs, Some(preferred))|
    requires SameIce(IceChecklist(cs, Some(preferred))[j], preferred)
    ensures SameIce(IceChecklist(cs, Some(preferred))[i], preferred)
  {
    ChecklistPreorder(Some(preferred));
    SortIsStable(UdpOnly(cs), ChecklistOrder(Some(preferred)));
    var s := IceChecklist(cs, Some(preferred));
    assert ChecklistOrder(Some(preferred))(s[i], s[j]);
  }

  /** The candidate has the preferred one's transport, kind, address and port. */
  predicate Preferred(c: IceCandidate, preferred: Option<IceCandidate>) {
    && preferred.Some? && AsciiLower(c.transport) == AsciiLower(preferred.value.transport)
    && c.kind == preferred.value.kind && c.addr == preferred.value.addr && c.port == preferred.value.port
  }

  /** What standing earlier in the checklist means.  Preferred candidates come first; within
      the preferred and within the others local addresses come before reflexive ones and both
      before relays, then higher priorities, then foundations in alphabetical order. */
  lemma ChecklistRules(cs: seq<IceCandidate>, p: Option<IceCandidate>, i: nat, j: nat)
    requires i < j < |IceChecklist(cs, p)|
    ensures var l, r := IceChecklist(cs, p)[i], IceChecklist(cs, p)[j];
            && (Preferred(r, p) ==> Preferred(l, p))
            && (Preferred(l, p) == Preferred(r, p) ==>
                  && (r.kind == Host ==> l.kind == Host)
                  && (r.kind == Srflx ==> l.kind != Relay)
                  && (l.kind == r.kind ==> l.priority >= r.priority)
                  && (l.kind == r.kind && l.priority == r.priority ==>
                        l.foundation <= r.foundation || exists k: nat :: LessAt(l.foundation, r.foundation, k)))
  {
    ChecklistPreorder(p);
    SortIsStable(UdpOnly(cs), ChecklistOrder(p));
    var list := IceChecklist(cs, p);
    assert ChecklistOrder(p)(list[i], list[j]);
    StrLeIsAlphabetical(list[i].foundation, list[j].foundation);
  }

  // ------------------------------------------------------------- the grant

  datatype Endpoint = Endpoint(addr: string, priority: int)

  datatype HostPort = HostPort(host: string, port: nat)

  type Parser = string -> Option<HostPort>

  /** `format!("{kind}-udp-{n}")`. */
  function Foundation(k: IceKind, n: nat): string {
    KindText(k) + "-udp-" + Decimal(n)
  }

  function NodeCandidate(e: Endpoint, hp: HostPort, isLocal: string -> bool, index: nat): IceCandidate {
    var kind := if isLocal(hp.host) then Host else Srflx;
    IceCandidate(Foundation(kind, index + 1), "udp", if e.priority > 0 then e.priority else 0, hp.host, hp.port, kind)
  }

  function RelayCandidate(hp: HostPort): IceCandidate {
    IceCandidate("relay-udp-1", "udp", 10, hp.host, hp.port, Relay)
  }

  datatype Grant = BadAddress | NoGrant | Candidates(list: seq<IceCandidate>)

  /** Endpoint candidates in order, each named by its kind and position. */
  ghost predicate FromEndpoints(cs: seq<IceCandidate>, es: seq<Endpoint>, parse: Parser, isLocal: string -> bool) {
    && |cs| == |es|
    && forall i :: 0 <= i < |es| ==>
         parse(es[i].addr).Some? && cs[i] == NodeCandidate(es[i], parse(es[i].addr).value, isLocal, i)
  }

  lemma FoundationsDiffer(k: IceKind, m: nat, k': IceKind, n: nat)
    requires k != k' || m != n
    ensures Foundation(k, m) != Foundation(k', n)
  {
    var a, b := Foundation(k, m), Foundation(k', n);
    if a == b {
      assert a[0] == b[0] && a[1] == b[1];
      assert KindText(k)[0] == a[0] && KindText(k')[0] == b[0];
      assert k == k';
      var t := KindText(k) + "-udp-";
      assert a[|t|..] == Decimal(m) && b[|t|..] == Decimal(n);
      DecimalInjective(m, n);
    }
  }

  /** The list of a grant: the endpoints in order, then the relay if there is one. */
  ghost predicate Granted(list: seq<IceCandidate>, es: seq<Endpoint>, relay: Option<HostPort>,
                          parse: Parser, isLocal: string -> bool) {
    && |list| == |es| + (if relay.Some? then 1 else 0)
    && FromEndpoints(list[..|es|], es, parse, isLocal)
    && (relay.Some? ==> list[|es|] == RelayCandidate(relay.value))
  }

  /** The name of candidate `i` of a grant. */
  lemma NameAt(list: seq<IceCandidate>, es: seq<Endpoint>, relay: Option<HostPort>,
               parse: Parser, isLocal: string -> bool, i: nat)
    requires Granted(list, es, relay, parse, isLocal) && i < |list|
    ensures list[i].transport == "udp"
    ensures if i < |es| then list[i].kind != Relay && list[i].foundation == Foundation(list[i].kind, i + 1)
            else list[i].foundation == Foundation(Relay, 1) && i == |es|
  {
    if i < |es| {
      assert list[i] == list[..|es|][i];
    }
  }

  /** Candidate by candidate what a grant holds: for endpoint `i` its host and port, its
      priority cut off at zero, and its class and number as name; then the relay with
      priority 10. */
  lemma GrantFields(list: seq<IceCandidate>, es: seq<Endpoint>, relay: Option<HostPort>,
                    parse: Parser, isLocal: string -> bool, i: nat)
    requires Granted(list, es, relay, parse, isLocal) && i < |list|
    ensures list[i].transport == "udp"
    ensures if i < |es| then
              && parse(es[i].addr) == Some(HostPort(list[i].addr, list[i].port))
              && (isLocal(list[i].addr) ==> list[i].kind == Host && list[i].foundation == "host-udp-" + Decimal(i + 1))
              && (!isLocal(list[i].addr) ==>
                    list[i].kind == Srflx && list[i].foundation == "srflx-udp-" + Decimal(i + 1))
              && (es[i].priority >= 0 ==> list[i].priority == es[i].priority)
              && (es[i].priority < 0 ==> list[i].priority == 0)
            else
              && i == |es| && relay == Some(HostPort(list[i].addr, list[i].port))
              && list[i].kind == Relay && list[i].priority == 10 && list[i].foundation == "relay-udp-1"
  {
    if i < |es| {
      assert list[i] == list[..|es|][i];
      assert Foundation(Host, i + 1) == "host-udp-" + Decimal(i + 1);
      assert Foundation(Srflx, i + 1) == "srflx-udp-" + Decimal(i + 1);
    }
  }

  /** The naming scheme never gives two candidates of a grant the same foundation. */
  lemma GrantNamesDiffer(list: seq<IceCandidate>, es: seq<Endpoint>, relay: Option<HostPort>,
                         parse: Parser, isLocal: string -> bool)
    requires Granted(list, es, relay, parse, isLocal)
    ensures DistinctFoundations(list) && UdpOnly(list) == list
  {
    forall i, j | 0 <= i < j < |list| ensures list[i].foundation != list[j].foundation {
      NameAt(list, es, relay, parse, isLocal, i);
      NameAt(list, es, relay, parse, isLocal, j);
      FoundationsDiffer(list[i].kind, i + 1, if j < |es| then list[j].kind else Relay, if j < |es| then j + 1 else 1);
    }
    forall i | 0 <= i < |list| ensures SameTransport(list[i].transport, "udp") {
      NameAt(list, es, relay, parse, isLocal, i);
    }
    AllUdp(list);
  }

  /** Across the two services: however the candidates of any grant are reordered on the way,
      the client's checklist is the same, and it is the only ordered arrangement of them. */
  lemma GrantChecklistUnique(list: seq<IceCandidate>, es: seq<Endpoint>, relay: Option<HostPort>,
                             parse: Parser, isLocal: string -> bool, preferred: Option<IceCandidate>,
                             received: seq<IceCandidate>, other: seq<IceCandidate>)
    requires Granted(list, es, relay, parse, isLocal) && multiset(received) == multiset(list)
    requires multiset(other) == multiset(list) && Ordered(other, ChecklistOrder(preferred))
    ensures other == IceChecklist(received, preferred) == IceChecklist(list, preferred)
  {
    GrantNamesDiffer(list, es, relay, parse, isLocal);
    ChecklistUnique(list, preferred, other);
    ChecklistOrderIndependent(list, received, preferred);
  }

  function ParsedRelay(relay: Option<string>, parse: Parser): Option<HostPort> {
    if relay.None? then None else parse(relay.value)
  }

  /** The endpoint loop: stops at the first address that does not parse. */
  method NodeCandidates(es: seq<Endpoint>, parse: Parser, isLocal: string -> bool)
    returns (cs: Option<seq<IceCandidate>>)
    ensures cs.None? <==> exists i :: 0 <= i < |es| && parse(es[i].addr).None?
    ensures cs.Some? ==> FromEndpoints(cs.value, es, parse, isLocal)
  {
    var list: seq<IceCandidate> := [];
    for i := 0 to |es|
      invariant FromEndpoints(list, es[..i], parse, isLocal)
    {
      var hp := parse(es[i].addr);
      if hp.None? {
        return None;
      }
      list := list + [NodeCandidate(es[i], hp.value, isLocal, i)];
    }
    assert es[..|es|] == es;
    cs := Some(list);
  }

  /** `build_ice_grant`: an error exactly when some address does not parse, no grant exactly
      when there is nothing to list, and otherwise every endpoint in order and the relay
      last, with pairwise distinct foundations. */
  method BuildIceGrant(es: seq<Endpoint>, relay: Option<string>, parse: Parser, isLocal: string -> bool)
    returns (g: Grant)
    ensures g.BadAddress? <==> (exists i :: 0 <= i < |es| && parse(es[i].addr).None?)
                               || (relay.Some? && parse(relay.value).None?)
    ensures g.NoGrant? <==> es == [] && relay.None?
    ensures g.Candidates? ==> Granted(g.list, es, ParsedRelay(relay, parse), parse, isLocal)
    ensures g.Candidates? ==> DistinctFoundations(g.list) && UdpOnly(g.list) == g.list
  {
    var nodes := NodeCandidates(es, parse, isLocal);
    if nodes.None? {
      return BadAddress;
    }
    var cs := nodes.value;
    if relay.Some? {
      var hp := parse(relay.value);
      if hp.None? {
        return BadAddress;
      }
      cs := cs + [RelayCandidate(hp.value)];
    }
    assert cs[..|es|] == nodes.value;
    GrantNamesDiffer(cs, es, ParsedRelay(relay, parse), parse, isLocal);
    if cs == [] {
      return NoGrant;
    }
    g := Candidates(cs);
  }
}
