/** The virtual subnet: address allocation, and the hostname and address indexes. */
module VirtualNetwork {
  import opened Base
  import Hostname

  datatype Ipv4 = Ipv4(a: byte, b: byte, c: byte, d: byte)

  const CLIENT_ADDR := Ipv4(10, 88, 0, 2)
  const DNS_ADDR := Ipv4(10, 88, 0, 1)
  const MAX_SERVICES := 201

  datatype PublishedService = PublishedService(id: string, lab: Option<string>, kind: string)

  datatype VirtualService = VirtualService(id: string, hostname: string, addr: Ipv4, kind: string)

  datatype Network = Network(
    services: seq<VirtualService>,
    byHostname: map<string, nat>,
    byAddr: map<Ipv4, nat>)

  /** `char::to_lowercase`, one character to several. */
  type Lowering = char -> string

  function LowerAll(lower: Lowering, s: string): string {
    if s == "" then "" else lower(s[0]) + LowerAll(lower, s[1..])
  }

  function HostnameOf(lower: Lowering, s: PublishedService): string {
    Hostname.Label(LowerAll(lower, if s.lab.Some? then s.lab.value else s.id)) + ".medium"
  }

  /** How services are named; any way will do for what follows. */
  type Naming = PublishedService -> string

  function NamesOf(lower: Lowering): Naming {
    (s: PublishedService) => HostnameOf(lower, s)
  }

  /** `service_addr`: host number 10 + index, refused above 254. */
  function ServiceAddr(index: nat): Option<Ipv4> {
    if 10 + index > 254 then None else Some(Ipv4(10, 88, 0, 10 + index))
  }

  // --------------------------------------------------------------- reference scans

  /** The last service with this hostname. */
  function LastWithHostname(services: seq<VirtualService>, h: string): Option<nat> {
    if services == [] then None
    else if services[|services| - 1].hostname == h then Some(|services| - 1)
    else LastWithHostname(services[..|services| - 1], h)
  }

  /** The first service with this address. */
  function FirstWithAddr(services: seq<VirtualService>, a: Ipv4): Option<nat> {
    if services == [] then None
    else if services[0].addr == a then Some(0)
    else match FirstWithAddr(services[1..], a)
         case None => None
         case Some(i) => Some(i + 1)
  }

  function Get<K, V>(m: map<K, V>, k: K): Option<V> {
    if k in m then Some(m[k]) else None
  }

  /** Both indexes agree with scans of the service list. */
  ghost predicate Indexed(net: Network) {
    && (forall h :: Get(net.byHostname, h) == LastWithHostname(net.services, h))
    && (forall a :: Get(net.byAddr, a) == FirstWithAddr(net.services, a))
  }

  /** What becomes of published service `i`. */
  function ServiceFor(name: Naming, s: PublishedService, i: nat): VirtualService
    requires i < MAX_SERVICES
  {
    VirtualService(s.id, name(s), Ipv4(10, 88, 0, 10 + i), s.kind)
  }

  /** The services are the published ones in order, at consecutive addresses. */
  ghost predicate Allocated(name: Naming, published: seq<PublishedService>, services: seq<VirtualService>) {
    |services| == |published| && AllocatedSoFar(name, published, services)
  }

  ghost predicate AllocatedSoFar(name: Naming, published: seq<PublishedService>, services: seq<VirtualService>) {
    && |services| <= |published| && |services| <= MAX_SERVICES
    && forall i :: 0 <= i < |services| ==> services[i] == ServiceFor(name, published[i], i)
  }

  lemma LastSnoc(services: seq<VirtualService>, v: VirtualService, h: string)
    ensures LastWithHostname(services + [v], h) ==
            if v.hostname == h then Some(|services|) else LastWithHostname(services, h)
  {
    assert (services + [v])[..|services|] == services;
  }

  lemma {:induction false} FirstSnoc(services: seq<VirtualService>, v: VirtualService, a: Ipv4)
    ensures FirstWithAddr(services + [v], a) ==
            if FirstWithAddr(services, a).Some? then FirstWithAddr(services, a)
            else if v.addr == a then Some(|services|) else None
  {
    if services != [] {
      assert (services + [v])[1..] == services[1..] + [v];
      FirstSnoc(services[1..], v, a);
    }
  }

  lemma {:induction false} FirstFinds(services: seq<VirtualService>, a: Ipv4)
    ensures match FirstWithAddr(services, a)
            case Some(i) => i < |services| && services[i].addr == a && forall j :: 0 <= j < i ==> services[j].addr != a
            case None => forall j :: 0 <= j < |services| ==> services[j].addr != a
  {
    if services != [] && services[0].addr != a {
      FirstFinds(services[1..], a);
      assert forall j :: 1 <= j < |services| ==> services[j] == services[1..][j - 1];
    }
  }

  lemma {:induction false} LastFinds(services: seq<VirtualService>, h: string)
    ensures match LastWithHostname(services, h)
            case Some(i) =>
              && i < |services| && services[i].hostname == h
              && forall j :: i < j < |services| ==> services[j].hostname != h
            case None => forall j :: 0 <= j < |services| ==> services[j].hostname != h
  {
    if services != [] {
      LastFinds(services[..|services| - 1], h);
    }
  }

  /** Inserting a service at a new address keeps both indexes: a repeated hostname now
      leads to the newcomer. */
  lemma InsertKeepsIndexed(net: Network, v: VirtualService)
    requires Indexed(net)
    requires forall j :: 0 <= j < |net.services| ==> net.services[j].addr != v.addr
    ensures Indexed(Network(net.services + [v], net.byHostname[v.hostname := |net.services|],
                            net.byAddr[v.addr := |net.services|]))
  {
    var n := |net.services|;
    forall h ensures Get(net.byHostname[v.hostname := n], h) == LastWithHostname(net.services + [v], h) {
      assert Get(net.byHostname, h) == LastWithHostname(net.services, h);
      LastSnoc(net.services, v, h);
    }
    forall a ensures Get(net.byAddr[v.addr := n], a) == FirstWithAddr(net.services + [v], a) {
      assert Get(net.byAddr, a) == FirstWithAddr(net.services, a);
      FirstSnoc(net.services, v, a);
      FirstFinds(net.services, a);
    }
  }

  lemma {:induction false} NextAllocated(name: Naming, published: seq<PublishedService>,
                                         services: seq<VirtualService>)
    requires AllocatedSoFar(name, published, services) && |services| < |published| && |services| < MAX_SERVICES
    ensures AllocatedSoFar(name, published, services + [ServiceFor(name, published[|services|], |services|)])
  {
    var n := |services|;
    var r := services + [ServiceFor(name, published[n], n)];
    forall i | 0 <= i < |r| ensures r[i] == ServiceFor(name, published[i], i) {
      if i < n {
        assert r[i] == services[i];
      }
    }
  }

  /** `VirtualNetwork::new`: succeeds exactly for up to 201 services. */
  method New(lower: Lowering, published: seq<PublishedService>) returns (net: Option<Network>)
    ensures net.Some? <==> |published| <= MAX_SERVICES
    ensures net.Some? ==> Allocated(NamesOf(lower), published, net.value.services) && Indexed(net.value)
  {
    var services: seq<VirtualService> := [];
    var byHostname: map<string, nat> := map[];
    var byAddr: map<Ipv4, nat> := map[];
    for i := 0 to |published|
      invariant |services| == i && AllocatedSoFar(NamesOf(lower), published, services)
      invariant Indexed(Network(services, byHostname, byAddr))
    {
      if i > 200 {
        return None;
      }
      var addr := ServiceAddr(i);
      if addr.None? {
        return None;
      }
      var hostname := HostnameOf(lower, published[i]);
      var v := VirtualService(published[i].id, hostname, addr.value, published[i].kind);
      NextAllocated(NamesOf(lower), published, services);
      assert forall j :: 0 <= j < |services| ==> services[j].addr != v.addr;
      InsertKeepsIndexed(Network(services, byHostname, byAddr), v);
      byHostname := byHostname[hostname := |services|];
      byAddr := byAddr[addr.value := |services|];
      services := services + [v];
    }
    net := Some(Network(services, byHostname, byAddr));
  }

  // ------------------------------------------------------------------- lookups

  /** The longest prefix that does not end in a dot; only dots are cut off. */
  function TrimDots(s: string): (t: string)
    ensures t <= s && (t == "" || t[|t| - 1] != '.')
    ensures forall i :: |t| <= i < |s| ==> s[i] == '.'
  {
    if s != "" && s[|s| - 1] == '.' then TrimDots(s[..|s| - 1]) else s
  }

  function ServiceAt(net: Network, i: Option<nat>): Option<VirtualService> {
    if i.Some? && i.value < |net.services| then Some(net.services[i.value]) else None
  }

  function ResolveHostname(net: Network, h: string): Option<VirtualService> {
    ServiceAt(net, Get(net.byHostname, AsciiLower(TrimDots(h))))
  }

  function ServiceForAddr(net: Network, a: Ipv4): Option<VirtualService> {
    ServiceAt(net, Get(net.byAddr, a))
  }

  /** Addresses are pairwise distinct, inside 10.88.0.0/24 and clear of both fixed hosts. */
  lemma AddressesDistinct(name: Naming, published: seq<PublishedService>, net: Network, i: nat, j: nat)
    requires Allocated(name, published, net.services) && i < |net.services| && j < |net.services|
    ensures net.services[i].addr == Ipv4(10, 88, 0, 10 + i)
    ensures net.services[i].addr == net.services[j].addr <==> i == j
    ensures net.services[i].addr != CLIENT_ADDR && net.services[i].addr != DNS_ADDR
    ensures (net.services[i].addr.a, net.services[i].addr.b, net.services[i].addr.c) == (10, 88, 0)
    ensures 10 <= net.services[i].addr.d <= 210
  {
  }

  lemma FirstIsOwn(name: Naming, published: seq<PublishedService>, services: seq<VirtualService>, i: nat)
    requires Allocated(name, published, services) && i < |services|
    ensures FirstWithAddr(services, services[i].addr) == Some(i)
  {
    FirstFinds(services, services[i].addr);
    var first := FirstWithAddr(services, services[i].addr);
    assert first.Some? ==> services[first.value].addr.d == 10 + first.value;
  }

  lemma AddressRoutesBack(name: Naming, published: seq<PublishedService>, net: Network, i: nat)
    requires Allocated(name, published, net.services) && Indexed(net) && i < |net.services|
    ensures ServiceForAddr(net, net.services[i].addr) == Some(net.services[i])
  {
    FirstIsOwn(name, published, net.services, i);
    assert Get(net.byAddr, net.services[i].addr) == Some(i);
  }

  lemma HostnameFindsLast(net: Network, h: string)
    requires Indexed(net)
    ensures Get(net.byHostname, h) == LastWithHostname(net.services, h)
    ensures ServiceAt(net, Get(net.byHostname, h)).Some? <==> LastWithHostname(net.services, h).Some?
  {
    LastFinds(net.services, h);
  }

  /** Whatever a hostname resolves to is the last service of that name, and its address
      routes back to that very service. */
  lemma ResolvedRoutesBack(name: Naming, published: seq<PublishedService>, net: Network, h: string)
    requires Allocated(name, published, net.services) && Indexed(net)
    ensures var asked := AsciiLower(TrimDots(h));
            match LastWithHostname(net.services, asked)
            case None => ResolveHostname(net, h).None?
            case Some(i) =>
              && i < |net.services|
              && ResolveHostname(net, h) == Some(net.services[i])
              && ServiceForAddr(net, net.services[i].addr) == Some(net.services[i])
  {
    var asked := AsciiLower(TrimDots(h));
    LastFinds(net.services, asked);
    HostnameFindsLast(net, asked);
    var i := LastWithHostname(net.services, asked);
    if i.Some? {
      AddressRoutesBack(name, published, net, i.value);
    }
  }
}
