/** The packet tunnel's route table: a stable allocator of virtual addresses keyed by node,
    service and port. */
module RouteTable {
  import opened Base
  import Hostname

  const FIRST_HOST := 10
  const LAST_HOST := 254

  datatype Request = Request(node: string, service: string, port: nat)

  /** The address is written out by `Address` from the subnet and this host number. */
  datatype Service = Service(request: Request, hostname: string, host: nat)

  datatype Outcome = Assigned(service: Service) | Exhausted | InvalidSubnet

  datatype Table = Table(assignments: map<string, Service>, nextHost: nat)

  const EMPTY := Table(map[], FIRST_HOST)

  /** `"node/service/port"`. */
  function Key(r: Request): string {
    r.node + "/" + r.service + "/" + Decimal(r.port)
  }

  /** `octets` are the parts of the subnet base that read as bytes. */
  function Address(octets: seq<byte>, host: nat): string
    requires |octets| == 4
  {
    Decimal(octets[0]) + "." + Decimal(octets[1]) + "." + Decimal(octets[2]) + "." + Decimal(host)
  }

  /** `lower` is `lowercased()`. */
  function HostnameOf(lower: string -> string, r: Request): string {
    Hostname.Label(lower(r.service)) + "." + Hostname.Label(lower(r.node)) + ".medium"
  }

  datatype Config = Config(octets: seq<byte>, lower: string -> string)

  function NewService(c: Config, r: Request, host: nat): Service {
    Service(r, HostnameOf(c.lower, r), host)
  }

  function OutcomeOf(c: Config, t: Table, r: Request): Outcome {
    if Key(r) in t.assignments then Assigned(t.assignments[Key(r)])
    else if t.nextHost > LAST_HOST then Exhausted
    else if |c.octets| != 4 then InvalidSubnet
    else Assigned(NewService(c, r, t.nextHost))
  }

  function After(c: Config, t: Table, r: Request): Table {
    if OutcomeOf(c, t, r).Assigned? && Key(r) !in t.assignments then
      Table(t.assignments[Key(r) := OutcomeOf(c, t, r).service], t.nextHost + 1)
    else t
  }

  function Run(c: Config, requests: seq<Request>): Table {
    if requests == [] then EMPTY
    else After(c, Run(c, requests[..|requests| - 1]), requests[|requests| - 1])
  }

  class MediumRouteTable {
    const config: Config
    var assignments: map<string, Service>
    var nextHost: nat

    constructor (config: Config)
      ensures this.config == config && View() == EMPTY
    {
      this.config := config;
      assignments := map[];
      nextHost := FIRST_HOST;
    }

    ghost function View(): Table
      reads this
    {
      Table(assignments, nextHost)
    }

    method Assign(r: Request) returns (o: Outcome)
      requires forall s :: Hostname.Lowercase(config.lower(s))
      modifies this
      ensures o == OutcomeOf(config, old(View()), r)
      ensures View() == After(config, old(View()), r)
    {
      var key := Key(r);
      if key in assignments {
        return Assigned(assignments[key]);
      }
      if nextHost > LAST_HOST {
        return Exhausted;
      }
      if |config.octets| != 4 {
        return InvalidSubnet;
      }
      var service := Hostname.SanitizeLabel(config.lower(r.service));
      var node := Hostname.SanitizeLabel(config.lower(r.node));
      var s := Service(r, service + "." + node + ".medium", nextHost);
      nextHost := nextHost + 1;
      assignments := assignments[key := s];
      o := Assigned(s);
    }
  }

  // ------------------------------------------------------------------ whole runs

  /** Position of the first request with this key, or the length. */
  function FirstFor(requests: seq<Request>, key: string): (i: nat)
    ensures i <= |requests|
    ensures i < |requests| ==> Key(requests[i]) == key
    ensures forall j :: 0 <= j < i ==> Key(requests[j]) != key
  {
    if requests == [] || Key(requests[0]) == key then 0 else 1 + FirstFor(requests[1..], key)
  }

  /** The keys requested so far. */
  function Keys(requests: seq<Request>): set<string> {
    set i | 0 <= i < |requests| :: Key(requests[i])
  }

  /** The entry of a key is that of its first request, at a host below the next one. */
  ghost predicate Owned(c: Config, requests: seq<Request>, t: Table, k: string)
    requires k in t.assignments
  {
    && FirstFor(requests, k) < |requests|
    && FIRST_HOST <= t.assignments[k].host < t.nextHost
    && t.assignments[k] == NewService(c, requests[FirstFor(requests, k)], t.assignments[k].host)
  }

  ghost predicate AllOwned(c: Config, requests: seq<Request>, t: Table) {
    forall k :: k in t.assignments ==> Owned(c, requests, t, k)
  }

  ghost predicate HostsDistinct(t: Table) {
    forall k, l :: k in t.assignments && l in t.assignments && k != l ==>
      t.assignments[k].host != t.assignments[l].host
  }

  /** Hosts are handed out in order from 10, one per key, until the pool is empty. */
  ghost predicate Counted(c: Config, requests: seq<Request>, t: Table) {
    && t.nextHost == FIRST_HOST + |t.assignments| <= LAST_HOST + 1
    && (forall k :: k in t.assignments ==> k in Keys(requests))
    && (t.nextHost <= LAST_HOST && |c.octets| == 4 ==> forall k :: k in Keys(requests) ==> k in t.assignments)
    && (|c.octets| != 4 ==> t.assignments == map[])
  }

  lemma AddressInjective(octets: seq<byte>, g: nat, h: nat)
    requires |octets| == 4 && Address(octets, g) == Address(octets, h)
    ensures g == h
  {
    var pre := Decimal(octets[0]) + "." + Decimal(octets[1]) + "." + Decimal(octets[2]) + ".";
    assert Address(octets, g)[|pre|..] == Decimal(g) && Address(octets, h)[|pre|..] == Decimal(h);
    DecimalInjective(g, h);
  }

  lemma {:induction false} FirstSnoc(requests: seq<Request>, r: Request, key: string)
    ensures FirstFor(requests + [r], key) ==
            if FirstFor(requests, key) < |requests| then FirstFor(requests, key)
            else if Key(r) == key then |requests| else |requests| + 1
  {
    if requests != [] && Key(requests[0]) != key {
      assert (requests + [r])[1..] == requests[1..] + [r];
      FirstSnoc(requests[1..], r, key);
    }
  }

  lemma KeysSnoc(requests: seq<Request>, r: Request)
    ensures Keys(requests + [r]) == Keys(requests) + {Key(r)}
  {
    var all := requests + [r];
    assert all[|requests|] == r;
    assert forall i :: 0 <= i < |requests| ==> all[i] == requests[i];
  }

  lemma OwnedStays(c: Config, requests: seq<Request>, r: Request, t: Table, k: string)
    requires k in t.assignments && Owned(c, requests, t, k)
    ensures k in After(c, t, r).assignments && Owned(c, requests + [r], After(c, t, r), k)
  {
    FirstSnoc(requests, r, k);
    var i := FirstFor(requests, k);
    assert (requests + [r])[i] == requests[i];
  }

  lemma StepKeepsOwned(c: Config, requests: seq<Request>, t: Table, r: Request)
    requires AllOwned(c, requests, t) && Counted(c, requests, t)
    ensures AllOwned(c, requests + [r], After(c, t, r))
  {
    var t' := After(c, t, r);
    FirstSnoc(requests, r, Key(r));
    assert (requests + [r])[|requests|] == r;
    forall k | k in t'.assignments ensures Owned(c, requests + [r], t', k) {
      if k in t.assignments {
        OwnedStays(c, requests, r, t, k);
      } else {
        assert k == Key(r) && k !in Keys(requests);
      }
    }
  }

  lemma StepKeepsCounted(c: Config, requests: seq<Request>, t: Table, r: Request)
    requires Counted(c, requests, t)
    ensures Counted(c, requests + [r], After(c, t, r))
  {
    KeysSnoc(requests, r);
  }

  lemma StepKeepsDistinct(c: Config, requests: seq<Request>, t: Table, r: Request)
    requires HostsDistinct(t) && AllOwned(c, requests, t)
    ensures HostsDistinct(After(c, t, r))
  {
    assert forall k :: k in t.assignments ==> Owned(c, requests, t, k);
  }

  lemma {:induction false} RunKeepsInv(c: Config, requests: seq<Request>)
    ensures var t := Run(c, requests); AllOwned(c, requests, t) && Counted(c, requests, t) && HostsDistinct(t)
  {
    if requests != [] {
      var n := |requests| - 1;
      var t := Run(c, requests[..n]);
      RunKeepsInv(c, requests[..n]);
      StepKeepsOwned(c, requests[..n], t, requests[n]);
      StepKeepsCounted(c, requests[..n], t, requests[n]);
      StepKeepsDistinct(c, requests[..n], t, requests[n]);
      assert requests == requests[..n] + [requests[n]];
    }
  }

  /** After any run, whoever is given an address gets the entry of the first request with
      that key: its own exactly when that first request equals it.  A request is refused for
      want of addresses exactly when its key is new and 245 keys already have one. */
  lemma FirstComeOwns(c: Config, before: seq<Request>, r: Request)
    requires |c.octets| == 4
    ensures var o, all := OutcomeOf(c, Run(c, before), r), before + [r];
            var i := FirstFor(all, Key(r));
            !o.InvalidSubnet? && (o.Assigned? ==> i < |all| && o.service.request == all[i])
    ensures OutcomeOf(c, Run(c, before), r).Exhausted? <==>
            Key(r) !in Run(c, before).assignments && |Run(c, before).assignments| == 245
    ensures var o := OutcomeOf(c, Run(c, before), r); o.Assigned? ==> 10 <= o.service.host <= 254
  {
    RunKeepsInv(c, before);
    FirstSnoc(before, r, Key(r));
    var t := Run(c, before);
    if Key(r) in t.assignments {
      assert Owned(c, before, t, Key(r));
    } else if t.nextHost <= LAST_HOST {
      assert FirstFor(before, Key(r)) < |before| ==> Key(r) in Keys(before);
    }
  }

  /** Two requests that are both served get the same address exactly when their keys agree,
      and then the same entry, whatever is requested before and between. */
  lemma SameAddressIff(c: Config, before: seq<Request>, q: Request, between: seq<Request>, r: Request)
    requires |c.octets| == 4
    requires OutcomeOf(c, Run(c, before), q).Assigned?
    requires OutcomeOf(c, Run(c, before + [q] + between), r).Assigned?
    ensures var first := OutcomeOf(c, Run(c, before), q).service;
            var second := OutcomeOf(c, Run(c, before + [q] + between), r).service;
            && (Address(c.octets, first.host) == Address(c.octets, second.host) <==> Key(q) == Key(r))
            && (Key(q) == Key(r) ==> first == second)
  {
    var mid := before + [q] + between;
    var first, second := OutcomeOf(c, Run(c, before), q).service, OutcomeOf(c, Run(c, mid), r).service;
    Kept(c, before + [q], between + [r], Key(q));
    assert before + [q] + (between + [r]) == mid + [r];
    RunKeepsInv(c, mid + [r]);
    var t := Run(c, mid + [r]);
    assert t.assignments[Key(q)] == first && t.assignments[Key(r)] == second;
    if Address(c.octets, first.host) == Address(c.octets, second.host) {
      AddressInjective(c.octets, first.host, second.host);
    }
  }

  lemma {:induction false} Kept(c: Config, before: seq<Request>, more: seq<Request>, k: string)
    requires k in Run(c, before).assignments
    ensures k in Run(c, before + more).assignments
    ensures Run(c, before + more).assignments[k] == Run(c, before).assignments[k]
    decreases |more|
  {
    if more == [] {
      assert before + more == before;
    } else {
      var n := |more| - 1;
      Kept(c, before, more[..n], k);
      assert (before + more)[..|before + more| - 1] == before + more[..n];
    }
  }

  // ------------------------------------------------------------------------ hostnames

  lemma FirstDot(a: string, x: string, b: string, y: string)
    requires a + "." + x == b + "." + y && '.' !in a && '.' !in b
    ensures a == b && x == y
  {
    var s, t := a + "." + x, b + "." + y;
    assert s[|a|] == '.' && t[|b|] == '.';
    assert s[..|a|] == a && t[..|b|] == b && s[|a| + 1..] == x && t[|b| + 1..] == y;
  }

  lemma LabelHasNoDot(s: string)
    requires Hostname.Lowercase(s)
    ensures '.' !in Hostname.Label(s)
  {
    Hostname.LabelChars(s);
  }

  /** A hostname reads service, node, "medium": up to the first dot stands the label of the
      service, up to the second that of the node. */
  lemma HostnameReads(lower: string -> string, r: Request, service: string, node: string)
    requires Hostname.Lowercase(lower(r.service)) && Hostname.Lowercase(lower(r.node))
    requires '.' !in service && '.' !in node
    ensures HostnameOf(lower, r) == service + "." + node + ".medium" <==>
            service == Hostname.Label(lower(r.service)) && node == Hostname.Label(lower(r.node))
  {
    var s, n := Hostname.Label(lower(r.service)), Hostname.Label(lower(r.node));
    LabelHasNoDot(lower(r.service));
    LabelHasNoDot(lower(r.node));
    if HostnameOf(lower, r) == service + "." + node + ".medium" {
      assert s + "." + n + ".medium" == s + "." + (n + "." + "medium");
      assert service + "." + node + ".medium" == service + "." + (node + "." + "medium");
      FirstDot(s, n + "." + "medium", service, node + "." + "medium");
      FirstDot(n, "medium", node, "medium");
    }
  }

  // ------------------------------------------------------------------------ keys

  /** Two requests share a key exactly when they agree on the port and on "node/service". */
  lemma KeysAgreeIff(a: Request, b: Request)
    ensures Key(a) == Key(b) <==> a.port == b.port && a.node + "/" + a.service == b.node + "/" + b.service
  {
    if Key(a) == Key(b) {
      LastSlash(a.node + "/" + a.service, Decimal(a.port), b.node + "/" + b.service, Decimal(b.port));
      DecimalInjective(a.port, b.port);
    }
  }

  predicate NoSlash(s: string) {
    '/' !in s
  }

  lemma LastSlash(a: string, x: string, b: string, y: string)
    requires a + "/" + x == b + "/" + y && NoSlash(x) && NoSlash(y)
    ensures a == b && x == y
  {
    var s, t := a + "/" + x, b + "/" + y;
    assert s[|a|] == '/' && t[|b|] == '/';
    assert s[..|a|] == a && t[..|b|] == b && s[|a| + 1..] == x && t[|b| + 1..] == y;
  }

  lemma FirstSlash(a: string, x: string, b: string, y: string)
    requires a + "/" + x == b + "/" + y && NoSlash(a) && NoSlash(b)
    ensures a == b && x == y
  {
    var s, t := a + "/" + x, b + "/" + y;
    assert s[|a|] == '/' && t[|b|] == '/';
    assert s[..|a|] == a && t[..|b|] == b && s[|a| + 1..] == x && t[|b| + 1..] == y;
  }

  /** Node ids without a slash never share a key. */
  lemma KeyInjective(a: Request, b: Request)
    requires NoSlash(a.node) && NoSlash(b.node)
    ensures Key(a) == Key(b) <==> a == b
  {
    KeysAgreeIff(a, b);
    if Key(a) == Key(b) {
      FirstSlash(a.node, a.service, b.node, b.service);
    }
  }

  /** With slashes they can: the second asker is handed the first one's entry. */
  lemma SlashCollision(c: Config)
    requires |c.octets| == 4
    ensures var a, b := Request("a", "b/c", 443), Request("a/b", "c", 443);
            OutcomeOf(c, Run(c, [a]), b) == OutcomeOf(c, EMPTY, a) && a != b
  {
    var a, b := Request("a", "b/c", 443), Request("a/b", "c", 443);
    assert a.node + "/" + a.service == "a/b/c" == b.node + "/" + b.service;
    KeysAgreeIff(a, b);
    assert [a][..0] == [] && Run(c, []) == EMPTY;
  }
}
