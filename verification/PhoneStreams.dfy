/** The network stack and the phone's backends together: every event the stack reports is
    handled in order, and what reaches a backend is what was received under its stream id. */
module PhoneStreams {
  import opened Base
  import T = TcpSlots
  import R = TcpRuns
  import E = TcpEvents
  import V = VirtualNetwork
  import B = Backends

  type Bytes = seq<byte>

  /** What `handle_event` is told, apart from ends. */
  datatype News = Opened(id: string) | Arrived(id: string, bytes: seq<byte>)

  function NewsOf(e: T.Event): seq<News> {
    match e
    case Connected(n, _) => [Opened(T.StreamId(n))]
    case Received(n, _, bytes) => [Arrived(T.StreamId(n), bytes)]
    case Gone(_, _) => []
  }

  /** What the stack has reported. */
  function Told(h: seq<T.Event>): seq<News> {
    if h == [] then [] else Told(h[..|h| - 1]) + NewsOf(h[|h| - 1])
  }

  function HeardIn(a: B.Action): seq<News> {
    match a
    case Open(stream, _, _, _) => [Opened(stream)]
    case Queue(stream, bytes, _, _) => [Arrived(stream, bytes)]
    case _ => []
  }

  /** What the phone has acted on; flushes, removals and spares come from elsewhere. */
  function Heard(actions: seq<B.Action>): seq<News> {
    if actions == [] then [] else Heard(actions[..|actions| - 1]) + HeardIn(actions[|actions| - 1])
  }

  function Payload(x: News, id: string): Bytes {
    if x.Arrived? && x.id == id then x.bytes else []
  }

  /** All bytes of an id, in order. */
  function BytesOf(w: seq<News>, id: string): Bytes {
    if w == [] then [] else BytesOf(w[..|w| - 1], id) + Payload(w[|w| - 1], id)
  }

  /** Every id is opened at most once, and before its bytes. */
  ghost predicate Orderly(w: seq<News>) {
    w == [] ||
    (Orderly(w[..|w| - 1]) && (w[|w| - 1].Opened? <==> Opened(w[|w| - 1].id) !in w[..|w| - 1]))
  }

  lemma {:induction false} OrderlyPrefix(w: seq<News>, k: nat)
    requires Orderly(w) && k <= |w|
    ensures Orderly(w[..k])
    decreases |w|
  {
    if k == |w| {
      assert w[..k] == w;
    } else {
      OrderlyPrefix(w[..|w| - 1], k);
      assert w[..|w| - 1][..k] == w[..k];
    }
  }

  lemma {:induction false} OrderlyBefore(w: seq<News>, v: seq<News>)
    requires Orderly(w) && v <= w
    ensures Orderly(v)
  {
    OrderlyPrefix(w, |v|);
    assert w[..|v|] == v;
  }

  lemma {:induction false} NothingBeforeOpen(w: seq<News>, id: string)
    requires Orderly(w) && Opened(id) !in w
    ensures BytesOf(w, id) == []
  {
    if w != [] {
      NothingBeforeOpen(w[..|w| - 1], id);
    }
  }

  // --------------------------------------------------------------------- the stack

  lemma {:induction false} ToldOpened(h: seq<T.Event>, n: nat)
    ensures Opened(T.StreamId(n)) in Told(h) <==> E.AnnouncedIn(h, n)
    decreases |h|
  {
    if h != [] {
      var k := |h| - 1;
      ToldOpened(h[..k], n);
      if h[k].Connected? && T.StreamId(h[k].n) == T.StreamId(n) {
        T.StreamIdInjective(h[k].n, n);
      }
      AnnouncedSnoc(h, n);
    }
  }

  lemma AnnouncedSnoc(h: seq<T.Event>, n: nat)
    requires h != []
    ensures var k := |h| - 1; E.AnnouncedIn(h, n) <==> E.AnnouncedIn(h[..k], n) || (h[k].Connected? && h[k].n == n)
  {
    var k := |h| - 1;
    if E.AnnouncedIn(h, n) {
      var j :| 0 <= j < |h| && h[j].Connected? && h[j].n == n;
      assert j < k ==> h[..k][j] == h[j];
    }
    if E.AnnouncedIn(h[..k], n) {
      var j :| 0 <= j < k && h[..k][j].Connected? && h[..k][j].n == n;
      assert h[j] == h[..k][j];
    }
  }

  /** Event `k` is in order with those before it. */
  ghost predicate InOrder(h: seq<T.Event>, k: nat)
    requires k < |h|
  {
    && (h[k].Connected? ==> !E.Mentioned(h[..k], h[k].n))
    && (h[k].Received? ==> E.AnnouncedIn(h[..k], h[k].n))
  }

  lemma {:induction false} ToldOrderly(h: seq<T.Event>)
    requires forall k :: 0 <= k < |h| ==> InOrder(h, k)
    ensures Orderly(Told(h))
    decreases |h|
  {
    if h != [] {
      var n := |h| - 1;
      forall k | 0 <= k < n ensures InOrder(h[..n], k) {
        assert InOrder(h, k) && h[..n][..k] == h[..k];
      }
      ToldOrderly(h[..n]);
      assert InOrder(h, n);
      OneMoreTold(h[..n], h[n]);
    }
  }

  lemma OneMoreTold(h: seq<T.Event>, e: T.Event)
    requires Orderly(Told(h))
    requires e.Connected? ==> !E.Mentioned(h, e.n)
    requires e.Received? ==> E.AnnouncedIn(h, e.n)
    ensures Orderly(Told(h) + NewsOf(e))
  {
    ToldOpened(h, e.n);
    if e.Gone? {
      assert Told(h) + [] == Told(h);
    } else {
      assert (Told(h) + NewsOf(e))[..|Told(h)|] == Told(h);
    }
  }

  // --------------------------------------------------------------------- the phone

  lemma NewlyLive(m: B.Maps, a: B.Action, id: string)
    requires id !in m.streams && id in B.Step(m, a).streams
    ensures a.Open? && a.stream == id
  {
  }

  lemma {:induction false} LiveWasOpened(actions: seq<B.Action>, id: string)
    requires id in B.Run(B.EMPTY, actions).streams
    ensures Opened(id) in Heard(actions)
    decreases |actions|
  {
    if actions != [] {
      var k := |actions| - 1;
      var m := B.Run(B.EMPTY, actions[..k]);
      if id in m.streams {
        LiveWasOpened(actions[..k], id);
      } else {
        NewlyLive(m, actions[k], id);
      }
    }
  }

  lemma {:induction false} HeardPrefix(actions: seq<B.Action>, k: nat)
    requires k <= |actions|
    ensures Heard(actions[..k]) <= Heard(actions)
    decreases |actions|
  {
    if k == |actions| {
      assert actions[..k] == actions;
    } else {
      HeardPrefix(actions[..|actions| - 1], k);
      assert actions[..|actions| - 1][..k] == actions[..k];
    }
  }

  lemma {:induction false} HeardBefore(actions: seq<B.Action>)
    requires actions != [] && Orderly(Heard(actions))
    ensures Orderly(Heard(actions[..|actions| - 1]))
    ensures var a := actions[|actions| - 1]; a.Open? ==> Opened(a.stream) !in Heard(actions[..|actions| - 1])
  {
    var k := |actions| - 1;
    var w, w' := Heard(actions), Heard(actions[..k]);
    HeardPrefix(actions, k);
    OrderlyBefore(w, w');
    if actions[k].Open? {
      assert w == w' + [Opened(actions[k].stream)] && w[..|w| - 1] == w';
    }
  }

  lemma {:induction false} LastOpenIsFresh(actions: seq<B.Action>)
    requires actions != [] && Orderly(Heard(actions)) && actions[|actions| - 1].Open?
    ensures var k := |actions| - 1; actions[k].stream !in B.Run(B.EMPTY, actions[..k]).streams
  {
    var k := |actions| - 1;
    HeardBefore(actions);
    if actions[k].stream in B.Run(B.EMPTY, actions[..k]).streams {
      LiveWasOpened(actions[..k], actions[k].stream);
    }
  }

  lemma {:induction false} OpenIsFresh(actions: seq<B.Action>, k: nat, upTo: seq<B.Action>)
    requires Orderly(Heard(actions)) && k < |actions| && actions[k].Open? && upTo == actions[..k + 1]
    ensures actions[k].stream !in B.Run(B.EMPTY, actions[..k]).streams
  {
    HeardPrefix(actions, k + 1);
    OrderlyBefore(Heard(actions), Heard(upTo));
    assert upTo[..k] == actions[..k] && upTo[k] == actions[k];
    LastOpenIsFresh(upTo);
  }

  /** Where ids are opened at most once, no id is opened while it is live. */
  lemma {:induction false} OpensAreFresh(actions: seq<B.Action>)
    requires Orderly(Heard(actions))
    ensures B.FreshOpens(actions)
  {
    forall k | 0 <= k < |actions| && actions[k].Open?
      ensures actions[k].stream !in B.Run(B.EMPTY, actions[..k]).streams
    {
      OpenIsFresh(actions, k, actions[..k + 1]);
    }
  }

  function QueuedFor(a: B.Action, id: string): Bytes {
    if a.Queue? && a.stream == id then a.bytes else []
  }

  lemma {:induction false} BytesHeard(w: seq<News>, a: B.Action, id: string)
    ensures BytesOf(w + HeardIn(a), id) == BytesOf(w, id) + QueuedFor(a, id)
  {
    if HeardIn(a) == [] {
      assert w + [] == w;
    } else {
      assert (w + HeardIn(a))[..|w|] == w;
    }
  }

  lemma ForwardStep(m: B.Maps, a: B.Action, id: string, before: Bytes)
    requires B.Consistent(m) && id in B.Step(m, a).streams
    requires if id in m.streams then B.Account(m, id) == before && !(a.Open? && a.stream == id) else before == []
    ensures B.Account(B.Step(m, a), id) == before + QueuedFor(a, id)
  {
    if id in m.streams {
      B.WritesConserved(m, a, id);
    } else {
      NewlyLive(m, a, id);
      B.OpenedAfresh(m, a, id);
    }
  }

  /** What a live stream's backend has accepted, followed by what is pending, is every byte the
      phone was told of under that id. */
  lemma {:induction false} ForwardsHeard(actions: seq<B.Action>, id: string)
    requires Orderly(Heard(actions)) && id in B.Run(B.EMPTY, actions).streams
    ensures B.Account(B.Run(B.EMPTY, actions), id) == BytesOf(Heard(actions), id)
    decreases |actions|
  {
    if actions != [] {
      var k := |actions| - 1;
      var m := B.Run(B.EMPTY, actions[..k]);
      HeardBefore(actions);
      BytesHeard(Heard(actions[..k]), actions[k], id);
      B.MapsStayConsistent(actions[..k]);
      if id in m.streams {
        LiveWasOpened(actions[..k], id);
        ForwardsHeard(actions[..k], id);
      } else {
        NewlyLive(m, actions[k], id);
        NothingBeforeOpen(Heard(actions[..k]), id);
      }
      ForwardStep(m, actions[k], id, BytesOf(Heard(actions[..k]), id));
    }
  }

  /** End to end: for any run of the network stack and any run of the phone that handles the
      reported events in order, as far as it has got, whatever the writers, pumps and other
      streams do, what the backend of a live stream has accepted followed by what is pending is
      exactly what the stack reported received under that id. */
  lemma PhoneForwards(services: seq<V.VirtualService>, polls: seq<R.Action>, actions: seq<B.Action>, id: string)
    requires Heard(actions) <= Told(R.Run(services, R.Init(services), polls).history)
    requires id in B.Run(B.EMPTY, actions).streams
    ensures B.FreshOpens(actions)
    ensures B.Account(B.Run(B.EMPTY, actions), id) == BytesOf(Heard(actions), id)
  {
    var h := R.Run(services, R.Init(services), polls).history;
    forall k | 0 <= k < |h| ensures InOrder(h, k) {
      E.EventOrder(services, polls, k);
    }
    ToldOrderly(h);
    OrderlyBefore(Told(h), Heard(actions));
    OpensAreFresh(actions);
    ForwardsHeard(actions, id);
  }
}
