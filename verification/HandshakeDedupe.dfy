/** The listener's window of recent handshakes: a queue evicted only at its front, as a
    refinement of filtering the whole history of accepted handshakes. */
module HandshakeDedupe {
  const WINDOW := 30_000 // milliseconds
  const MAX_RECENT := 256

  datatype Entry<K> = Entry(key: K, seenAt: nat)

  predicate Expired<K>(e: Entry<K>, now: nat) {
    now > e.seenAt + WINDOW
  }

  ghost predicate Chronological<K>(h: seq<Entry<K>>, now: nat) {
    && (forall i, j :: 0 <= i < j < |h| ==> h[i].seenAt <= h[j].seenAt)
    && (forall i :: 0 <= i < |h| ==> h[i].seenAt <= now)
  }

  function Last<K>(h: seq<Entry<K>>, n: nat): seq<Entry<K>> {
    if |h| <= n then h else h[|h| - n..]
  }

  /** The entries of `h` that are at most 30 s old. */
  function Fresh<K>(h: seq<Entry<K>>, now: nat): seq<Entry<K>> {
    if h == [] then []
    else (if Expired(h[0], now) then [] else [h[0]]) + Fresh(h[1..], now)
  }

  /** Specification: the fresh ones among the last 256 accepted handshakes. */
  function Window<K>(accepted: seq<Entry<K>>, now: nat): seq<Entry<K>> {
    Fresh(Last(accepted, MAX_RECENT), now)
  }

  lemma SuffixChronological<K>(h: seq<Entry<K>>, k: nat, now: nat)
    requires Chronological(h, now) && k <= |h|
    ensures Chronological(h[k..], now)
  {
  }

  lemma ChronologicalLater<K>(h: seq<Entry<K>>, t: nat, now: nat)
    requires t <= now && Chronological(h, t)
    ensures Chronological(h, now)
  {
  }

  /** In chronological order the fresh entries are a suffix. */
  lemma {:induction false} FreshIsSuffix<K>(h: seq<Entry<K>>, now: nat, k: nat)
    requires Chronological(h, now) && k <= |h|
    requires forall i :: 0 <= i < k ==> Expired(h[i], now)
    requires k < |h| ==> !Expired(h[k], now)
    ensures Fresh(h, now) == h[k..]
  {
    if h != [] {
      if k > 0 {
        FreshIsSuffix(h[1..], now, k - 1);
      } else {
        if |h| > 1 {
          assert h[0].seenAt <= h[1].seenAt;
        }
        FreshIsSuffix(h[1..], now, 0);
      }
    }
  }

  function ExpiredCount<K>(h: seq<Entry<K>>, now: nat): (k: nat)
    ensures k <= |h|
    ensures forall i :: 0 <= i < k ==> Expired(h[i], now)
    ensures k < |h| ==> !Expired(h[k], now)
  {
    if h == [] || !Expired(h[0], now) then 0 else 1 + ExpiredCount(h[1..], now)
  }

  /** Evicting at an earlier time first makes no difference. */
  lemma {:induction false} FreshTwice<K>(h: seq<Entry<K>>, t: nat, now: nat)
    requires t <= now && Chronological(h, t)
    ensures Fresh(Fresh(h, t), now) == Fresh(h, now)
  {
    var k, m := ExpiredCount(h, t), ExpiredCount(h, now);
    FreshIsSuffix(h, t, k);
    ChronologicalLater(h, t, now);
    FreshIsSuffix(h, now, m);
    assert k <= m;
    SuffixChronological(h, k, now);
    FreshIsSuffix(h[k..], now, m - k);
  }

  /** Below the size bound an append leaves the rest of the window alone. */
  lemma AppendShort<K>(h: seq<Entry<K>>, e: Entry<K>)
    requires Chronological(h, e.seenAt)
    ensures Fresh(h + [e], e.seenAt) == Fresh(h, e.seenAt) + [e]
  {
    var k := ExpiredCount(h, e.seenAt);
    FreshIsSuffix(h, e.seenAt, k);
    FreshIsSuffix(h + [e], e.seenAt, k);
    assert (h + [e])[k..] == h[k..] + [e];
  }

  /** Dropping the oldest entry drops it from the fresh ones, if it was among them. */
  lemma DropOldest<K>(h: seq<Entry<K>>, now: nat)
    requires h != [] && Chronological(h, now)
    ensures Fresh(h[1..], now) == if Expired(h[0], now) then Fresh(h, now) else Fresh(h, now)[1..]
    ensures !Expired(h[0], now) ==> Fresh(h, now) == h
  {
    if !Expired(h[0], now) {
      FreshIsSuffix(h, now, 0);
      assert h[0..] == h;
    }
  }

  lemma LastSnoc<K>(h: seq<Entry<K>>, e: Entry<K>)
    ensures Last(h + [e], MAX_RECENT) ==
            (if |h| < MAX_RECENT then Last(h, MAX_RECENT) else Last(h, MAX_RECENT)[1..]) + [e]
    ensures |h| >= MAX_RECENT ==> |Last(h, MAX_RECENT)| == MAX_RECENT
  {
  }

  /** With the last 256 already full, an append drops the oldest of them. */
  lemma {:induction false} AppendFull<K>(l: seq<Entry<K>>, e: Entry<K>)
    requires |l| == MAX_RECENT && Chronological(l, e.seenAt)
    ensures Fresh(l[1..] + [e], e.seenAt) == Last(Fresh(l, e.seenAt) + [e], MAX_RECENT)
  {
    SuffixChronological(l, 1, e.seenAt);
    AppendShort(l[1..], e);
    DropOldest(l, e.seenAt);
    FreshShorter(l[1..], e.seenAt);
    LastSnoc(l, e);
  }

  /** Appending the newly accepted entry and trimming the queue to 256 is the window of
      the longer history. */
  lemma {:induction false} AppendTrims<K>(h: seq<Entry<K>>, e: Entry<K>)
    requires Chronological(h, e.seenAt)
    ensures Window(h + [e], e.seenAt) == Last(Window(h, e.seenAt) + [e], MAX_RECENT)
  {
    var l := Last(h, MAX_RECENT);
    LastSnoc(h, e);
    if |h| < MAX_RECENT {
      FreshShorter(l, e.seenAt);
      AppendShort(l, e);
    } else {
      AppendFull(l, e);
    }
  }

  lemma {:induction false} FreshShorter<K>(h: seq<Entry<K>>, now: nat)
    ensures |Fresh(h, now)| <= |h|
  {
    if h != [] {
      FreshShorter(h[1..], now);
    }
  }

  ghost predicate HasKey<K>(h: seq<Entry<K>>, key: K) {
    exists i :: 0 <= i < |h| && h[i].key == key
  }

  ghost predicate DistinctKeys<K(!new)>(h: seq<Entry<K>>) {
    forall i, j :: 0 <= i < j < |h| ==> h[i].key != h[j].key
  }

  lemma KeysStayDistinct<K(!new)>(w: seq<Entry<K>>, e: Entry<K>)
    requires DistinctKeys(w) && !HasKey(w, e.key)
    ensures DistinctKeys(Last(w + [e], MAX_RECENT))
  {
  }

  /** Dropping the expired entries at the front of the queue as of `t` gives the window
      as of `now`, with nothing expired left behind a fresh entry. */
  lemma {:induction false} EvictionIsExact<K(!new)>(accepted: seq<Entry<K>>, t: nat, now: nat)
    requires t <= now && Chronological(accepted, t)
    ensures var w := Window(accepted, t);
            Window(accepted, now) == w[ExpiredCount(w, now)..]
  {
    var l := Last(accepted, MAX_RECENT);
    FreshTwice(l, t, now);
    FreshIsSuffix(l, t, ExpiredCount(l, t));
    SuffixChronological(l, ExpiredCount(l, t), t);
    var w := Window(accepted, t);
    ChronologicalLater(w, t, now);
    FreshIsSuffix(w, now, ExpiredCount(w, now));
  }

  /** The `VecDeque` of the listener loop. */
  class RecentHandshakes<K(==, !new)> {
    var recent: seq<Entry<K>>
    ghost var accepted: seq<Entry<K>> // every handshake ever reported as new
    ghost var clock: nat

    /** The queue is the window of the full history as of the last call. */
    ghost predicate Valid()
      reads this
    {
      && Chronological(accepted, clock)
      && recent == Window(accepted, clock)
      && DistinctKeys(recent)
    }

    constructor ()
      ensures Valid() && accepted == [] && clock == 0
    {
      recent := [];
      accepted := [];
      clock := 0;
    }

    /** The first loop: drop expired entries from the front. */
    method EvictExpired(now: nat)
      modifies this`recent
      ensures recent == old(recent)[ExpiredCount(old(recent), now)..]
    {
      ghost var dropped := 0;
      while recent != [] && Expired(recent[0], now)
        invariant dropped <= ExpiredCount(old(recent), now) && recent == old(recent)[dropped..]
        decreases |recent|
      {
        recent := recent[1..];
        dropped := dropped + 1;
      }
    }

    /** The second loop: drop the oldest entries beyond the limit. */
    method TrimToLimit()
      modifies this`recent
      ensures recent == Last(old(recent), MAX_RECENT)
    {
      ghost var full := recent;
      while |recent| > MAX_RECENT
        invariant |recent| <= |full| && recent == full[|full| - |recent|..]
        invariant |full| > MAX_RECENT ==> |recent| >= MAX_RECENT
        invariant |full| <= MAX_RECENT ==> recent == full
        decreases |recent|
      {
        recent := recent[1..];
      }
    }

    /** `is_duplicate_handshake`. */
    method IsDuplicate(key: K, now: nat) returns (duplicate: bool)
      requires Valid() && clock <= now
      modifies this
      ensures Valid() && clock == now
      ensures duplicate <==> HasKey(Window(old(accepted), now), key)
      ensures accepted == if duplicate then old(accepted) else old(accepted) + [Entry(key, now)]
    {
      EvictionIsExact(accepted, clock, now);
      ChronologicalLater(accepted, clock, now);
      EvictExpired(now);
      assert recent == Window(accepted, now) && DistinctKeys(recent);
      clock := now;
      duplicate := exists i :: 0 <= i < |recent| && recent[i].key == key;
      if duplicate {
        return;
      }
      AppendTrims(accepted, Entry(key, now));
      KeysStayDistinct(recent, Entry(key, now));
      recent := recent + [Entry(key, now)];
      TrimToLimit();
      accepted := accepted + [Entry(key, now)];
    }
  }

  // ------------------------------------------------------------- whole runs

  datatype Hello<K> = Hello(key: K, at: nat)

  /** The history the listener accepts, defined on histories alone: a hello is new unless
      its key is in the window at its time. */
  ghost function Accepted<K(!new)>(hellos: seq<Hello<K>>): seq<Entry<K>> {
    if hellos == [] then []
    else
      var h := Accepted(hellos[..|hellos| - 1]);
      var x := hellos[|hellos| - 1];
      if HasKey(Window(h, x.at), x.key) then h else h + [Entry(x.key, x.at)]
  }

  lemma AcceptedNext<K(!new)>(hellos: seq<Hello<K>>, n: nat)
    requires n < |hellos|
    ensures var h, x := Accepted(hellos[..n]), hellos[n];
            Accepted(hellos[..n + 1]) == if HasKey(Window(h, x.at), x.key) then h else h + [Entry(x.key, x.at)]
  {
    assert hellos[..n + 1][..n] == hellos[..n] && hellos[..n + 1][n] == hellos[n];
  }

  /** The queue implementation computes that history, whatever hellos arrive. */
  method Listen<K(==, !new)>(hellos: seq<Hello<K>>) returns (r: RecentHandshakes<K>)
    requires forall i, j :: 0 <= i < j < |hellos| ==> hellos[i].at <= hellos[j].at
    ensures r.Valid() && r.accepted == Accepted(hellos)
    ensures hellos != [] ==> r.recent == Window(Accepted(hellos), hellos[|hellos| - 1].at)
  {
    r := new RecentHandshakes();
    for n := 0 to |hellos|
      invariant fresh(r) && r.Valid() && r.accepted == Accepted(hellos[..n])
      invariant if n == 0 then r.clock == 0 else r.clock == hellos[n - 1].at
    {
      AcceptedNext(hellos, n);
      var _ := r.IsDuplicate(hellos[n].key, hellos[n].at);
    }
    assert hellos[..|hellos|] == hellos;
  }

  /** Acceptances of one key are separated by more than 30 s or by at least 256 other
      acceptances. */
  lemma {:induction false} AcceptancesSeparated<K(!new)>(hellos: seq<Hello<K>>, i: nat, j: nat)
    requires i < j < |Accepted(hellos)| && Accepted(hellos)[i].key == Accepted(hellos)[j].key
    ensures j - i > 256 || Accepted(hellos)[j].seenAt > Accepted(hellos)[i].seenAt + 30_000
  {
    var n := |hellos| - 1;
    var h := Accepted(hellos[..n]);
    var x := hellos[n];
    if j < |h| {
      AcceptancesSeparated(hellos[..n], i, j);
    } else if j - i <= MAX_RECENT && x.at <= h[i].seenAt + WINDOW {
      var l := Last(h, MAX_RECENT);
      assert l[i - (|h| - |l|)] == h[i];
      FreshKeeps(l, x.at, i - (|h| - |l|));
      assert false;
    }
  }

  /** Which keys the window holds: those of the last 256 acceptances that are at most half a
      minute old. */
  lemma {:induction false} WindowHolds<K(!new)>(h: seq<Entry<K>>, now: nat, key: K)
    ensures HasKey(Window(h, now), key) <==>
            exists i :: 0 <= i < |h| && |h| - i <= 256 && now <= h[i].seenAt + 30_000 && h[i].key == key
  {
    var l := Last(h, MAX_RECENT);
    var d := |h| - |l|;
    assert forall i :: 0 <= i < |l| ==> l[i] == h[d + i];
    if HasKey(Window(h, now), key) {
      FreshComesFrom(l, now, key);
      var i :| 0 <= i < |l| && !Expired(l[i], now) && l[i].key == key;
      assert h[d + i].key == key;
    }
    if i :| 0 <= i < |h| && |h| - i <= 256 && now <= h[i].seenAt + 30_000 && h[i].key == key {
      assert l[i - d] == h[i];
      FreshKeeps(l, now, i - d);
    }
  }

  lemma {:induction false} FreshComesFrom<K(!new)>(h: seq<Entry<K>>, now: nat, key: K)
    requires HasKey(Fresh(h, now), key)
    ensures exists i :: 0 <= i < |h| && !Expired(h[i], now) && h[i].key == key
  {
    var head := if Expired(h[0], now) then [] else [h[0]];
    var j :| 0 <= j < |Fresh(h, now)| && Fresh(h, now)[j].key == key;
    if j >= |head| {
      assert Fresh(h[1..], now)[j - |head|].key == key;
      FreshComesFrom(h[1..], now, key);
      var i :| 0 <= i < |h[1..]| && !Expired(h[1..][i], now) && h[1..][i].key == key;
      assert h[i + 1].key == key;
    }
  }

  lemma {:induction false} FreshKeeps<K>(h: seq<Entry<K>>, now: nat, i: nat)
    requires i < |h| && !Expired(h[i], now)
    ensures exists j :: 0 <= j < |Fresh(h, now)| && Fresh(h, now)[j].key == h[i].key
  {
    var head := if Expired(h[0], now) then [] else [h[0]];
    if i == 0 {
      assert Fresh(h, now)[0] == h[0];
    } else {
      FreshKeeps(h[1..], now, i - 1);
      var j :| 0 <= j < |Fresh(h[1..], now)| && Fresh(h[1..], now)[j].key == h[i].key;
      assert Fresh(h, now)[|head| + j].key == h[i].key;
    }
  }
}
