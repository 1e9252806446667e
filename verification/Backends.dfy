/** The phone's backend connections: the pending-write flush, the maps that track streams,
    and the pool of idle spares. */
module Backends {
  import opened Base
  import SessionProtocol

  type Bytes = seq<byte>

  // ------------------------------------------------------------ flush_pending_to_writer

  const SCRATCH := 8192

  /** One answer of a `Write` implementation; `Accept(n)` takes the first min(n, offered)
      bytes of what it is offered. */
  datatype Answer = Accept(n: nat) | WouldBlock | TimedOut | Interrupted | Broken

  datatype Flush = Flush(accepted: Bytes, pending: Bytes, failed: bool)

  /** The flush against a writer that gives these answers and then blocks. */
  function Flushed(pending: Bytes, answers: seq<Answer>): Flush {
    if pending == [] || answers == [] then Flush([], pending, false)
    else
      match answers[0]
      case Accept(n) =>
        var k := Min(n, Min(|pending|, SCRATCH));
        if k == 0 then Flush([], pending, false)
        else
          var f := Flushed(pending[k..], answers[1..]);
          f.(accepted := pending[..k] + f.accepted)
      case Interrupted => Flushed(pending, answers[1..])
      case Broken => Flush([], pending, true)
      case _ => Flush([], pending, false)
  }

  /** Bytes are neither lost, duplicated nor reordered, whatever the writer does. */
  lemma {:induction false} FlushConserves(pending: Bytes, answers: seq<Answer>)
    ensures var f := Flushed(pending, answers); f.accepted + f.pending == pending
    decreases |answers|
  {
    if pending != [] && answers != [] {
      match answers[0] {
        case Accept(n) =>
          var k := Min(n, Min(|pending|, SCRATCH));
          if k > 0 {
            FlushConserves(pending[k..], answers[1..]);
            var f := Flushed(pending[k..], answers[1..]);
            assert pending == pending[..k] + pending[k..];
            assert pending[..k] + f.accepted + f.pending == pending[..k] + (f.accepted + f.pending);
          }
        case Interrupted => FlushConserves(pending, answers[1..]);
        case _ =>
      }
    }
  }

  method FlushPending(pending: Bytes, answers: seq<Answer>) returns (f: Flush)
    ensures f == Flushed(pending, answers)
  {
    var left, accepted, i := pending, [], 0;
    while left != [] && i < |answers|
      invariant i <= |answers|
      invariant var g := Flushed(left, answers[i..]);
                Flushed(pending, answers) == g.(accepted := accepted + g.accepted)
      decreases |answers| - i
    {
      assert answers[i..][0] == answers[i] && answers[i..][1..] == answers[i + 1..];
      var size := Min(|left|, SCRATCH);
      match answers[i] {
        case Accept(n) =>
          var written := Min(n, size);
          if written == 0 {
            return Flush(accepted, left, false);
          }
          ghost var g := Flushed(left[written..], answers[i + 1..]);
          assert accepted + (left[..written] + g.accepted) == accepted + left[..written] + g.accepted;
          accepted := accepted + left[..written];
          left := left[written..];
        case WouldBlock => return Flush(accepted, left, false);
        case TimedOut => return Flush(accepted, left, false);
        case Interrupted =>
        case Broken => return Flush(accepted, left, true);
      }
      i := i + 1;
    }
    f := Flush(accepted, left, false);
  }

  /** The flush goes on after this answer. */
  predicate GoesOn(a: Answer) {
    a == Interrupted || (a.Accept? && a.n > 0)
  }

  /** Position of the first answer after which the flush does not go on, or the length. */
  function StopAt(answers: seq<Answer>): (k: nat)
    ensures k <= |answers|
    ensures forall j :: 0 <= j < k ==> GoesOn(answers[j])
    ensures k < |answers| ==> !GoesOn(answers[k])
  {
    if answers == [] || !GoesOn(answers[0]) then 0 else 1 + StopAt(answers[1..])
  }

  /** The bytes an answer takes out of a queue that is long enough. */
  function Taken(a: Answer): nat {
    if a.Accept? then Min(a.n, 8192) else 0
  }

  /** How many bytes the answers before that take, from a queue that never runs dry. */
  function Capacity(answers: seq<Answer>): nat {
    if answers == [] || !GoesOn(answers[0]) then 0 else Taken(answers[0]) + Capacity(answers[1..])
  }

  /** The writer breaks while there is still something to write. */
  predicate BreaksOn(size: nat, answers: seq<Answer>) {
    StopAt(answers) < |answers| && answers[StopAt(answers)] == Broken && Capacity(answers) < size
  }

  lemma BreaksLater(answers: seq<Answer>, size: nat, k: nat)
    requires answers != [] && GoesOn(answers[0]) && k == Min(size, Taken(answers[0]))
    ensures BreaksOn(size, answers) <==> BreaksOn(size - k, answers[1..])
    ensures Min(size, Capacity(answers)) == k + Min(size - k, Capacity(answers[1..]))
  {
    var j := StopAt(answers[1..]);
    assert StopAt(answers) == 1 + j && (j < |answers[1..]| ==> answers[1..][j] == answers[1 + j]);
  }

  lemma CutTwice(pending: Bytes, k: nat, rest: nat)
    requires k + rest <= |pending|
    ensures pending[..k] + pending[k..][..rest] == pending[..k + rest]
    ensures pending[k..][rest..] == pending[k + rest..]
  {
  }

  lemma {:induction false} FlushesFirst(pending: Bytes, answers: seq<Answer>, k: nat)
    requires pending != [] && answers != [] && GoesOn(answers[0]) && k == Min(|pending|, Taken(answers[0]))
    ensures var f := Flushed(pending[k..], answers[1..]);
            Flushed(pending, answers) == f.(accepted := pending[..k] + f.accepted)
  {
    if answers[0] == Interrupted {
      var f := Flushed(pending, answers[1..]);
      assert pending[k..] == pending && pending[..k] + f.accepted == f.accepted;
    }
  }

  /** The outcome of a flush on the answers alone: the writer has taken as much as the answers
      before the first that stops it allow, and the flush fails exactly if that one is an
      error and something is left. */
  lemma {:induction false} FlushExact(pending: Bytes, answers: seq<Answer>)
    ensures var taken := Min(|pending|, Capacity(answers));
            Flushed(pending, answers) == Flush(pending[..taken], pending[taken..], BreaksOn(|pending|, answers))
    decreases |answers|
  {
    if pending != [] && answers != [] && GoesOn(answers[0]) {
      var k := Min(|pending|, Taken(answers[0]));
      FlushesFirst(pending, answers, k);
      FlushExact(pending[k..], answers[1..]);
      BreaksLater(answers, |pending|, k);
      CutTwice(pending, k, Min(|pending| - k, Capacity(answers[1..])));
    }
  }

  /** The chunk a UDP backend is offered out of `pending`. */
  function OfferedChunk(pending: Bytes): Bytes {
    SessionProtocol.Chunk(pending[..Min(|pending|, SCRATCH)])
  }

  // ------------------------------------------------------------------- idle pool

  type Pool<T> = map<string, seq<T>>

  function Spares<T>(p: Pool<T>, id: string): seq<T> {
    if id in p then p[id] else []
  }

  /** The pool after `pop`; an exhausted entry is removed. */
  function Popped<T>(p: Pool<T>, id: string): Pool<T> {
    if |Spares(p, id)| <= 1 then p - {id} else p[id := p[id][1..]]
  }

  ghost predicate Within<T>(p: Pool<T>, limit: nat) {
    forall id :: id in p ==> |p[id]| <= limit
  }

  class IdlePool<T> {
    const maxPerService: nat
    var backends: Pool<T>

    constructor (max: nat)
      ensures maxPerService == max && backends == map[]
    {
      maxPerService := max;
      backends := map[];
    }

    method Push(id: string, backend: T) returns (ok: bool)
      modifies this
      ensures ok <==> |Spares(old(backends), id)| < maxPerService
      ensures backends == old(backends)[id := Spares(old(backends), id) + (if ok then [backend] else [])]
      ensures Within(old(backends), maxPerService) ==> Within(backends, maxPerService)
    {
      if id !in backends {
        backends := backends[id := []];
      }
      ok := |backends[id]| < maxPerService;
      if ok {
        backends := backends[id := backends[id] + [backend]];
      } else {
        assert backends[id] + [] == backends[id];
      }
    }

    method Pop(id: string) returns (backend: Option<T>)
      modifies this
      ensures backends == Popped(old(backends), id)
      ensures (match backend
               case Some(b) => Spares(old(backends), id) == [b] + Spares(backends, id)
               case None => Spares(old(backends), id) == [] && Spares(backends, id) == [])
      ensures Within(old(backends), maxPerService) ==> Within(backends, maxPerService)
    {
      backend := None;
      if id in backends {
        var entries := backends[id];
        if entries != [] {
          backend := Some(entries[0]);
          entries := entries[1..];
        }
        if entries == [] {
          backends := backends - {id};
        } else {
          backends := backends[id := entries];
        }
      } else {
        assert backends - {id} == backends;
      }
    }
  }

  // ---------------------------------------------------------------- stream maps

  const IDLE_PER_SERVICE := 1

  /** `StreamBackends` without the sockets: a backend is a number, `sentTo` what it took. */
  datatype Maps = Maps(
    streams: map<string, nat>,
    services: map<string, string>,
    pending: map<string, Bytes>,
    idle: Pool<nat>,
    sentTo: map<string, Bytes>) // history: bytes accepted by the current backend of a stream

  /** What the outside decides: whether a connect succeeds and how a writer answers. */
  datatype Action =
    | Open(stream: string, service: string, routed: bool, connected: Option<nat>)
    | Queue(stream: string, bytes: Bytes, answers: seq<Answer>, spare: Option<nat>)
    | FlushOne(stream: string, answers: seq<Answer>)
    | Remove(stream: string, spare: Option<nat>)
    | Warm(service: string, spare: Option<nat>)

  /** `ensure_idle_backend`: `spare` is the outcome of its connect, if it makes one. */
  function Warmed(m: Maps, service: string, spare: Option<nat>): Maps {
    if |Spares(m.idle, service)| >= IDLE_PER_SERVICE || spare.None? then m
    else m.(idle := m.idle[service := Spares(m.idle, service) + [spare.value]])
  }

  /** `remove_stream`. */
  function Removed(m: Maps, stream: string, spare: Option<nat>): Maps {
    var m' := m.(streams := m.streams - {stream}, pending := m.pending - {stream},
                 services := m.services - {stream});
    if stream in m.services then Warmed(m', m.services[stream], spare) else m'
  }

  function Queued(m: Maps, stream: string): Bytes {
    if stream in m.pending then m.pending[stream] else []
  }

  function SentTo(m: Maps, stream: string): Bytes {
    if stream in m.sentTo then m.sentTo[stream] else []
  }

  /** `flush_pending_backend`; on an error the rest stays queued. */
  function FlushedStream(m: Maps, stream: string, answers: seq<Answer>): Maps {
    if stream !in m.streams then m.(pending := m.pending - {stream})
    else if stream !in m.pending then m
    else
      var f := Flushed(m.pending[stream], answers);
      m.(pending := if f.pending == [] && !f.failed then m.pending - {stream} else m.pending[stream := f.pending],
         sentTo := m.sentTo[stream := SentTo(m, stream) + f.accepted])
  }

  predicate FlushFails(m: Maps, stream: string, answers: seq<Answer>) {
    stream in m.streams && stream in m.pending && Flushed(m.pending[stream], answers).failed
  }

  /** `queue_backend_write`, and the removal when its flush fails. */
  function QueuedWrite(m: Maps, stream: string, bytes: Bytes, answers: seq<Answer>, spare: Option<nat>): Maps {
    if stream !in m.streams then m
    else
      var q := m.(pending := m.pending[stream := Queued(m, stream) + bytes]);
      var f := FlushedStream(q, stream, answers);
      if FlushFails(q, stream, answers) then Removed(f, stream, spare) else f
  }

  /** `take_or_connect_backend`: a spare if there is one, else the outcome of a connect. */
  function Backend(m: Maps, service: string, connected: Option<nat>): Option<nat> {
    if Spares(m.idle, service) != [] then Some(Spares(m.idle, service)[0]) else connected
  }

  /** `open_backend`. */
  function Opened(m: Maps, stream: string, service: string, routed: bool, connected: Option<nat>): Maps {
    if !routed then m
    else
      var popped := m.(idle := Popped(m.idle, service));
      match Backend(m, service, connected)
      case None => popped
      case Some(backend) =>
        popped.(streams := m.streams[stream := backend],
                services := m.services[stream := service],
                sentTo := m.sentTo[stream := []])
  }

  function Step(m: Maps, a: Action): Maps {
    match a
    case Open(stream, service, routed, connected) => Opened(m, stream, service, routed, connected)
    case Queue(stream, bytes, answers, spare) => QueuedWrite(m, stream, bytes, answers, spare)
    case FlushOne(stream, answers) => FlushedStream(m, stream, answers)
    case Remove(stream, spare) => Removed(m, stream, spare)
    case Warm(service, spare) => Warmed(m, service, spare)
  }

  /** The first loop of `pump_writes`: flush every stream and note the failures. */
  function FlushEach(m: Maps, ids: seq<string>, answers: string -> seq<Answer>): (Maps, seq<string>)
    decreases |ids|
  {
    if ids == [] then (m, [])
    else
      var (m', closed) := FlushEach(FlushedStream(m, ids[0], answers(ids[0])), ids[1..], answers);
      (m', (if FlushFails(m, ids[0], answers(ids[0])) then [ids[0]] else []) + closed)
  }

  /** The second loop of `pump_writes`. */
  function RemoveEach(m: Maps, ids: seq<string>, spare: string -> Option<nat>): Maps
    decreases |ids|
  {
    if ids == [] then m else RemoveEach(Removed(m, ids[0], spare(ids[0])), ids[1..], spare)
  }

  /** The maps as the source keeps them, updated in place. */
  class StreamBackends {
    var streams: map<string, nat>
    var services: map<string, string>
    var pending: map<string, Bytes>
    const idle: IdlePool<nat>
    ghost var sentTo: map<string, Bytes>

    constructor ()
      ensures Valid() && fresh(idle) && View() == EMPTY
    {
      streams, services, pending, sentTo := map[], map[], map[], map[];
      idle := new IdlePool(IDLE_PER_SERVICE);
    }

    ghost predicate Valid()
      reads this
    {
      idle.maxPerService == IDLE_PER_SERVICE
    }

    ghost function View(): Maps
      reads this, idle
    {
      Maps(streams, services, pending, idle.backends, sentTo)
    }

    method EnsureIdle(service: string, spare: Option<nat>)
      requires Valid()
      modifies idle
      ensures View() == Warmed(old(View()), service, spare)
    {
      if |Spares(idle.backends, service)| >= IDLE_PER_SERVICE || spare.None? {
        return;
      }
      var _ := idle.Push(service, spare.value);
    }

    method RemoveStream(stream: string, spare: Option<nat>)
      requires Valid()
      modifies this`streams, this`pending, this`services, idle
      ensures Valid() && View() == Removed(old(View()), stream, spare)
    {
      streams := streams - {stream};
      pending := pending - {stream};
      if stream in services {
        var service := services[stream];
        services := services - {stream};
        EnsureIdle(service, spare);
      } else {
        assert services - {stream} == services;
      }
    }

    method FlushPendingBackend(stream: string, answers: seq<Answer>) returns (failed: bool)
      modifies this`pending, this`sentTo
      ensures View() == FlushedStream(old(View()), stream, answers)
      ensures failed == FlushFails(old(View()), stream, answers)
      ensures failed <==> stream in streams && stream in old(pending) && BreaksOn(|old(pending)[stream]|, answers)
    {
      failed := false;
      if stream !in streams {
        pending := pending - {stream};
        return;
      }
      if stream !in pending {
        return;
      }
      FlushExact(pending[stream], answers);
      var f := FlushPending(pending[stream], answers);
      sentTo := sentTo[stream := SentTo(View(), stream) + f.accepted];
      pending := pending[stream := f.pending];
      failed := f.failed;
      if !failed && f.pending == [] {
        pending := pending - {stream};
        assert pending == old(pending) - {stream};
      }
    }

    method OpenBackend(stream: string, service: string, routed: bool, connected: Option<nat>)
      requires Valid()
      modifies this, idle
      ensures Valid() && View() == Opened(old(View()), stream, service, routed, connected)
    {
      if !routed {
        return;
      }
      var backend := idle.Pop(service);
      if backend.None? {
        backend := connected;
      }
      if backend.Some? {
        streams := streams[stream := backend.value];
        services := services[stream := service];
        sentTo := sentTo[stream := []];
      }
    }

    method QueueWrite(stream: string, bytes: Bytes, answers: seq<Answer>, spare: Option<nat>)
      requires Valid()
      modifies this, idle
      ensures Valid() && View() == QueuedWrite(old(View()), stream, bytes, answers, spare)
    {
      if stream !in streams {
        return;
      }
      pending := pending[stream := (if stream in pending then pending[stream] else []) + bytes];
      var failed := FlushPendingBackend(stream, answers);
      if failed {
        RemoveStream(stream, spare);
      }
    }

    /** `pending_writes.keys()`: each key once, in any order. */
    method PendingIds() returns (ids: seq<string>)
      ensures Enumerates(ids, pending.Keys)
    {
      ids := [];
      var left := pending.Keys;
      while left != {}
        invariant left <= pending.Keys && Enumerates(ids, pending.Keys - left)
        decreases |left|
      {
        var id :| id in left;
        left := left - {id};
        ids := ids + [id];
        assert pending.Keys - left == (pending.Keys - left - {id}) + {id};
      }
      assert pending.Keys - left == pending.Keys;
    }

    /** The loops of `pump_writes`, over the streams that have something pending. */
    method PumpWrites(answers: string -> seq<Answer>, spare: string -> Option<nat>) returns (ids: seq<string>)
      requires Valid()
      modifies this, idle
      ensures Valid() && Enumerates(ids, old(pending.Keys))
      ensures var (m, closed) := FlushEach(old(View()), ids, answers);
              View() == RemoveEach(m, closed, spare)
    {
      ids := PendingIds();
      var closed := FlushAll(ids, answers);
      RemoveAll(closed, spare);
    }

    method FlushAll(ids: seq<string>, answers: string -> seq<Answer>) returns (closed: seq<string>)
      modifies this`pending, this`sentTo
      ensures (View(), closed) == FlushEach(old(View()), ids, answers)
    {
      closed := [];
      var i := 0;
      FlushStarts(View(), ids, answers);
      while i < |ids|
        invariant i <= |ids| && FlushResumes(old(View()), View(), ids, i, answers, closed)
        modifies this`pending, this`sentTo
      {
        FlushContinues(old(View()), View(), ids, i, answers, closed);
        var failed := FlushPendingBackend(ids[i], answers(ids[i]));
        if failed {
          closed := closed + [ids[i]];
        }
        i := i + 1;
      }
      FlushStops(old(View()), View(), ids, answers, closed);
    }

    method RemoveAll(closed: seq<string>, spare: string -> Option<nat>)
      requires Valid()
      modifies this`streams, this`pending, this`services, idle
      ensures Valid() && View() == RemoveEach(old(View()), closed, spare)
    {
      var i := 0;
      assert closed[0..] == closed;
      while i < |closed|
        invariant i <= |closed| && Valid()
        invariant RemoveEach(View(), closed[i..], spare) == RemoveEach(old(View()), closed, spare)
        modifies this`streams, this`pending, this`services, idle
      {
        assert closed[i..][0] == closed[i] && closed[i..][1..] == closed[i + 1..];
        RemoveStream(closed[i], spare(closed[i]));
        i := i + 1;
      }
    }
  }

  /** The flush of all `ids` from `start` ends as the loop will, resumed at `i` with `closed`. */
  ghost predicate FlushResumes(start: Maps, m: Maps, ids: seq<string>, i: nat, answers: string -> seq<Answer>,
                               closed: seq<string>)
    requires i <= |ids|
  {
    var (m', more) := FlushEach(m, ids[i..], answers);
    FlushEach(start, ids, answers) == (m', closed + more)
  }

  lemma FlushStarts(m: Maps, ids: seq<string>, answers: string -> seq<Answer>)
    ensures FlushResumes(m, m, ids, 0, answers, [])
  {
    assert ids[0..] == ids;
    assert [] + FlushEach(m, ids, answers).1 == FlushEach(m, ids, answers).1;
  }

  lemma FlushContinues(start: Maps, m: Maps, ids: seq<string>, i: nat, answers: string -> seq<Answer>,
                       closed: seq<string>)
    requires i < |ids| && FlushResumes(start, m, ids, i, answers, closed)
    ensures FlushResumes(start, FlushedStream(m, ids[i], answers(ids[i])), ids, i + 1, answers,
                         if FlushFails(m, ids[i], answers(ids[i])) then closed + [ids[i]] else closed)
  {
    assert ids[i..][0] == ids[i] && ids[i..][1..] == ids[i + 1..];
    var more := FlushEach(FlushedStream(m, ids[i], answers(ids[i])), ids[i + 1..], answers).1;
    assert [] + more == more;
    Regroup(closed, [ids[i]], more);
  }

  lemma FlushStops(start: Maps, m: Maps, ids: seq<string>, answers: string -> seq<Answer>, closed: seq<string>)
    requires FlushResumes(start, m, ids, |ids|, answers, closed)
    ensures FlushEach(start, ids, answers) == (m, closed)
  {
    assert ids[|ids|..] == [] && closed + [] == closed;
  }

  /** The list has every member of the set once. */
  ghost predicate Enumerates(ids: seq<string>, s: set<string>) {
    NoDuplicates(ids) && forall id :: id in ids <==> id in s
  }

  ghost predicate Consistent(m: Maps) {
    && m.streams.Keys == m.services.Keys
    && m.pending.Keys <= m.streams.Keys
    && Within(m.idle, IDLE_PER_SERVICE)
  }

  function Run(m: Maps, actions: seq<Action>): Maps {
    if actions == [] then m else Step(Run(m, actions[..|actions| - 1]), actions[|actions| - 1])
  }

  const EMPTY := Maps(map[], map[], map[], map[], map[])

  lemma RemovedConsistent(m: Maps, stream: string, spare: Option<nat>)
    requires Consistent(m)
    ensures Consistent(Removed(m, stream, spare)) && stream !in Removed(m, stream, spare).streams
  {
  }

  lemma FlushConsistent(m: Maps, stream: string, answers: seq<Answer>)
    requires Consistent(m)
    ensures Consistent(FlushedStream(m, stream, answers))
  {
  }

  lemma StepConsistent(m: Maps, a: Action)
    requires Consistent(m)
    ensures Consistent(Step(m, a))
  {
    match a {
      case Queue(stream, bytes, answers, spare) =>
        if stream in m.streams {
          var q := m.(pending := m.pending[stream := Queued(m, stream) + bytes]);
          FlushConsistent(q, stream, answers);
          RemovedConsistent(FlushedStream(q, stream, answers), stream, spare);
        }
      case FlushOne(stream, answers) => FlushConsistent(m, stream, answers);
      case Remove(stream, spare) => RemovedConsistent(m, stream, spare);
      case _ =>
    }
  }

  lemma {:induction false} RunCons(m: Maps, a: Action, rest: seq<Action>)
    ensures Run(m, [a] + rest) == Run(Step(m, a), rest)
    decreases |rest|
  {
    if rest == [] {
      assert [a] + rest == [a] && [a][..0] == [];
      assert Run(m, [a]) == Step(Run(m, [a][..0]), a);
    } else {
      var n := |rest| - 1;
      RunCons(m, a, rest[..n]);
      assert ([a] + rest)[..n + 1] == [a] + rest[..n];
    }
  }

  /** The steps a whole `pump_writes` consists of. */
  function PumpSteps(m: Maps, ids: seq<string>, answers: string -> seq<Answer>,
                     spare: string -> Option<nat>): seq<Action> {
    Flushes(ids, answers) + Removals(FlushEach(m, ids, answers).1, spare)
  }

  function Flushes(ids: seq<string>, answers: string -> seq<Answer>): seq<Action> {
    if ids == [] then [] else [FlushOne(ids[0], answers(ids[0]))] + Flushes(ids[1..], answers)
  }

  function Removals(ids: seq<string>, spare: string -> Option<nat>): seq<Action> {
    if ids == [] then [] else [Remove(ids[0], spare(ids[0]))] + Removals(ids[1..], spare)
  }

  lemma {:induction false} RemovalsRun(m: Maps, ids: seq<string>, spare: string -> Option<nat>)
    ensures Run(m, Removals(ids, spare)) == RemoveEach(m, ids, spare)
    decreases |ids|
  {
    if ids != [] {
      RunCons(m, Remove(ids[0], spare(ids[0])), Removals(ids[1..], spare));
      RemovalsRun(Removed(m, ids[0], spare(ids[0])), ids[1..], spare);
    }
  }

  lemma {:induction false} FlushesRun(m: Maps, ids: seq<string>, answers: string -> seq<Answer>, rest: seq<Action>)
    ensures Run(m, Flushes(ids, answers) + rest) == Run(FlushEach(m, ids, answers).0, rest)
    decreases |ids|
  {
    if ids == [] {
      assert Flushes(ids, answers) + rest == rest;
    } else {
      var a, more := FlushOne(ids[0], answers(ids[0])), Flushes(ids[1..], answers);
      assert [a] + more + rest == [a] + (more + rest);
      RunCons(m, a, more + rest);
      FlushesRun(Step(m, a), ids[1..], answers, rest);
    }
  }

  /** A whole `pump_writes` is such steps one after the other, so what every run keeps it keeps. */
  lemma PumpIsRun(m: Maps, ids: seq<string>, answers: string -> seq<Answer>, spare: string -> Option<nat>)
    ensures var (flushed, closed) := FlushEach(m, ids, answers);
            Run(m, PumpSteps(m, ids, answers, spare)) == RemoveEach(flushed, closed, spare)
  {
    var closed := FlushEach(m, ids, answers).1;
    FlushesRun(m, ids, answers, Removals(closed, spare));
    RemovalsRun(FlushEach(m, ids, answers).0, closed, spare);
  }

  /** In every reachable state `streams` and `stream_services` have the same keys, pending
      writes exist only for streams, and no service has more than its spare. */
  lemma {:induction false} MapsStayConsistent(actions: seq<Action>)
    ensures Consistent(Run(EMPTY, actions))
    decreases |actions|
  {
    if actions != [] {
      MapsStayConsistent(actions[..|actions| - 1]);
      StepConsistent(Run(EMPTY, actions[..|actions| - 1]), actions[|actions| - 1]);
    }
  }

  lemma {:induction false} FlushesTo(m: Maps, stream: string, answers: seq<Answer>, f: Flush)
    requires stream in m.streams && stream in m.pending
    requires f == Flushed(m.pending[stream], answers) && (f.failed ==> f.pending != [])
    ensures var m' := FlushedStream(m, stream, answers);
            && (stream in m'.pending <==> f.pending != [])
            && (stream in m'.pending ==> m'.pending[stream] == f.pending)
            && m'.pending - {stream} == m.pending - {stream}
            && m'.streams == m.streams && m'.services == m.services && m'.idle == m.idle
  {
  }

  /** After a flush a live stream has an entry exactly if bytes are left, and they are what the
      writer did not take; no other entry changes. */
  lemma {:induction false} FlushLeaves(m: Maps, stream: string, answers: seq<Answer>)
    requires stream in m.streams && stream in m.pending
    ensures var m' := FlushedStream(m, stream, answers);
            var queue := m.pending[stream];
            && (stream in m'.pending <==> Capacity(answers) < |queue|)
            && (stream in m'.pending ==> m'.pending[stream] == queue[Capacity(answers)..])
            && m'.pending - {stream} == m.pending - {stream}
            && m'.streams == m.streams && m'.services == m.services && m'.idle == m.idle
  {
    var queue := m.pending[stream];
    var taken := Min(|queue|, Capacity(answers));
    FlushExact(queue, answers);
    FlushesTo(m, stream, answers, Flush(queue[..taken], queue[taken..], BreaksOn(|queue|, answers)));
  }

  // ------------------------------------------------------------ when a stream is removed

  lemma {:induction false} FlushFailsIff(pending: Bytes, answers: seq<Answer>)
    ensures Flushed(pending, answers).failed <==> BreaksOn(|pending|, answers)
  {
    FlushExact(pending, answers);
  }

  lemma {:induction false} QueueRemoves(m: Maps, stream: string, bytes: Bytes, answers: seq<Answer>,
                                        spare: Option<nat>, fails: bool)
    requires stream in m.streams && Flushed(Queued(m, stream) + bytes, answers).failed == fails
    ensures stream !in Step(m, Queue(stream, bytes, answers, spare)).streams <==> fails
  {
  }

  /** Queueing removes a live stream exactly if its writer breaks with bytes left to write. */
  lemma {:induction false} QueueRemovesIff(m: Maps, stream: string, bytes: Bytes, answers: seq<Answer>,
                                           spare: Option<nat>)
    requires stream in m.streams
    ensures stream !in Step(m, Queue(stream, bytes, answers, spare)).streams <==>
            BreaksOn(|Queued(m, stream) + bytes|, answers)
  {
    FlushFailsIff(Queued(m, stream) + bytes, answers);
    QueueRemoves(m, stream, bytes, answers, spare, BreaksOn(|Queued(m, stream) + bytes|, answers));
  }

  /** Flushing some streams leaves what the others have pending, and all of them live. */
  lemma {:induction false} ClosedByFlush(m: Maps, ids: seq<string>, answers: string -> seq<Answer>,
                                         stream: string)
    requires NoDuplicates(ids)
    ensures stream in FlushEach(m, ids, answers).1 <==>
            stream in ids && stream in m.streams && BreaksOn(|Queued(m, stream)|, answers(stream))
    ensures FlushEach(m, ids, answers).0.streams == m.streams
    decreases |ids|
  {
    if ids != [] {
      var m1 := FlushedStream(m, ids[0], answers(ids[0]));
      ClosedByFlush(m1, ids[1..], answers, stream);
      FlushFailsIff(Queued(m, ids[0]), answers(ids[0]));
      assert ids[0] !in ids[1..] by {
        assert forall j :: 1 <= j < |ids| ==> ids[0] != ids[j];
      }
    }
  }

  lemma {:induction false} RemovedByEach(m: Maps, closed: seq<string>, spare: string -> Option<nat>,
                                         stream: string)
    ensures stream in RemoveEach(m, closed, spare).streams <==> stream in m.streams && stream !in closed
    decreases |closed|
  {
    if closed != [] {
      RemovedByEach(Removed(m, closed[0], spare(closed[0])), closed[1..], spare, stream);
    }
  }

  /** A write pump removes a live stream exactly if it has bytes pending and its writer breaks
      with some of them left. */
  lemma {:induction false} PumpRemovesIff(m: Maps, ids: seq<string>, answers: string -> seq<Answer>,
                                          spare: string -> Option<nat>, stream: string)
    requires stream in m.streams && Enumerates(ids, m.pending.Keys)
    ensures var (flushed, closed) := FlushEach(m, ids, answers);
            stream !in RemoveEach(flushed, closed, spare).streams <==>
            stream in m.pending && BreaksOn(|m.pending[stream]|, answers(stream))
  {
    ClosedByFlush(m, ids, answers, stream);
    var (flushed, closed) := FlushEach(m, ids, answers);
    RemovedByEach(flushed, closed, spare, stream);
  }

  // ----------------------------------------------------------------------- spares

  /** A removed stream leaves a spare for its service whenever there was none and a connect
      succeeds, and the next stream of that service gets that spare, whatever its own connect
      would do; spares of other services are untouched. */
  lemma SpareIsKeptAndUsed(m: Maps, stream: string, spare: nat, next: string, connected: Option<nat>)
    requires stream in m.services && Spares(m.idle, m.services[stream]) == []
    ensures var service := m.services[stream];
            var m1 := Step(m, Remove(stream, Some(spare)));
            var m2 := Step(m1, Open(next, service, true, connected));
            && Spares(m1.idle, service) == [spare]
            && next in m2.streams && m2.streams[next] == spare && Spares(m2.idle, service) == []
            && forall other :: other != service ==> Spares(m2.idle, other) == Spares(m.idle, other)
  {
  }

  /** Without a spare the stream gets the new connection, or is not opened. */
  lemma OpensWithoutSpare(m: Maps, stream: string, service: string, connected: Option<nat>)
    requires Spares(m.idle, service) == [] && stream !in m.streams
    ensures var m' := Step(m, Open(stream, service, true, connected));
            && (stream in m'.streams <==> connected.Some?)
            && (connected.Some? ==> m'.streams[stream] == connected.value && m'.services[stream] == service)
  {
  }

  /** What a stream's backend has accepted, followed by what is still pending. */
  function Account(m: Maps, stream: string): Bytes {
    SentTo(m, stream) + Queued(m, stream)
  }

  lemma FlushAccount(m: Maps, stream: string, answers: seq<Answer>)
    requires stream in m.streams
    ensures Account(FlushedStream(m, stream, answers), stream) == Account(m, stream)
  {
    if stream in m.pending {
      var f := Flushed(m.pending[stream], answers);
      FlushConserves(m.pending[stream], answers);
      Regroup(SentTo(m, stream), f.accepted, f.pending);
    }
  }

  lemma QueueAccount(m: Maps, stream: string, bytes: Bytes, answers: seq<Answer>, spare: Option<nat>)
    requires stream in m.streams && stream in QueuedWrite(m, stream, bytes, answers, spare).streams
    ensures Account(QueuedWrite(m, stream, bytes, answers, spare), stream) == Account(m, stream) + bytes
  {
    var q := m.(pending := m.pending[stream := Queued(m, stream) + bytes]);
    assert QueuedWrite(m, stream, bytes, answers, spare) == FlushedStream(q, stream, answers);
    FlushAccount(q, stream, answers);
    assert Account(q, stream) == SentTo(m, stream) + (Queued(m, stream) + bytes);
    Regroup(SentTo(m, stream), Queued(m, stream), bytes);
  }

  /** Flushing or removing one stream leaves the others alone. */
  lemma OthersUntouched(m: Maps, s: string, answers: seq<Answer>, spare: Option<nat>, stream: string)
    requires s != stream
    ensures Account(FlushedStream(m, s, answers), stream) == Account(m, stream)
    ensures Account(Removed(m, s, spare), stream) == Account(m, stream)
  {
  }

  lemma OthersUntouchedByQueue(m: Maps, s: string, bytes: Bytes, answers: seq<Answer>, spare: Option<nat>,
                               stream: string)
    requires s != stream
    ensures Account(QueuedWrite(m, s, bytes, answers, spare), stream) == Account(m, stream)
  {
    if s in m.streams {
      var q := m.(pending := m.pending[s := Queued(m, s) + bytes]);
      assert Account(q, stream) == Account(m, stream);
      OthersUntouched(q, s, answers, spare, stream);
      OthersUntouched(FlushedStream(q, s, answers), s, answers, spare, stream);
    }
  }

  /** Queueing adds exactly the new bytes at the end of the account of a live stream, flushing
      leaves every account unchanged, and no step touches the account of another stream. */
  lemma WritesConserved(m: Maps, a: Action, stream: string)
    requires stream in m.streams && stream in Step(m, a).streams
    requires !(a.Open? && a.stream == stream)
    ensures Account(Step(m, a), stream) ==
            Account(m, stream) + (if a.Queue? && a.stream == stream then a.bytes else [])
  {
    match a {
      case Queue(s, bytes, answers, spare) =>
        if s == stream {
          QueueAccount(m, s, bytes, answers, spare);
        } else {
          OthersUntouchedByQueue(m, s, bytes, answers, spare, stream);
        }
      case FlushOne(s, answers) =>
        if s == stream {
          FlushAccount(m, s, answers);
        } else {
          OthersUntouched(m, s, answers, None, stream);
        }
      case Remove(s, spare) =>
        if s != stream {
          OthersUntouched(m, s, [], spare, stream);
        }
      case _ =>
    }
  }

  /** Stream ids are opened only while not live, as the network stack hands them out. */
  ghost predicate FreshOpens(actions: seq<Action>) {
    forall k :: 0 <= k < |actions| && actions[k].Open? ==> actions[k].stream !in Run(EMPTY, actions[..k]).streams
  }

  /** The bytes queued for a live stream since it was opened. */
  function SinceOpen(actions: seq<Action>, stream: string): Bytes {
    if actions == [] then []
    else
      var n := |actions| - 1;
      if stream !in Run(EMPTY, actions[..n]).streams then []
      else SinceOpen(actions[..n], stream)
           + (if actions[n].Queue? && actions[n].stream == stream then actions[n].bytes else [])
  }

  lemma OpenedAfresh(m: Maps, a: Action, stream: string)
    requires Consistent(m) && stream !in m.streams && stream in Step(m, a).streams
    ensures Account(Step(m, a), stream) == []
  {
    assert a.Open? && a.stream == stream;
    assert stream !in m.pending;
  }

  /** Over any run, what the backend of a live stream has accepted followed by what is
      pending is exactly what was queued since the stream was opened: whatever the writers,
      the pumps and the other streams did, no byte was lost, repeated or moved. */
  lemma {:induction false} RunConserves(actions: seq<Action>, stream: string)
    requires FreshOpens(actions) && stream in Run(EMPTY, actions).streams
    ensures Account(Run(EMPTY, actions), stream) == SinceOpen(actions, stream)
    decreases |actions|
  {
    if actions != [] {
      var n := |actions| - 1;
      var m := Run(EMPTY, actions[..n]);
      if stream in m.streams {
        assert forall k :: 0 <= k < n ==> actions[..n][k] == actions[k] && actions[..n][..k] == actions[..k];
        RunConserves(actions[..n], stream);
        WritesConserved(m, actions[n], stream);
      } else {
        MapsStayConsistent(actions[..n]);
        OpenedAfresh(m, actions[n], stream);
      }
    }
  }
}
