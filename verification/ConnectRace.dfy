/** The race of concurrent candidate connects: one lock, one semaphore, one caller.
    Every lock section, semaphore signal and stream close is its own step. */
module ConnectRace {
  import opened Base

  /** What the lock protects. */
  datatype Shared = Shared(winner: Option<nat>, failures: seq<nat>, completed: nat)

  function AfterSuccess(s: Shared, i: nat): Shared {
    if s.winner.None? then s.(winner := Some(i)) else s
  }

  function AfterFailure(s: Shared, i: nat): Shared {
    s.(failures := s.failures + [i])
  }

  function AfterFinish(s: Shared): Shared {
    s.(completed := s.completed + 1)
  }

  predicate SignalsFailure(s: Shared, n: nat) {
    s.completed == n && s.winner.None?
  }

  /** The captured variables of `connectFirstSuccessful` and its three lock sections. */
  class RaceVariables {
    var winner: Option<nat>
    var failures: seq<nat>
    var completed: nat

    constructor ()
      ensures View() == Shared(None, [], 0)
    {
      winner, failures, completed := None, [], 0;
    }

    ghost function View(): Shared
      reads this
    {
      Shared(winner, failures, completed)
    }

    method OnConnected(i: nat) returns (won: bool)
      modifies this`winner
      ensures View() == AfterSuccess(old(View()), i)
      ensures won <==> old(winner).None?
    {
      won := winner.None?;
      if won {
        winner := Some(i);
      }
    }

    method OnRefused(i: nat)
      modifies this`failures
      ensures View() == AfterFailure(old(View()), i)
    {
      failures := failures + [i];
    }

    method OnFinished(n: nat) returns (shouldSignalFailure: bool)
      modifies this`completed
      ensures View() == AfterFinish(old(View()))
      ensures shouldSignalFailure <==> SignalsFailure(View(), n)
    {
      completed := completed + 1;
      shouldSignalFailure := completed == n && winner.None?;
    }
  }

  // ------------------------------------------------------------ the interleaved run

  datatype Pc =
    | Connecting // inside `connect`
    | Opened     // connect returned a stream; lock section next
    | Refused    // connect threw; lock section next
    | Announcing // became the winner; `done.signal()` next
    | Discarding // lost; `stream.close()` next
    | Finishing  // the `defer` lock section next
    | Alarming   // saw total failure; `done.signal()` next
    | Done

  datatype Caller = Waiting | Woken | Returned(winner: Option<nat>, failures: seq<nat>)

  datatype Race = Race(
    pcs: seq<Pc>,
    shared: Shared,
    signals: nat,
    caller: Caller,
    connected: set<nat>, // tasks whose connect returned a stream
    closed: set<nat>, // tasks whose stream was closed
    alarmer: Option<nat>) // the task that saw total failure

  datatype Action = Task(i: nat, succeeds: bool) | CallerStep

  predicate Enabled(r: Race, a: Action) {
    match a
    case Task(i, _) => i < |r.pcs| && r.pcs[i] != Done
    case CallerStep => r.caller == Woken || (r.caller == Waiting && r.signals > 0)
  }

  function Moved(r: Race, i: nat, pc: Pc): Race
    requires i < |r.pcs|
  {
    r.(pcs := r.pcs[i := pc])
  }

  function Step(r: Race, a: Action): Race
    requires Enabled(r, a)
  {
    match a
    case CallerStep =>
      if r.caller == Waiting then r.(caller := Woken)
      else r.(caller := Returned(r.shared.winner, r.shared.failures))
    case Task(i, succeeds) =>
      match r.pcs[i]
      case Connecting =>
        if succeeds then Moved(r, i, Opened).(connected := r.connected + {i}) else Moved(r, i, Refused)
      case Opened =>
        Moved(r, i, if r.shared.winner.None? then Announcing else Discarding)
        .(shared := AfterSuccess(r.shared, i))
      case Refused => Moved(r, i, Finishing).(shared := AfterFailure(r.shared, i))
      case Announcing => Moved(r, i, Finishing).(signals := r.signals + 1)
      case Discarding => Moved(r, i, Finishing).(closed := r.closed + {i})
      case Finishing =>
        var s := AfterFinish(r.shared);
        if SignalsFailure(s, |r.pcs|) then Moved(r, i, Alarming).(shared := s, alarmer := Some(i))
        else Moved(r, i, Done).(shared := s)
      case Alarming => Moved(r, i, Done).(signals := r.signals + 1)
  }

  function Init(n: nat): Race {
    Race(seq(n, _ => Connecting), Shared(None, [], 0), 0, Waiting, {}, {}, None)
  }

  ghost predicate Reaches(r: Race, actions: seq<Action>, r': Race)
    decreases |actions|
  {
    if actions == [] then r == r'
    else Enabled(r, actions[0]) && Reaches(Step(r, actions[0]), actions[1..], r')
  }

  // ----------------------------------------------------------------- invariant

  predicate Ended(pc: Pc) {
    pc == Alarming || pc == Done
  }

  function EndedCount(pcs: seq<Pc>): (n: nat)
    ensures n <= |pcs|
  {
    if pcs == [] then 0 else (if Ended(pcs[0]) then 1 else 0) + EndedCount(pcs[1..])
  }

  lemma {:induction false} EndedCountUpdate(pcs: seq<Pc>, i: nat, pc: Pc)
    requires i < |pcs|
    ensures EndedCount(pcs[i := pc]) ==
            EndedCount(pcs) - (if Ended(pcs[i]) then 1 else 0) + (if Ended(pc) then 1 else 0)
  {
    if i > 0 {
      EndedCountUpdate(pcs[1..], i - 1, pc);
      assert pcs[i := pc][1..] == pcs[1..][i - 1 := pc];
    } else {
      assert pcs[i := pc][1..] == pcs[1..];
    }
  }

  lemma {:induction false} AllEnded(pcs: seq<Pc>)
    requires EndedCount(pcs) == |pcs|
    ensures forall i :: 0 <= i < |pcs| ==> Ended(pcs[i])
  {
    if pcs != [] {
      AllEnded(pcs[1..]);
    }
  }

  ghost predicate IsWinner(r: Race, i: nat) {
    r.shared.winner == Some(i)
  }

  /** What holds of one task. */
  ghost predicate TaskOk(r: Race, i: nat)
    requires i < |r.pcs|
  {
    match r.pcs[i]
    case Connecting => i !in r.connected && i !in r.closed && !IsWinner(r, i) && i !in r.shared.failures
    case Refused => i !in r.connected && i !in r.closed && !IsWinner(r, i) && i !in r.shared.failures
    case Opened => i in r.connected && i !in r.closed && !IsWinner(r, i) && i !in r.shared.failures
    case Announcing => i in r.connected && i !in r.closed && IsWinner(r, i) && i !in r.shared.failures
    case Discarding =>
      i in r.connected && i !in r.closed && r.shared.winner.Some? && !IsWinner(r, i) && i !in r.shared.failures
    case _ => // past its outcome: winner, closed loser or listed failure
      if i in r.connected then
        i !in r.shared.failures && r.shared.winner.Some? && (i in r.closed <==> !IsWinner(r, i))
      else i in r.shared.failures && i !in r.closed && !IsWinner(r, i)
  }

  ghost predicate TasksOk(r: Race) {
    forall i :: 0 <= i < |r.pcs| ==> TaskOk(r, i)
  }

  /** The shared variables count and list what the tasks did. */
  ghost predicate SharedOk(r: Race) {
    && (r.shared.winner.Some? ==> r.shared.winner.value < |r.pcs|)
    && r.shared.completed == EndedCount(r.pcs)
    && NoDuplicates(r.shared.failures)
    && (forall i :: i in r.shared.failures ==> i < |r.pcs|)
    && (forall i :: i in r.connected ==> i < |r.pcs|)
    && (forall i :: i in r.closed ==> i in r.connected)
  }

  /** At most one task raises the failure signal, and only on total failure. */
  ghost predicate AlarmOk(r: Race) {
    && (forall i :: 0 <= i < |r.pcs| && r.pcs[i] == Alarming ==> r.alarmer == Some(i))
    && (SignalsFailure(r.shared, |r.pcs|) <==> r.alarmer.Some?)
    && (r.alarmer.Some? ==> r.alarmer.value < |r.pcs| && Ended(r.pcs[r.alarmer.value]))
  }

  predicate WinnerAnnounced(r: Race) {
    r.shared.winner.Some? && r.shared.winner.value < |r.pcs| && r.pcs[r.shared.winner.value] != Announcing
  }

  predicate FailureAnnounced(r: Race) {
    r.alarmer.Some? && r.alarmer.value < |r.pcs| && r.pcs[r.alarmer.value] == Done
  }

  ghost predicate SignalsOk(r: Race) {
    r.signals == (if WinnerAnnounced(r) then 1 else 0) + (if FailureAnnounced(r) then 1 else 0)
  }

  ghost predicate CallerOk(r: Race) {
    && (r.caller != Waiting ==> r.signals > 0)
    && (r.caller.Returned? ==> r.caller.winner == r.shared.winner)
    && (r.caller.Returned? && r.caller.winner.None? ==> r.caller.failures == r.shared.failures)
  }

  ghost predicate Inv(r: Race) {
    TasksOk(r) && SharedOk(r) && AlarmOk(r) && SignalsOk(r) && CallerOk(r)
  }

  lemma InitInv(n: nat)
    requires n > 0
    ensures Inv(Init(n))
  {
    var r := Init(n);
    NoneEnded(r.pcs);
  }

  lemma {:induction false} NoneEnded(pcs: seq<Pc>)
    requires forall i :: 0 <= i < |pcs| ==> pcs[i] == Connecting
    ensures EndedCount(pcs) == 0
  {
    if pcs != [] {
      NoneEnded(pcs[1..]);
    }
  }

  // --------------------------------------------------------- steps keep the invariant

  /** The task that moves is in order afterwards. */
  lemma MovedStaysOk(r: Race, i: nat, succeeds: bool)
    requires i < |r.pcs| && TaskOk(r, i) && Enabled(r, Task(i, succeeds))
    ensures TaskOk(Step(r, Task(i, succeeds)), i)
  {
  }

  /** And so are the others. */
  lemma OtherStaysOk(r: Race, i: nat, succeeds: bool, j: nat)
    requires j < |r.pcs| && j != i && TaskOk(r, j) && Enabled(r, Task(i, succeeds))
    ensures TaskOk(Step(r, Task(i, succeeds)), j)
  {
  }

  lemma TasksStayOk(r: Race, i: nat, succeeds: bool)
    requires TasksOk(r) && Enabled(r, Task(i, succeeds))
    ensures TasksOk(Step(r, Task(i, succeeds)))
  {
    forall j | 0 <= j < |r.pcs| ensures TaskOk(Step(r, Task(i, succeeds)), j) {
      if j == i {
        MovedStaysOk(r, i, succeeds);
      } else {
        OtherStaysOk(r, i, succeeds, j);
      }
    }
  }

  lemma SharedStaysOk(r: Race, i: nat, succeeds: bool)
    requires SharedOk(r) && Enabled(r, Task(i, succeeds)) && TaskOk(r, i)
    ensures SharedOk(Step(r, Task(i, succeeds)))
  {
    EndedCountUpdate(r.pcs, i, Step(r, Task(i, succeeds)).pcs[i]);
  }

  /** A total failure is seen by the last task to finish, and by no other. */
  lemma AlarmStaysOk(r: Race, i: nat, succeeds: bool)
    requires Inv(r) && Enabled(r, Task(i, succeeds))
    ensures AlarmOk(Step(r, Task(i, succeeds)))
  {
    var r' := Step(r, Task(i, succeeds));
    if r.shared.completed == |r.pcs| {
      AllEnded(r.pcs);
    }
  }

  lemma SignalsStayOk(r: Race, i: nat, succeeds: bool)
    requires Inv(r) && Enabled(r, Task(i, succeeds))
    ensures SignalsOk(Step(r, Task(i, succeeds)))
  {
    assert TaskOk(r, i);
    if r.shared.completed == |r.pcs| {
      AllEnded(r.pcs);
    }
  }

  /** Once the caller has been woken, what it reads is final. */
  lemma CallerStaysOk(r: Race, i: nat, succeeds: bool)
    requires Inv(r) && Enabled(r, Task(i, succeeds))
    ensures CallerOk(Step(r, Task(i, succeeds)))
  {
    if r.shared.completed == |r.pcs| {
      AllEnded(r.pcs);
    }
  }

  lemma StepKeepsInv(r: Race, a: Action)
    requires Inv(r) && Enabled(r, a)
    ensures Inv(Step(r, a))
  {
    match a {
      case CallerStep =>
        var r' := Step(r, a);
        forall j | 0 <= j < |r.pcs|
          ensures TaskOk(r', j)
        {
          assert TaskOk(r, j);
        }
      case Task(i, succeeds) =>
        TasksStayOk(r, i, succeeds);
        assert TaskOk(r, i);
        SharedStaysOk(r, i, succeeds);
        AlarmStaysOk(r, i, succeeds);
        SignalsStayOk(r, i, succeeds);
        CallerStaysOk(r, i, succeeds);
    }
  }

  /** The state after the first action of a run. */
  lemma AfterFirst(r: Race, actions: seq<Action>, r': Race) returns (v: Race)
    requires Inv(r) && Reaches(r, actions, r') && actions != []
    ensures Inv(v) && |v.pcs| == |r.pcs| && Reaches(v, actions[1..], r')
  {
    StepKeepsInv(r, actions[0]);
    v := Step(r, actions[0]);
  }

  lemma {:induction false} RunKeepsInv(r: Race, actions: seq<Action>, r': Race)
    requires Inv(r) && Reaches(r, actions, r')
    ensures Inv(r') && |r'.pcs| == |r.pcs|
    decreases |actions|
  {
    if actions != [] {
      var v := AfterFirst(r, actions, r');
      RunKeepsInv(v, actions[1..], r');
    }
  }

  // ---------------------------------------------------------------- main results

  /** In every reachable state the semaphore has been signalled at most once; a caller
      that returned a winner returned the one whose stream is open; a caller that
      returned without one did so after every connect failed, each listed once. */
  lemma RaceIsSafe(n: nat, actions: seq<Action>, r: Race)
    requires n > 0 && Reaches(Init(n), actions, r)
    ensures r.signals <= 1
    ensures r.caller.Returned? && r.caller.winner.Some? ==>
              r.caller.winner.value in r.connected && r.caller.winner.value !in r.closed
    ensures r.caller.Returned? && r.caller.winner.None? ==>
              && r.connected == {}
              && NoDuplicates(r.caller.failures)
              && (forall i :: i in r.caller.failures <==> 0 <= i < n)
  {
    InitInv(n);
    RunKeepsInv(Init(n), actions, r);
    if r.shared.winner.Some? {
      assert TaskOk(r, r.shared.winner.value);
    }
    if r.caller.Returned? && r.caller.winner.None? {
      AllEnded(r.pcs);
      forall i | 0 <= i < n
        ensures i in r.shared.failures && i !in r.connected
      {
        assert TaskOk(r, i);
      }
    }
  }

  /** Nothing more can happen. */
  ghost predicate Stuck(r: Race) {
    forall a :: !Enabled(r, a)
  }

  /** When nothing more can happen the caller has returned, the semaphore was signalled
      exactly once, there is a winner exactly if some connect succeeded, and every other
      opened stream has been closed. */
  lemma RaceOutcome(n: nat, actions: seq<Action>, r: Race)
    requires n > 0 && Reaches(Init(n), actions, r) && Stuck(r)
    ensures r.caller.Returned? && r.signals == 1
    ensures r.caller.winner.Some? <==> r.connected != {}
    ensures r.closed == r.connected - (if r.caller.winner.Some? then {r.caller.winner.value} else {})
  {
    InitInv(n);
    RunKeepsInv(Init(n), actions, r);
    forall i | 0 <= i < n
      ensures r.pcs[i] == Done && TaskOk(r, i)
    {
      assert !Enabled(r, Task(i, true));
    }
    AllDoneCount(r.pcs);
    assert !Enabled(r, CallerStep);
    assert r.caller.winner == r.shared.winner;
    forall i | i in r.connected
      ensures r.shared.winner.Some? && (i in r.closed <==> !IsWinner(r, i))
    {
      assert TaskOk(r, i);
    }
    if r.shared.winner.Some? {
      assert TaskOk(r, r.shared.winner.value);
      assert r.shared.winner.value in r.connected;
    }
  }

  lemma {:induction false} AllDoneCount(pcs: seq<Pc>)
    requires forall i :: 0 <= i < |pcs| ==> pcs[i] == Done
    ensures EndedCount(pcs) == |pcs|
  {
    if pcs != [] {
      AllDoneCount(pcs[1..]);
    }
  }

  function StepsLeft(pc: Pc): nat {
    match pc
    case Connecting => 5
    case Opened => 4
    case Refused => 3
    case Announcing => 3
    case Discarding => 3
    case Finishing => 2
    case Alarming => 1
    case Done => 0
  }

  function TotalLeft(pcs: seq<Pc>): nat {
    if pcs == [] then 0 else StepsLeft(pcs[0]) + TotalLeft(pcs[1..])
  }

  function Work(r: Race): nat {
    TotalLeft(r.pcs) + match r.caller case Waiting => 2 case Woken => 1 case Returned(_, _) => 0
  }

  lemma {:induction false} TotalLeftUpdate(pcs: seq<Pc>, i: nat, pc: Pc)
    requires i < |pcs|
    ensures TotalLeft(pcs[i := pc]) == TotalLeft(pcs) - StepsLeft(pcs[i]) + StepsLeft(pc)
  {
    if i > 0 {
      TotalLeftUpdate(pcs[1..], i - 1, pc);
      assert pcs[i := pc][1..] == pcs[1..][i - 1 := pc];
    } else {
      assert pcs[i := pc][1..] == pcs[1..];
    }
  }

  lemma {:induction false} InitialLeft(pcs: seq<Pc>)
    requires forall i :: 0 <= i < |pcs| ==> pcs[i] == Connecting
    ensures TotalLeft(pcs) == 5 * |pcs|
  {
    if pcs != [] {
      InitialLeft(pcs[1..]);
    }
  }

  lemma TaskAdvances(r: Race, i: nat, succeeds: bool)
    requires Enabled(r, Task(i, succeeds))
    ensures var r' := Step(r, Task(i, succeeds));
            && |r'.pcs| == |r.pcs| && r'.pcs == r.pcs[i := r'.pcs[i]]
            && StepsLeft(r'.pcs[i]) < StepsLeft(r.pcs[i]) && r'.caller == r.caller
  {
  }

  lemma StepSpendsWork(r: Race, a: Action)
    requires Enabled(r, a)
    ensures Work(Step(r, a)) + 1 <= Work(r)
  {
    if a.Task? {
      TaskAdvances(r, a.i, a.succeeds);
      TotalLeftUpdate(r.pcs, a.i, Step(r, a).pcs[a.i]);
    }
  }

  lemma {:induction false} RunSpendsWork(r: Race, actions: seq<Action>, r': Race)
    requires Reaches(r, actions, r')
    ensures Work(r') + |actions| <= Work(r)
    decreases |actions|
  {
    if actions != [] {
      StepSpendsWork(r, actions[0]);
      RunSpendsWork(Step(r, actions[0]), actions[1..], r');
    }
  }

  /** The race always ends: no run is longer than five steps a candidate and two more, so
      with `RaceOutcome` every run that is not cut short returns to the caller. */
  lemma RaceIsBounded(n: nat, actions: seq<Action>, r: Race)
    requires Reaches(Init(n), actions, r)
    ensures |actions| <= 5 * n + 2
  {
    RunSpendsWork(Init(n), actions, r);
    InitialLeft(Init(n).pcs);
  }
}
