/**
  `wait_child_processes` as an interleaving of its atomic steps with what children, other parts of the
  program and the operator do meanwhile. SIGCHLD is one pending bit, kept while it is blocked.
 */
module Supervisor {

  const NONE := -1

  /** Where the supervisor is. */
  datatype Pc =
    | Entering
    | Draining(first: bool)          // about to call waitpid
    | LoopHead
    | Waiting                        // in sigtimedwait
    | TimedOut
    | Respawning(ind: nat, ran: int) // in the loop of exec_exited_child_processes
    | Returned(error: int)

  datatype Event =
      // what happens around the supervisor
    | ChildDies(pid: int)
    | ChildChanges                   // a child is stopped or continued
    | OtherFork(pid: int)            // a child that is not in the list
    | SetFlag
      // what the supervisor does
    | Block
    | Reap(pid: int)
    | NothingToReap
    | WaitFails
    | TestCondition
    | GetSignal
    | TimeOut
    | Interrupt
    | WaitError(error: int)
    | TestRetries
    | Fork(pid: int)
    | ForkFails
    | SkipSlot
    | EndRound

  datatype State = State(
    pc: Pc, slots: seq<int>, alive: set<int>, zombies: set<int>, pending: bool, flag: bool, retries: int,
    log: Log)

  /**
    What has happened so far: `busy` rounds have started a child, `unreaped` are the children of the list that
    no waitpid has returned yet, and `lastFailed` says that the last drain ended because waitpid failed.
   */
  datatype Log = Log(
    unreaped: set<int>, lastFailed: bool, forkFailed: bool, rounds: nat, busy: nat, charged: nat, respawns: nat)

  // ----- small operations -----

  /** count_running_child_processes */
  function Running(slots: seq<int>): (n: nat)
    ensures n <= |slots|
  {
    if slots == [] then 0
    else Running(slots[..|slots| - 1]) + if slots[|slots| - 1] != NONE then 1 else 0
  }

  /** The search loop of update_child_processes_state: the first slot with this pid is cleared. */
  function ClearFrom(slots: seq<int>, pid: int, i: nat): (r: seq<int>)
    requires i <= |slots|
    ensures |r| == |slots|
    decreases |slots| - i
  {
    if i == |slots| then slots
    else if slots[i] == pid then slots[i := NONE]
    else ClearFrom(slots, pid, i + 1)
  }

  predicate MayRetry(retries: int) {
    retries > 0 || retries == -1
  }

  // ----- one step -----

  predicate Known(s: State, pid: int) {
    pid in s.alive || pid in s.zombies
  }

  predicate Enabled(s: State, e: Event) {
    match e
    case ChildDies(pid) => pid in s.alive
    case ChildChanges => s.alive != {}
    case OtherFork(pid) => pid > 0 && !Known(s, pid)
    case SetFlag => true
    case Block => s.pc.Entering?
    case Reap(pid) => s.pc.Draining? && pid in s.zombies
    case NothingToReap => s.pc.Draining? && s.zombies == {}
    case WaitFails => s.pc.Draining?
    case TestCondition => s.pc.LoopHead?
    case GetSignal => s.pc.Waiting? && s.pending
    case TimeOut => s.pc.Waiting? && !s.pending
    case Interrupt => s.pc.Waiting?
    case WaitError(error) => s.pc.Waiting? && error != 0
    case TestRetries => s.pc.TimedOut?
    case Fork(pid) => s.pc.Respawning? && AtFreeSlot(s) && pid > 0 && !Known(s, pid)
    case ForkFails => s.pc.Respawning? && AtFreeSlot(s)
    case SkipSlot => s.pc.Respawning? && s.pc.ind < |s.slots| && s.slots[s.pc.ind] != NONE
    case EndRound => s.pc.Respawning? && s.pc.ind == |s.slots|
  }

  predicate AtFreeSlot(s: State)
    requires s.pc.Respawning?
  {
    s.pc.ind < |s.slots| && s.slots[s.pc.ind] == NONE
  }

  /** A signal that is not blocked is lost. */
  function Raised(s: State): bool {
    s.pending || !s.pc.Entering?
  }

  function Apply(s: State, e: Event): State
    requires Enabled(s, e)
  {
    match e
    case ChildDies(pid) => s.(alive := s.alive - {pid}, zombies := s.zombies + {pid}, pending := Raised(s))
    case ChildChanges => s.(pending := Raised(s))
    case OtherFork(pid) => s.(alive := s.alive + {pid})
    case SetFlag => s.(flag := true)
    case Block => s.(pc := Draining(true))
    case Reap(pid) =>
      s.(zombies := s.zombies - {pid}, slots := ClearFrom(s.slots, pid, 0),
         log := s.log.(unreaped := s.log.unreaped - {pid}))
    case NothingToReap => s.(pc := LoopHead, log := s.log.(lastFailed := false))
    case WaitFails => s.(pc := LoopHead, log := s.log.(lastFailed := true))
    case TestCondition =>
      s.(pc := if Running(s.slots) > 0 || (!s.flag && MayRetry(s.retries)) then Waiting else Returned(0))
    case GetSignal => s.(pc := Draining(false), pending := false)
    case TimeOut => s.(pc := TimedOut)
    case Interrupt => s.(pc := LoopHead)
    case WaitError(error) => s.(pc := Returned(error))
    case TestRetries =>
      if !s.flag && MayRetry(s.retries) then s.(pc := Respawning(0, 0), log := s.log.(rounds := s.log.rounds + 1))
      else s.(pc := LoopHead)
    case Fork(pid) =>
      s.(pc := Respawning(s.pc.ind + 1, s.pc.ran + 1), slots := s.slots[s.pc.ind := pid], alive := s.alive + {pid},
         log := s.log.(respawns := s.log.respawns + 1, unreaped := s.log.unreaped + {pid},
                       busy := s.log.busy + if s.pc.ran == 0 then 1 else 0))
    case ForkFails => // the count is set to -1 and then counted up; the loop goes on
      s.(pc := Respawning(s.pc.ind + 1, 0), log := s.log.(forkFailed := true))
    case SkipSlot => s.(pc := Respawning(s.pc.ind + 1, s.pc.ran))
    case EndRound =>
      if s.pc.ran > 0 && s.retries > 0 then
        s.(pc := LoopHead, retries := s.retries - 1, log := s.log.(charged := s.log.charged + 1))
      else s.(pc := LoopHead)
  }

  predicate Possible(s: State, es: seq<Event>)
    decreases |es|
  {
    es != [] ==> Enabled(s, es[0]) && Possible(Apply(s, es[0]), es[1..])
  }

  function After(s: State, es: seq<Event>): State
    requires Possible(s, es)
    decreases |es|
  {
    if es == [] then s else After(Apply(s, es[0]), es[1..])
  }

  /** How a call can begin. */
  ghost predicate Initial(s: State) {
    && s.pc == Entering && !s.pending
    && s.log == Log(set i | 0 <= i < |s.slots| && s.slots[i] != NONE :: s.slots[i], false, false, 0, 0, 0, 0)
    && s.alive !! s.zombies && PidsOk(s) && SlotsOk(s)
  }

  // ----- what every step keeps -----

  ghost predicate PidsOk(s: State) {
    (forall pid :: pid in s.alive ==> pid > 0) && (forall pid :: pid in s.zombies ==> pid > 0)
  }

  /** The slots hold distinct children that have not been reaped. */
  ghost predicate SlotsOk(s: State) {
    && (forall i :: 0 <= i < |s.slots| ==> s.slots[i] == NONE || (s.slots[i] > 0 && Known(s, s.slots[i])))
    && (forall i, j :: 0 <= i < j < |s.slots| && s.slots[i] != NONE ==> s.slots[i] != s.slots[j])
  }

  /** Every child of the list that has not been reaped is still in its slot. */
  ghost predicate ListedOk(s: State) {
    forall pid :: pid in s.log.unreaped ==> Known(s, pid) && pid in s.slots
  }

  /** Outside the drains there is a dead child to reap, and no signal tells of it. */
  ghost predicate Missed(s: State) {
    !s.pc.Entering? && !s.pc.Draining? && s.zombies != {} && !s.pending
  }

  /** An exit is missed at most while the last drain has failed. */
  ghost predicate SignalOk(s: State) {
    Missed(s) ==> s.log.lastFailed
  }

  ghost predicate PcOk(s: State) {
    match s.pc
    case Respawning(ind, ran) => ind <= |s.slots| && 0 <= ran <= ind && MayRetry(s.retries)
    case Returned(error) => error == 0 ==> Running(s.slots) == 0 && (s.flag || !MayRetry(s.retries))
    case _ => true
  }

  ghost predicate Inv(s: State) {
    s.alive !! s.zombies && PidsOk(s) && SlotsOk(s) && ListedOk(s) && SignalOk(s) && PcOk(s)
  }

  lemma {:induction false} ClearIs(slots: seq<int>, pid: int, i: nat)
    requires i <= |slots| && pid != NONE
    requires forall j :: 0 <= j < i ==> slots[j] != pid
    requires forall j, k :: 0 <= j < k < |slots| && slots[j] != NONE ==> slots[j] != slots[k]
    ensures var r := ClearFrom(slots, pid, i);
            forall j :: 0 <= j < |slots| ==> r[j] == if slots[j] == pid then NONE else slots[j]
    decreases |slots| - i
  {
    if i < |slots| && slots[i] != pid { ClearIs(slots, pid, i + 1); }
  }

  lemma {:induction false} RunningZero(slots: seq<int>)
    ensures Running(slots) == 0 <==> forall i :: 0 <= i < |slots| ==> slots[i] == NONE
  {
    if slots != [] {
      var front := slots[..|slots| - 1];
      RunningZero(front);
      if forall i :: 0 <= i < |front| ==> front[i] == NONE {
        assert forall i :: 0 <= i < |slots| - 1 ==> slots[i] == front[i];
      }
    }
  }

  lemma ReapInv(s: State, pid: int)
    requires Inv(s) && Enabled(s, Reap(pid))
    ensures Inv(Apply(s, Reap(pid)))
  {
    ClearIs(s.slots, pid, 0);
    hide ClearFrom, Running;
    var t := Apply(s, Reap(pid));
    forall q | q in t.log.unreaped ensures Known(t, q) && q in t.slots {
      assert Known(s, q) && q in s.slots;
      var i :| 0 <= i < |s.slots| && s.slots[i] == q;
      assert t.slots[i] == q;
    }
  }

  lemma ForkInv(s: State, pid: int)
    requires Inv(s) && Enabled(s, Fork(pid))
    ensures Inv(Apply(s, Fork(pid)))
  {
    hide Running;
    var t := Apply(s, Fork(pid));
    forall q | q in t.log.unreaped ensures Known(t, q) && q in t.slots {
      if q == pid {
        assert t.slots[s.pc.ind] == q;
      } else {
        assert Known(s, q) && q in s.slots;
        var i :| 0 <= i < |s.slots| && s.slots[i] == q;
        assert t.slots[i] == q;
      }
    }
  }

  /** What happens around the supervisor. */
  predicate Outside(e: Event) {
    e.ChildDies? || e.ChildChanges? || e.OtherFork? || e.SetFlag?
  }

  lemma OutsideInv(s: State, e: Event)
    requires Inv(s) && Enabled(s, e) && Outside(e)
    ensures Inv(Apply(s, e))
  {
    hide Running, ClearFrom;
    var t := Apply(s, e);
    assert forall q :: Known(s, q) ==> Known(t, q);
  }

  lemma OwnInv(s: State, e: Event)
    requires Inv(s) && Enabled(s, e) && !Outside(e) && !e.Reap? && !e.Fork?
    ensures Inv(Apply(s, e))
  {
    hide Running, ClearFrom;
    var t := Apply(s, e);
    assert t.slots == s.slots && t.alive == s.alive && t.zombies == s.zombies && t.log.unreaped == s.log.unreaped;
    assert forall q :: Known(s, q) <==> Known(t, q);
    assert SlotsOk(t) && ListedOk(t) && PidsOk(t) by { hide Apply, Enabled, SignalOk, PcOk; }
    hide SlotsOk, ListedOk, PidsOk, Known;
  }

  lemma StepInv(s: State, e: Event)
    requires Inv(s) && Enabled(s, e)
    ensures Inv(Apply(s, e))
  {
    hide Inv, Enabled, Apply;
    match e
    case Reap(pid) => ReapInv(s, pid);
    case Fork(pid) => ForkInv(s, pid);
    case ChildDies(_) => OutsideInv(s, e);
    case ChildChanges => OutsideInv(s, e);
    case OtherFork(_) => OutsideInv(s, e);
    case SetFlag => OutsideInv(s, e);
    case _ => OwnInv(s, e);
  }

  lemma {:induction false} RunInv(s: State, es: seq<Event>)
    requires Inv(s) && Possible(s, es)
    ensures Inv(After(s, es))
    decreases |es|
  {
    hide Inv, Enabled, Apply;
    if es != [] {
      StepInv(s, es[0]);
      RunInv(Apply(s, es[0]), es[1..]);
    }
  }

  lemma InitialInv(s: State)
    requires Initial(s)
    ensures Inv(s)
  {}

  // ----- no exit is missed -----

  /**
    In every interleaving: unless the last drain was cut short by a failing waitpid, a dead child that is still to
    be reaped has the signal pending, so sigtimedwait neither blocks nor times out over it.
   */
  lemma NoExitMissed(s: State, es: seq<Event>)
    requires Initial(s) && Possible(s, es)
    ensures var t := After(s, es);
            && (Missed(t) ==> t.log.lastFailed)
            && (t.pc.Waiting? && !t.log.lastFailed && t.zombies != {} ==> Enabled(t, GetSignal) && !Enabled(t, TimeOut))
  {
    InitialInv(s);
    RunInv(s, es);
  }

  /** The child processes raise the signal. */
  predicate Signals(e: Event) {
    e.ChildDies? || e.ChildChanges?
  }

  /** waitpid failed at step i with a dead child left over and no signal pending, and none has been raised since. */
  ghost predicate FailedAt(s: State, es: seq<Event>, i: nat) {
    && i < |es| && es[i].WaitFails? && Possible(s, es[..i + 1])
    && var t := After(s, es[..i + 1]);
       t.zombies != {} && !t.pending && forall j :: i < j < |es| ==> !Signals(es[j])
  }

  lemma MissedStep(s: State, e: Event)
    requires Enabled(s, e)
    ensures Missed(Apply(s, e)) <==>
            !Signals(e) && (Missed(s) || (e.WaitFails? && s.zombies != {} && !s.pending))
  {
    hide ClearFrom, Running;
  }

  lemma LastStep(s: State, es: seq<Event>, n: nat)
    requires Possible(s, es) && n + 1 == |es|
    ensures Possible(s, es[..n]) && Enabled(After(s, es[..n]), es[n])
    ensures After(s, es) == Apply(After(s, es[..n]), es[n])
  {
    hide Enabled, Apply;
    assert es == es[..n] + [es[n]];
    RunSplit(s, es[..n], [es[n]]);
    assert [es[n]][1..] == [];
  }

  lemma FailedLast(s: State, es: seq<Event>, n: nat)
    requires Possible(s, es) && n + 1 == |es| && es[n].WaitFails?
    requires Possible(s, es[..n]) && After(s, es[..n]).zombies != {} && !After(s, es[..n]).pending
    ensures FailedAt(s, es, n)
  {
    LastStep(s, es, n);
    assert es[..n + 1] == es;
  }

  lemma FailedBefore(s: State, es: seq<Event>, n: nat, i: nat)
    requires n + 1 == |es| && i < n
    ensures FailedAt(s, es, i) <==> FailedAt(s, es[..n], i) && !Signals(es[n])
  {
    hide Possible, After;
    assert es[..n][..i + 1] == es[..i + 1];
    if FailedAt(s, es[..n], i) && !Signals(es[n]) {
      forall j | i < j < |es| ensures !Signals(es[j]) {
        assert j < n ==> es[j] == es[..n][j];
      }
    }
  }

  /**
    Exactly when an exit is missed: a waitpid has failed with a dead child left over and no signal pending, and no
    child has changed its state since.
   */
  lemma {:induction false} ExitMissedIff(s: State, es: seq<Event>)
    requires Initial(s) && Possible(s, es)
    ensures Missed(After(s, es)) <==> exists i :: FailedAt(s, es, i)
    decreases |es|
  {
    if es != [] {
      var n := |es| - 1;
      LastStep(s, es, n);
      var t := After(s, es[..n]);
      hide Enabled, Apply, Missed, Initial, Possible, After;
      ExitMissedIff(s, es[..n]);
      MissedStep(t, es[n]);
      forall i: nat | i < n ensures FailedAt(s, es, i) <==> FailedAt(s, es[..n], i) && !Signals(es[n]) {
        FailedBefore(s, es, n, i);
      }
      if es[n].WaitFails? && t.zombies != {} && !t.pending { FailedLast(s, es, n); }
      if FailedAt(s, es, n) { FailedLeaves(s, es, n); }
    }
  }

  lemma FailedLeaves(s: State, es: seq<Event>, n: nat)
    requires Possible(s, es) && n + 1 == |es| && FailedAt(s, es, n)
    ensures Possible(s, es[..n]) && After(s, es[..n]).zombies != {} && !After(s, es[..n]).pending
  {
    LastStep(s, es, n);
    assert es[..n + 1] == es;
  }

  /** It does happen: when the first waitpid fails, a child that died before goes unnoticed. */
  lemma FailedWaitMissesExit(pid: int) returns (s: State, es: seq<Event>)
    requires pid > 0
    ensures Initial(s) && Possible(s, es)
    ensures var t := After(s, es); t.pc == Waiting && t.zombies == {pid} && t.slots == [pid] && !t.pending
  {
    var log := Log({pid}, false, false, 0, 0, 0, 0);
    s := State(Entering, [pid], {pid}, {}, false, false, 0, log);
    assert s.log.unreaped == set i | 0 <= i < |s.slots| && s.slots[i] != NONE :: s.slots[i];
    var dead := State(Entering, [pid], {}, {pid}, false, false, 0, log);
    var failed := dead.(pc := LoopHead, log := log.(lastFailed := true));
    es := [ChildDies(pid), Block, WaitFails, TestCondition];
    assert Apply(s, ChildDies(pid)) == dead;
    RunningOne(pid);
    Chain(s, es, [dead, dead.(pc := Draining(true)), failed, failed.(pc := Waiting)]);
  }

  lemma RunningOne(pid: int)
    requires pid > 0
    ensures Running([pid]) == 1
  {
    assert [pid][..0] == [];
  }

  lemma {:induction false} Chain(s: State, es: seq<Event>, ss: seq<State>)
    requires |es| == |ss| > 0
    requires Enabled(s, es[0]) && ss[0] == Apply(s, es[0])
    requires forall i :: 0 <= i < |es| - 1 ==> Enabled(ss[i], es[i + 1]) && ss[i + 1] == Apply(ss[i], es[i + 1])
    ensures Possible(s, es) && After(s, es) == ss[|es| - 1]
    decreases |es|
  {
    hide Enabled, Apply;
    if |es| > 1 {
      forall i | 0 <= i < |es[1..]| - 1
        ensures Enabled(ss[1..][i], es[1..][i + 1]) && ss[1..][i + 1] == Apply(ss[1..][i], es[1..][i + 1])
      {
        assert Enabled(ss[i + 1], es[i + 1 + 1]);
      }
      assert Enabled(ss[0], es[0 + 1]);
      Chain(ss[0], es[1..], ss[1..]);
    }
  }

  // ----- a drain -----

  /** What can happen while update_child_processes_state loops. */
  predicate InDrain(e: Event) {
    e.ChildDies? || e.ChildChanges? || e.OtherFork? || e.SetFlag? || e.Reap?
  }

  function Reaped(es: seq<Event>): set<int> {
    if es == [] then {}
    else (if es[0].Reap? then {es[0].pid} else {}) + Reaped(es[1..])
  }

  /** The slots in which a drain that reaped `gone` leaves the children. */
  ghost predicate ClearedOnly(before: seq<int>, after: seq<int>, gone: set<int>) {
    |after| == |before| && forall i :: 0 <= i < |before| ==> after[i] == if before[i] in gone then NONE else before[i]
  }

  lemma DrainStep(s: State, e: Event)
    requires Inv(s) && s.pc.Draining? && InDrain(e) && Enabled(s, e)
    ensures Apply(s, e).pc.Draining?
    ensures ClearedOnly(s.slots, Apply(s, e).slots, Reaped([e]))
    ensures s.zombies <= Apply(s, e).zombies + Reaped([e])
    ensures NONE !in Reaped([e])
  {
    assert [e][1..] == [];
    if e.Reap? { ClearIs(s.slots, e.pid, 0); }
  }

  lemma {:induction false} DrainRun(s: State, es: seq<Event>)
    requires Inv(s) && s.pc.Draining? && Possible(s, es) && forall i :: 0 <= i < |es| ==> InDrain(es[i])
    ensures ClearedOnly(s.slots, After(s, es).slots, Reaped(es)) && NONE !in Reaped(es)
    ensures After(s, es).pc.Draining? && s.zombies <= After(s, es).zombies + Reaped(es)
    decreases |es|
  {
    hide Inv, Enabled, Apply;
    if es != [] {
      assert [es[0]][1..] == [] && Reaped([es[0]]) + Reaped(es[1..]) == Reaped(es);
      DrainStep(s, es[0]);
      StepInv(s, es[0]);
      DrainRun(Apply(s, es[0]), es[1..]);
    }
  }

  lemma OneStep(t: State, e: Event)
    requires Enabled(t, e)
    ensures Possible(t, [e]) && After(t, [e]) == Apply(t, e)
  {
    hide Enabled, Apply;
    assert [e][1..] == [];
  }

  lemma {:induction false} RunJoin(s: State, a: seq<Event>, b: seq<Event>)
    requires Possible(s, a) && Possible(After(s, a), b)
    ensures Possible(s, a + b) && After(s, a + b) == After(After(s, a), b)
    decreases |a|
  {
    hide Enabled, Apply;
    if a == [] {
      assert a + b == b;
    } else {
      assert (a + b)[1..] == a[1..] + b;
      RunJoin(Apply(s, a[0]), a[1..], b);
    }
  }

  lemma {:induction false} RunSplit(s: State, a: seq<Event>, b: seq<Event>)
    requires Possible(s, a + b)
    ensures Possible(s, a) && Possible(After(s, a), b) && After(s, a + b) == After(After(s, a), b)
    decreases |a|
  {
    hide Enabled, Apply;
    if a == [] {
      assert a + b == b;
    } else {
      assert (a + b)[1..] == a[1..] + b;
      RunSplit(Apply(s, a[0]), a[1..], b);
    }
  }

  /**
    A drain that ends because nothing is left clears exactly the slots of the children it reaped, has reaped every
    child that was dead when it began, and leaves only living children in the slots.
   */
  lemma DrainExact(s: State, es: seq<Event>)
    requires Inv(s) && s.pc.Draining? && forall i :: 0 <= i < |es| ==> InDrain(es[i])
    requires Possible(s, es + [NothingToReap])
    ensures var t := After(s, es + [NothingToReap]);
            && ClearedOnly(s.slots, t.slots, Reaped(es)) && s.zombies <= Reaped(es)
            && forall i :: 0 <= i < |t.slots| && t.slots[i] != NONE ==> t.slots[i] in t.alive
  {
    hide *;
    RunSplit(s, es, [NothingToReap]);
    DrainRun(s, es);
    RunInv(s, es + [NothingToReap]);
    DrainDone(After(s, es));
    SlotsAlive(After(s, es + [NothingToReap]));
  }

  lemma DrainDone(s: State)
    requires Possible(s, [NothingToReap])
    ensures var t := After(s, [NothingToReap]); s.zombies == t.zombies == {} && t.slots == s.slots
  {
    assert [NothingToReap][1..] == [];
  }

  lemma SlotsAlive(s: State)
    requires Inv(s) && s.zombies == {}
    ensures forall i :: 0 <= i < |s.slots| && s.slots[i] != NONE ==> s.slots[i] in s.alive
  {
    hide Running;
  }

  // ----- returning -----

  /**
    A normal return: every slot is free, every child of the list has been reaped, and the exit flag is set or the
    retries are used up.
   */
  lemma NormalReturn(s: State, es: seq<Event>)
    requires Initial(s) && Possible(s, es) && After(s, es).pc == Returned(0)
    ensures var t := After(s, es);
            && (forall i :: 0 <= i < |t.slots| ==> t.slots[i] == NONE)
            && t.log.unreaped == {}
            && (t.flag || !MayRetry(t.retries))
  {
    InitialInv(s);
    RunInv(s, es);
    RunningZero(After(s, es).slots);
    hide Running, Initial;
    var t := After(s, es);
    forall pid ensures pid !in t.log.unreaped {
      assert pid in t.slots ==> pid == NONE;
      assert pid in t.log.unreaped ==> Known(t, pid) && pid in t.slots;
    }
    assert t.log.unreaped == {};
  }

  /**
    The loop condition, spelled out: the supervisor returns 0 exactly when no slot holds a child and either the flag is
    set or no retry is left, -1 standing for any number of them; otherwise it waits.
   */
  lemma LeavesIff(s: State)
    requires s.pc.LoopHead?
    ensures var free := forall i :: 0 <= i < |s.slots| ==> s.slots[i] == -1;
            Apply(s, TestCondition) == s.(pc :=
              if free && (s.flag || (s.retries != -1 && s.retries <= 0)) then Returned(0) else Waiting)
  {
    RunningZero(s.slots);
    hide Running;
  }

  lemma ErrorStep(s: State, e: Event, error: int)
    requires Enabled(s, e) && error != 0
    ensures Apply(s, e).pc == Returned(error) <==> s.pc == Returned(error) || e == WaitError(error)
  {
    hide Running, ClearFrom;
  }

  /** The answer is an error exactly when sigtimedwait has failed with it. */
  lemma {:induction false} ErrorReturnIff(s: State, es: seq<Event>, error: int)
    requires Possible(s, es) && error != 0
    ensures After(s, es).pc == Returned(error) <==> s.pc == Returned(error) || WaitError(error) in es
    decreases |es|
  {
    hide Enabled, Apply;
    if es != [] {
      ErrorStep(s, es[0], error);
      ErrorReturnIff(Apply(s, es[0]), es[1..], error);
      assert es == [es[0]] + es[1..];
    }
  }

  /** How often sigtimedwait has timed out. */
  function TimeOuts(es: seq<Event>): nat {
    if es == [] then 0 else (if es[0].TimeOut? then 1 else 0) + TimeOuts(es[1..])
  }

  function Due(s: State): nat {
    s.log.rounds + if s.pc.TimedOut? then 1 else 0
  }

  lemma DueStep(s: State, e: Event)
    requires Enabled(s, e)
    ensures Due(Apply(s, e)) <= Due(s) + if e.TimeOut? then 1 else 0
  {
    hide Running, ClearFrom;
  }

  /** Every round of restarts has waited for a whole retry period: it follows a time-out of its own. */
  lemma {:induction false} RoundsNeedTimeOuts(s: State, es: seq<Event>)
    requires Possible(s, es)
    ensures After(s, es).log.rounds <= Due(After(s, es)) <= Due(s) + TimeOuts(es)
    decreases |es|
  {
    hide Enabled, Apply, Due;
    if es != [] {
      DueStep(s, es[0]);
      RoundsNeedTimeOuts(Apply(s, es[0]), es[1..]);
    } else {
      RoundsDue(s);
    }
  }

  lemma RoundsDue(s: State)
    ensures s.log.rounds <= Due(s)
  {}

  // ----- the exit flag -----

  lemma {:induction false} RunningUpdate(slots: seq<int>, i: nat, v: int)
    requires i < |slots|
    ensures Running(slots[i := v]) ==
            Running(slots) - (if slots[i] != NONE then 1 else 0) + (if v != NONE then 1 else 0)
  {
    var n := |slots| - 1;
    if i < n {
      RunningUpdate(slots[..n], i, v);
      assert slots[i := v][..n] == slots[..n][i := v];
    } else {
      assert slots[i := v][..n] == slots[..n];
    }
  }

  lemma {:induction false} ClearRuns(slots: seq<int>, pid: int, i: nat)
    requires i <= |slots|
    ensures Running(ClearFrom(slots, pid, i)) <= Running(slots)
    decreases |slots| - i
  {
    if i < |slots| {
      if slots[i] == pid { RunningUpdate(slots, i, NONE); } else { ClearRuns(slots, pid, i + 1); }
    }
  }

  /** A round is under way that still has a free slot before it. */
  ghost predicate FreeAhead(s: State) {
    s.pc.Respawning? && exists i :: s.pc.ind <= i < |s.slots| && s.slots[i] == NONE
  }

  lemma FlagStep(s: State, e: Event)
    requires Enabled(s, e) && s.flag && !FreeAhead(s)
    ensures var t := Apply(s, e);
            && t.flag && !FreeAhead(t) && Running(t.slots) <= Running(s.slots)
            && t.log.rounds == s.log.rounds && t.log.respawns == s.log.respawns
  {
    hide Running, ClearFrom;
    if e.Reap? { ClearRuns(s.slots, e.pid, 0); }
  }

  /**
    Once the exit flag is set, and unless a round is under way with a free slot before it, nothing is started any
    more and the running count only falls.
   */
  lemma {:induction false} FlagStopsRespawning(s: State, es: seq<Event>)
    requires Possible(s, es) && s.flag && !FreeAhead(s)
    ensures var t := After(s, es);
            && t.flag && !FreeAhead(t) && Running(t.slots) <= Running(s.slots)
            && t.log.rounds == s.log.rounds && t.log.respawns == s.log.respawns
    decreases |es|
  {
    hide Enabled, Apply, FreeAhead;
    if es != [] {
      FlagStep(s, es[0]);
      FlagStopsRespawning(Apply(s, es[0]), es[1..]);
    }
  }

  /** No round begins after the flag, wherever the supervisor is when it is set. */
  lemma {:induction false} NoRoundAfterFlag(s: State, es: seq<Event>)
    requires Possible(s, es) && s.flag
    ensures After(s, es).log.rounds == s.log.rounds
    decreases |es|
  {
    if es != [] { NoRoundAfterFlag(Apply(s, es[0]), es[1..]); }
  }

  // ----- the budget -----

  /** Every charged round costs a retry, and there are no more of them than retries to begin with. */
  ghost predicate BudgetOk(s: State, budget: int) {
    if budget >= 0 then s.retries >= 0 && s.retries + s.log.charged == budget else s.retries == budget
  }

  function InRound(pc: Pc): int {
    if pc.Respawning? then pc.ran else 0
  }

  function Times(k: nat, n: nat): nat { k * n }

  lemma TimesNext(k: nat, n: nat)
    ensures Times(k + 1, n) == Times(k, n) + n
  {}

  lemma TimesOrder(a: nat, b: nat, n: nat)
    requires a <= b
    ensures Times(a, n) <= b * n
  {}

  /** When no fork fails, the children started are covered by the rounds charged and the one under way. */
  ghost predicate ForksCovered(s: State, n: nat) {
    && |s.slots| == n
    && (!s.log.forkFailed && s.retries >= 0 ==>
          && s.log.respawns <= Times(s.log.charged, n) + InRound(s.pc)
          && s.log.busy == s.log.charged + if InRound(s.pc) > 0 then 1 else 0)
  }

  lemma BudgetStep(s: State, e: Event, budget: int, n: nat)
    requires Inv(s) && Enabled(s, e) && BudgetOk(s, budget) && ForksCovered(s, n)
    ensures BudgetOk(Apply(s, e), budget) && ForksCovered(Apply(s, e), n)
  {
    TimesNext(s.log.charged, n);
    hide Running, ClearFrom, SlotsOk, ListedOk, SignalOk, PidsOk, Times;
  }

  lemma {:induction false} BudgetRun(s: State, es: seq<Event>, budget: int, n: nat)
    requires Inv(s) && Possible(s, es) && BudgetOk(s, budget) && ForksCovered(s, n)
    ensures BudgetOk(After(s, es), budget) && ForksCovered(After(s, es), n)
    decreases |es|
  {
    hide Enabled, Apply, Inv, BudgetOk, ForksCovered;
    if es != [] {
      BudgetStep(s, es[0], budget, n);
      StepInv(s, es[0]);
      BudgetRun(Apply(s, es[0]), es[1..], budget, n);
    }
  }

  /** With r retries and no failing fork, at most r rounds start children, and at most r times n children in all. */
  lemma BoundedRespawns(s: State, es: seq<Event>)
    requires Initial(s) && Possible(s, es) && s.retries >= 0
    ensures var t := After(s, es);
            && t.log.charged + t.retries == s.retries
            && t.log.charged <= s.retries
            && (!t.log.forkFailed ==> t.log.busy <= s.retries && t.log.respawns <= s.retries * |s.slots|)
  {
    InitialInv(s);
    RunInv(s, es);
    BudgetRun(s, es, s.retries, |s.slots|);
    hide Initial, SlotsOk, ListedOk, SignalOk, PidsOk, Running;
    var t := After(s, es);
    var n := |s.slots|;
    TimesNext(t.log.charged, n);
    if t.pc.Respawning? {
      TimesOrder(t.log.charged + 1, s.retries, n);
    } else {
      TimesOrder(t.log.charged, s.retries, n);
    }
  }

  // ----- the supervisor never gets stuck -----

  lemma NonEmpty(pids: set<int>)
    ensures pids == {} || exists pid :: pid in pids
  {
    if forall pid :: pid !in pids {
      assert pids == {};
    }
  }

  /** Left alone, a drain comes to its end: whatever is dead gets reaped, and nothing else changes. */
  lemma {:induction false} DrainEnds(s: State) returns (es: seq<Event>)
    requires s.pc.Draining?
    ensures Possible(s, es) && After(s, es).pc == LoopHead && After(s, es).zombies == {}
    ensures SameBut(s, After(s, es), After(s, es).log.unreaped)
    ensures forall i :: 0 <= i < |es| ==> es[i].Reap? || es[i].NothingToReap?
    decreases |s.zombies|
  {
    hide ClearFrom;
    if s.zombies == {} {
      es := [NothingToReap];
      assert es[1..] == [];
    } else {
      NonEmpty(s.zombies);
      var pid :| pid in s.zombies;
      var t := Apply(s, Reap(pid));
      var rest := DrainEnds(t);
      es := [Reap(pid)] + rest;
      assert es[1..] == rest;
    }
  }

  /** What a drain that runs to its end leaves as it is. */
  ghost predicate SameBut(s: State, t: State, unreaped: set<int>) {
    && t.alive == s.alive && t.pending == s.pending && t.flag == s.flag && t.retries == s.retries
    && |t.slots| == |s.slots| && t.log == s.log.(unreaped := unreaped, lastFailed := false)
  }

  /** A child that is not in the list can come and go: it is reaped with the others, and no slot changes. */
  lemma ForeignChild(s: State, pid: int)
    requires Inv(s) && s.pc.Draining? && Enabled(s, OtherFork(pid))
    ensures var es := [OtherFork(pid), ChildDies(pid), Reap(pid)];
            && Possible(s, es)
            && After(s, es) == s.(pending := true, log := s.log.(unreaped := s.log.unreaped - {pid}))
  {
    var t := s.(alive := s.alive + {pid});
    var u := s.(zombies := s.zombies + {pid}, pending := true);
    var v := s.(pending := true, log := s.log.(unreaped := s.log.unreaped - {pid}));
    assert s.alive + {pid} - {pid} == s.alive && s.zombies + {pid} - {pid} == s.zombies;
    assert forall i :: 0 <= i < |s.slots| ==> s.slots[i] != pid;
    ClearsNothing(s.slots, pid, 0);
    assert Apply(s, OtherFork(pid)) == t && Apply(t, ChildDies(pid)) == u && Apply(u, Reap(pid)) == v;
    hide Inv, Apply, Running;
    Chain(s, [OtherFork(pid), ChildDies(pid), Reap(pid)], [t, u, v]);
  }

  lemma {:induction false} ClearsNothing(slots: seq<int>, pid: int, i: nat)
    requires i <= |slots| && forall j :: 0 <= j < |slots| ==> slots[j] != pid
    ensures ClearFrom(slots, pid, i) == slots
    decreases |slots| - i
  {
    if i < |slots| { ClearsNothing(slots, pid, i + 1); }
  }

  /** A dead child found while waiting is reaped by the supervisor's own steps, and its slot becomes free. */
  lemma ExitGetsHandled(s: State) returns (es: seq<Event>)
    requires Inv(s) && s.pc.Waiting? && !s.log.lastFailed && s.zombies != {}
    ensures Possible(s, es) && After(s, es).pc == LoopHead && After(s, es).zombies == {}
    ensures var t := After(s, es); forall i :: 0 <= i < |t.slots| && t.slots[i] != NONE ==> t.slots[i] in t.alive
  {
    var t := Apply(s, GetSignal);
    var rest := DrainEnds(t);
    es := [GetSignal] + rest;
    assert es[1..] == rest;
    RunInv(s, es);
  }
}
