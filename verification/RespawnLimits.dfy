/**
  How far the exit flag and the retries limit what the supervisor starts, and that it comes to an end: exact
  conditions, and runs that go beyond what `wait_child_processes` promises where these do not hold.
 */
module RespawnLimits {
  import opened Supervisor

  // ----- runs -----

  /** The steps es lead from s to t. */
  ghost predicate Reaches(s: State, es: seq<Event>, t: State) {
    Possible(s, es) && After(s, es) == t
  }

  lemma Stay(s: State)
    ensures Reaches(s, [], s)
  {}

  lemma Join(s: State, a: seq<Event>, t: State, b: seq<Event>, u: State)
    requires Reaches(s, a, t) && Reaches(t, b, u)
    ensures Reaches(s, a + b, u)
  {
    hide Possible, After;
    RunJoin(s, a, b);
  }

  lemma One(s: State, e: Event)
    requires Enabled(s, e)
    ensures Reaches(s, [e], Apply(s, e))
  {
    hide Enabled, Apply;
    OneStep(s, e);
  }

  lemma Three(s: State, a: Event, t: State, b: Event, u: State, c: Event)
    requires Enabled(s, a) && t == Apply(s, a) && Enabled(t, b) && u == Apply(t, b) && Enabled(u, c)
    ensures Reaches(s, [a, b, c], Apply(u, c))
  {
    hide *;
    One(s, a);
    One(t, b);
    One(u, c);
    Join(s, [a], t, [b], u);
    Join(s, [a] + [b], u, [c], Apply(u, c));
    assert [a] + [b] + [c] == [a, b, c];
  }

  lemma KeepsInv(s: State, es: seq<Event>, t: State)
    requires Inv(s) && Reaches(s, es, t)
    ensures Inv(t)
  {
    hide Inv, Possible, After;
    RunInv(s, es);
  }

  lemma {:induction false} FreshPid(s: set<int>) returns (pid: int)
    ensures pid > 0 && forall q :: q in s ==> q < pid
  {
    NonEmpty(s);
    if s == {} {
      pid := 1;
    } else {
      var q :| q in s;
      var p := FreshPid(s - {q});
      pid := if q < p then p else q + 1;
      assert forall x :: x in s ==> x == q || x in s - {q};
    }
  }

  // ----- the exit flag -----

  lemma {:induction false} NextFork(s: State) returns (es: seq<Event>, t: State)
    requires FreeAhead(s)
    ensures Reaches(s, es, t) && Running(t.slots) == Running(s.slots) + 1
    decreases |s.slots| - s.pc.ind
  {
    hide Running, Reaches;
    if AtFreeSlot(s) {
      var pid := FreshPid(s.alive + s.zombies);
      t := Apply(s, Fork(pid));
      RunningUpdate(s.slots, s.pc.ind, pid);
      One(s, Fork(pid));
      es := [Fork(pid)];
    } else {
      var u := Apply(s, SkipSlot);
      One(s, SkipSlot);
      var more;
      more, t := NextFork(u);
      Join(s, [SkipSlot], u, more, t);
      es := [SkipSlot] + more;
    }
  }

  /** From s on the number of running children does not grow. */
  ghost predicate NeverGrows(s: State) {
    forall es :: Possible(s, es) ==> Running(After(s, es).slots) <= Running(s.slots)
  }

  /** After the flag the count can grow exactly when a round is under way with a free slot before it. */
  lemma FlagStopsIff(s: State)
    requires s.flag
    ensures NeverGrows(s) <==> !FreeAhead(s)
  {
    hide Possible, After, FreeAhead, Running;
    if FreeAhead(s) {
      var es, t := NextFork(s);
      assert Possible(s, es);
    } else {
      forall es | Possible(s, es) ensures Running(After(s, es).slots) <= Running(s.slots) {
        FlagStopsRespawning(s, es);
      }
    }
  }

  /** What the exit flag is for: whenever it is found set, the number of running children does not grow any more. */
  ghost predicate FlagPromise(s: State) {
    forall es :: Possible(s, es) && After(s, es).flag ==> NeverGrows(After(s, es))
  }

  /** The supervisor never gets to start anything: it has no slots, or no retries. */
  ghost predicate NothingToStart(s: State) {
    s.slots == [] || (!MayRetry(s.retries) && !s.pc.Respawning?)
  }

  lemma {:induction false} NothingStarted(s: State, es: seq<Event>)
    requires Possible(s, es) && NothingToStart(s)
    ensures NothingToStart(After(s, es)) && After(s, es).log.respawns == s.log.respawns
    decreases |es|
  {
    hide Enabled, Apply, NothingToStart;
    if es != [] {
      NothingStartedStep(s, es[0]);
      NothingStarted(Apply(s, es[0]), es[1..]);
    }
  }

  lemma NothingStartedStep(s: State, e: Event)
    requires Enabled(s, e) && NothingToStart(s)
    ensures NothingToStart(Apply(s, e)) && Apply(s, e).log.respawns == s.log.respawns
  {
    hide Running;
  }

  // ----- a supervisor without children -----

  /** At the loop head, with no child, dead or alive, no signal, and no flag. */
  ghost predicate Quiet(s: State) {
    Inv(s) && s.pc.LoopHead? && s.alive == {} && s.zombies == {} && !s.pending && !s.flag
  }

  lemma QuietSlots(s: State)
    requires Quiet(s)
    ensures Running(s.slots) == 0 && forall i :: 0 <= i < |s.slots| ==> s.slots[i] == NONE
  {
    RunningZero(s.slots);
    hide Running;
  }

  lemma {:induction false} AllDie(s: State) returns (es: seq<Event>, t: State)
    ensures Reaches(s, es, t)
    ensures t == s.(alive := {}, zombies := s.zombies + s.alive,
                    pending := if s.alive == {} then s.pending else Raised(s))
    decreases |s.alive|
  {
    hide Reaches;
    NonEmpty(s.alive);
    if s.alive == {} {
      es, t := [], s;
      Stay(s);
      assert s.zombies + {} == s.zombies;
    } else {
      var pid :| pid in s.alive;
      var u := Apply(s, ChildDies(pid));
      One(s, ChildDies(pid));
      var more;
      more, t := AllDie(u);
      Join(s, [ChildDies(pid)], u, more, t);
      es := [ChildDies(pid)] + more;
      assert s.zombies + {pid} + (s.alive - {pid}) == s.zombies + s.alive;
    }
  }

  /** What is the same for the next round. */
  ghost predicate SameBudget(s: State, t: State) {
    && t.retries == s.retries && |t.slots| == |s.slots|
    && t.log.respawns == s.log.respawns && t.log.forkFailed == s.log.forkFailed
  }

  lemma DrainToQuiet(s: State) returns (es: seq<Event>, t: State)
    requires Inv(s) && s.pc.Draining? && s.alive == {} && !s.pending && !s.flag
    ensures Reaches(s, es, t) && Quiet(t) && SameBudget(s, t)
  {
    es := DrainEnds(s);
    t := After(s, es);
    hide Inv, Possible, After;
    KeepsInv(s, es, t);
  }

  /** A call can come to a quiet loop head at once: all children die before it blocks the signal. */
  lemma ReachQuiet(s: State) returns (es: seq<Event>, t: State)
    requires Initial(s) && !s.flag
    ensures Reaches(s, es, t) && Quiet(t) && SameBudget(s, t)
  {
    InitialInv(s);
    hide Inv, Reaches, Possible, After;
    var dying, u := AllDie(s);
    KeepsInv(s, dying, u);
    var v := Apply(u, Block);
    One(u, Block);
    KeepsInv(u, [Block], v);
    var drain;
    drain, t := DrainToQuiet(v);
    Join(s, dying, u, [Block], v);
    Join(s, dying + [Block], v, drain, t);
    es := dying + [Block] + drain;
  }

  lemma SomeRunning(s: State)
    requires Inv(s) && s.zombies == {} && Running(s.slots) > 0
    ensures s.alive != {}
  {
    RunningZero(s.slots);
    hide Running;
  }

  /** When all children die at the loop head, the supervisor reaps them and is quiet again. */
  lemma Settle(s: State) returns (es: seq<Event>, t: State)
    requires Inv(s) && s.pc.LoopHead? && s.zombies == {} && Running(s.slots) > 0 && !s.flag
    ensures Reaches(s, es, t) && Quiet(t) && SameBudget(s, t)
  {
    SomeRunning(s);
    hide Inv, Reaches, Possible, After, Running;
    var dying, u := AllDie(s);
    KeepsInv(s, dying, u);
    var wait := [TestCondition, GetSignal];
    var v := Apply(u, TestCondition);
    var w := Apply(v, GetSignal);
    One(u, TestCondition);
    One(v, GetSignal);
    KeepsInv(u, [TestCondition], v);
    KeepsInv(v, [GetSignal], w);
    var drain;
    drain, t := DrainToQuiet(w);
    Join(s, dying, u, [TestCondition], v);
    Join(s, dying + [TestCondition], v, [GetSignal], w);
    Join(s, dying + [TestCondition] + [GetSignal], w, drain, t);
    es := dying + [TestCondition] + [GetSignal] + drain;
  }

  lemma RoundBegins(s: State) returns (es: seq<Event>, t: State)
    requires Quiet(s) && MayRetry(s.retries)
    ensures Reaches(s, es, t) && Inv(t) && t == s.(pc := Respawning(0, 0), log := t.log) && SameBudget(s, t)
    ensures forall i :: 0 <= i < |t.slots| ==> t.slots[i] == NONE
  {
    QuietSlots(s);
    hide Inv, Reaches, Running;
    var u := Apply(s, TestCondition);
    var v := Apply(u, TimeOut);
    t := Apply(v, TestRetries);
    es := [TestCondition, TimeOut, TestRetries];
    Three(s, TestCondition, u, TimeOut, v, TestRetries);
    KeepsInv(s, es, t);
  }

  /** With retries and a slot the promise fails: the flag is set when a round has just begun. */
  lemma FlagComesLate(s: State) returns (es: seq<Event>)
    requires Initial(s) && !s.flag && s.slots != [] && MayRetry(s.retries)
    ensures Possible(s, es) && After(s, es).flag && FreeAhead(After(s, es))
  {
    var quiet, q := ReachQuiet(s);
    var begin, r := RoundBegins(q);
    var t := Apply(r, SetFlag);
    One(r, SetFlag);
    assert FreeAhead(t) by { assert t.slots[0] == NONE; }
    hide Apply, Initial, Quiet, FreeAhead, Inv;
    Join(s, quiet, q, begin, r);
    Join(s, quiet + begin, r, [SetFlag], t);
    es := quiet + begin + [SetFlag];
  }

  /**
    Exactly when the flag keeps its promise, in terms of how the call was made: when it was set already, or when
    there is nothing to start anyway.
   */
  lemma FlagPromiseIff(s: State)
    requires Initial(s)
    ensures FlagPromise(s) <==> s.flag || s.slots == [] || !MayRetry(s.retries)
  {
    hide Possible, After, NeverGrows, FreeAhead, Inv;
    if s.flag || s.slots == [] || !MayRetry(s.retries) {
      forall es | Possible(s, es) && After(s, es).flag ensures NeverGrows(After(s, es)) {
        FlagStopsIff(After(s, es));
        if s.flag {
          NoFreeAhead(s);
          FlagStopsRespawning(s, es);
        } else {
          NothingStarted(s, es);
          NothingAhead(After(s, es));
        }
      }
    } else {
      var es := FlagComesLate(s);
      FlagStopsIff(After(s, es));
    }
  }

  lemma NoFreeAhead(s: State)
    requires Initial(s)
    ensures !FreeAhead(s)
  {}

  lemma NothingAhead(s: State)
    requires NothingToStart(s)
    ensures !FreeAhead(s)
  {}

  // ----- the retries -----

  /** With at most one slot a round that starts a child is charged, whatever fails. */
  ghost predicate OneCovered(s: State) {
    |s.slots| <= 1 && s.retries >= 0 && s.log.respawns <= s.log.charged + InRound(s.pc)
  }

  lemma OneCoveredStep(s: State, e: Event)
    requires Inv(s) && Enabled(s, e) && OneCovered(s)
    ensures OneCovered(Apply(s, e))
  {
    hide Running, ClearFrom, SlotsOk, ListedOk, SignalOk, PidsOk;
  }

  lemma {:induction false} OneCoveredRun(s: State, es: seq<Event>)
    requires Inv(s) && Possible(s, es) && OneCovered(s)
    ensures OneCovered(After(s, es))
    decreases |es|
  {
    hide Enabled, Apply, Inv, OneCovered;
    if es != [] {
      OneCoveredStep(s, es[0]);
      StepInv(s, es[0]);
      OneCoveredRun(Apply(s, es[0]), es[1..]);
    }
  }

  lemma OneSlotBound(s: State, es: seq<Event>)
    requires Initial(s) && Possible(s, es) && s.retries >= 0 && |s.slots| == 1
    ensures After(s, es).log.respawns <= s.retries
  {
    InitialInv(s);
    RunInv(s, es);
    OneCoveredRun(s, es);
    BoundedRespawns(s, es);
    hide Possible, After, Running, SlotsOk, ListedOk, SignalOk, PidsOk;
  }

  /** The budget that is kept whatever fails. */
  predicate Limited(s: State) {
    s.flag || |s.slots| <= 1 || s.retries == 0
  }

  lemma LimitKept(s: State, es: seq<Event>)
    requires Initial(s) && Possible(s, es) && s.retries >= 0 && Limited(s)
    ensures After(s, es).log.respawns <= s.retries
    ensures After(s, es).log.respawns <= s.retries * |s.slots|
  {
    hide Possible, After, FreeAhead, NothingToStart;
    if s.flag {
      NoFreeAhead(s);
      FlagStopsRespawning(s, es);
    } else if s.retries == 0 || s.slots == [] {
      assert NothingToStart(s) by { NothingAtFirst(s); }
      NothingStarted(s, es);
    } else {
      OneSlotBound(s, es);
    }
  }

  lemma NothingAtFirst(s: State)
    requires Initial(s) && (s.retries == 0 || s.slots == [])
    ensures NothingToStart(s)
  {}

  // ----- rounds that are not charged -----

  ghost predicate FreeFrom(s: State, ind: nat) {
    forall i :: ind <= i < |s.slots| ==> s.slots[i] == NONE
  }

  lemma {:induction false} ForksFail(s: State) returns (es: seq<Event>, t: State)
    requires s.pc.Respawning? && s.pc.ind < |s.slots| && FreeFrom(s, s.pc.ind)
    ensures Reaches(s, es, t)
    ensures t == s.(pc := Respawning(|s.slots|, 0), log := s.log.(forkFailed := true))
    decreases |s.slots| - s.pc.ind
  {
    hide Reaches;
    t := Apply(s, ForkFails);
    One(s, ForkFails);
    es := [ForkFails];
    if t.pc.ind < |t.slots| {
      var more, u := ForksFail(t);
      Join(s, es, t, more, u);
      es, t := es + more, u;
    }
  }

  /** The first slot gets a child, all other forks fail, and the round costs nothing. */
  lemma UnchargedRound(s: State) returns (es: seq<Event>, t: State)
    requires Quiet(s) && MayRetry(s.retries) && |s.slots| >= 2
    ensures Reaches(s, es, t) && Quiet(t)
    ensures t.retries == s.retries && |t.slots| == |s.slots| && t.log.respawns == s.log.respawns + 1
  {
    var begin, r := RoundBegins(s);
    var u := Apply(r, Fork(1));
    One(r, Fork(1));
    var fail, v := ForksFail(u);
    var w := Apply(v, EndRound);
    One(v, EndRound);
    hide Apply, Enabled, Reaches, Inv, Running;
    KeepsInv(r, [Fork(1)], u);
    KeepsInv(u, fail, v);
    KeepsInv(v, [EndRound], w);
    FirstRuns(w.slots);
    var settle;
    settle, t := Settle(w);
    Join(s, begin, r, [Fork(1)], u);
    Join(s, begin + [Fork(1)], u, fail, v);
    Join(s, begin + [Fork(1)] + fail, v, [EndRound], w);
    Join(s, begin + [Fork(1)] + fail + [EndRound], w, settle, t);
    es := begin + [Fork(1)] + fail + [EndRound] + settle;
  }

  lemma FirstRuns(slots: seq<int>)
    requires slots != [] && slots[0] != NONE
    ensures Running(slots) > 0
  {
    RunningZero(slots);
  }

  lemma {:induction false} UnchargedRounds(s: State, m: nat) returns (es: seq<Event>, t: State)
    requires Quiet(s) && MayRetry(s.retries) && |s.slots| >= 2
    ensures Reaches(s, es, t) && Quiet(t)
    ensures t.retries == s.retries && |t.slots| == |s.slots| && t.log.respawns == s.log.respawns + m
    decreases m
  {
    hide Quiet, Reaches;
    if m == 0 {
      es, t := [], s;
      Stay(s);
    } else {
      var first, u := UnchargedRound(s);
      var rest;
      rest, t := UnchargedRounds(u, m - 1);
      Join(s, first, u, rest, t);
      es := first + rest;
    }
  }

  /** With two slots and a retry any number of children can be started, and every retry is still left. */
  lemma RespawnsUnlimited(s: State, m: nat) returns (es: seq<Event>)
    requires Initial(s) && MayRetry(s.retries) && !s.flag && |s.slots| >= 2
    ensures Possible(s, es) && After(s, es).log.respawns == m && After(s, es).retries == s.retries
  {
    var quiet, q := ReachQuiet(s);
    hide Quiet;
    var rounds, t := UnchargedRounds(q, m);
    Join(s, quiet, q, rounds, t);
    es := quiet + rounds;
  }

  /** All runs of a call keep to the bound. */
  ghost predicate AtMost(s: State, bound: int) {
    forall es :: Possible(s, es) ==> After(s, es).log.respawns <= bound
  }

  /**
    Main result: exactly when the retries bound what is started. The bound of one child for each retry, which the
    header promises, and the bound of one for each retry and slot hold under the same condition.
   */
  lemma BudgetIff(s: State)
    requires Initial(s) && s.retries >= 0
    ensures AtMost(s, s.retries) <==> Limited(s)
    ensures AtMost(s, s.retries * |s.slots|) <==> Limited(s)
  {
    hide Initial, Possible, After;
    if Limited(s) {
      forall es | Possible(s, es)
        ensures After(s, es).log.respawns <= s.retries && After(s, es).log.respawns <= s.retries * |s.slots|
      {
        LimitKept(s, es);
      }
    } else {
      var a := RespawnsUnlimited(s, s.retries + 1);
      assert !AtMost(s, s.retries);
      var b := RespawnsUnlimited(s, s.retries * |s.slots| + 1);
      assert !AtMost(s, s.retries * |s.slots|);
    }
  }

  // ----- without a failed fork -----

  lemma {:induction false} ForksSucceed(s: State) returns (es: seq<Event>, t: State)
    requires s.pc.Respawning? && s.pc.ind < |s.slots| && s.pc.ran >= 0 && FreeFrom(s, s.pc.ind)
    ensures Reaches(s, es, t)
    ensures t.pc == Respawning(|s.slots|, s.pc.ran + |s.slots| - s.pc.ind) && |t.slots| == |s.slots|
    ensures t.slots[s.pc.ind] != NONE && t.slots[..s.pc.ind] == s.slots[..s.pc.ind]
    ensures t.zombies == s.zombies && t.pending == s.pending && t.flag == s.flag && t.retries == s.retries
    ensures t.log.respawns == s.log.respawns + |s.slots| - s.pc.ind && t.log.forkFailed == s.log.forkFailed
    decreases |s.slots| - s.pc.ind
  {
    hide Reaches;
    var pid := FreshPid(s.alive + s.zombies);
    t := Apply(s, Fork(pid));
    One(s, Fork(pid));
    es := [Fork(pid)];
    if t.pc.ind < |t.slots| {
      var more, u := ForksSucceed(t);
      Join(s, es, t, more, u);
      assert u.slots[s.pc.ind] == u.slots[..t.pc.ind][s.pc.ind] == t.slots[..t.pc.ind][s.pc.ind];
      assert u.slots[..s.pc.ind] == u.slots[..t.pc.ind][..s.pc.ind];
      es, t := es + more, u;
    }
  }

  /** A round in which every slot gets a child costs one retry. */
  lemma ChargedRound(s: State) returns (es: seq<Event>, t: State)
    requires Quiet(s) && s.retries > 0 && s.slots != []
    ensures Reaches(s, es, t) && Quiet(t)
    ensures t.retries == s.retries - 1 && |t.slots| == |s.slots|
    ensures t.log.respawns == s.log.respawns + |s.slots| && t.log.forkFailed == s.log.forkFailed
  {
    var begin, r := RoundBegins(s);
    var forks, v := ForksSucceed(r);
    var w := Apply(v, EndRound);
    One(v, EndRound);
    hide Apply, Enabled, Reaches, Inv, Running;
    KeepsInv(r, forks, v);
    KeepsInv(v, [EndRound], w);
    FirstRuns(w.slots);
    var settle;
    settle, t := Settle(w);
    Join(s, begin, r, forks, v);
    Join(s, begin + forks, v, [EndRound], w);
    Join(s, begin + forks + [EndRound], w, settle, t);
    es := begin + forks + [EndRound] + settle;
  }

  lemma {:induction false} ChargedRounds(s: State) returns (es: seq<Event>, t: State)
    requires Quiet(s) && s.retries >= 0 && s.slots != []
    ensures Reaches(s, es, t) && !t.log.forkFailed == !s.log.forkFailed
    ensures t.log.respawns == s.log.respawns + Times(s.retries, |s.slots|)
    decreases s.retries
  {
    hide Quiet, Reaches, Times;
    if s.retries == 0 {
      es, t := [], s;
      Stay(s);
      NoTimes(|s.slots|);
    } else {
      var first, u := ChargedRound(s);
      var rest;
      rest, t := ChargedRounds(u);
      Join(s, first, u, rest, t);
      TimesNext(u.retries, |s.slots|);
      es := first + rest;
    }
  }

  lemma NoTimes(n: nat)
    ensures Times(0, n) == 0
  {}

  /** All runs of a call in which no fork fails keep to the bound. */
  ghost predicate AtMostWithoutFailure(s: State, bound: int) {
    forall es :: Possible(s, es) && !After(s, es).log.forkFailed ==> After(s, es).log.respawns <= bound
  }

  /**
    Without a failed fork one child for each retry and slot is the bound, and it is reached: the bound that the header
    promises is exceeded by every call that is not limited.
   */
  lemma BudgetWithoutFailure(s: State)
    requires Initial(s) && s.retries >= 0
    ensures AtMostWithoutFailure(s, s.retries * |s.slots|)
    ensures AtMostWithoutFailure(s, s.retries) <==> Limited(s)
    ensures !s.flag ==> exists es ::
              Possible(s, es) && !After(s, es).log.forkFailed && After(s, es).log.respawns == s.retries * |s.slots|
  {
    forall es | Possible(s, es) && !After(s, es).log.forkFailed
      ensures After(s, es).log.respawns <= s.retries * |s.slots|
      ensures Limited(s) ==> After(s, es).log.respawns <= s.retries
    {
      BoundedRespawns(s, es);
      if Limited(s) { LimitKept(s, es); }
    }
    hide Possible, After;
    if !s.flag {
      var es := BoundReached(s);
      if !Limited(s) { MoreThan(s.retries, |s.slots|); }
    }
  }

  lemma MoreThan(r: nat, n: nat)
    requires r >= 1 && n >= 2
    ensures r * n > r
  {}

  lemma BoundReached(s: State) returns (es: seq<Event>)
    requires Initial(s) && s.retries >= 0 && !s.flag
    ensures Possible(s, es) && !After(s, es).log.forkFailed && After(s, es).log.respawns == s.retries * |s.slots|
  {
    var quiet, q := ReachQuiet(s);
    hide Quiet;
    if s.slots == [] {
      es := quiet;
    } else {
      var rounds, t := ChargedRounds(q);
      Join(s, quiet, q, rounds, t);
      es := quiet + rounds;
    }
  }

  // ----- the shutdown -----

  predicate OwnSteps(es: seq<Event>) {
    forall i :: 0 <= i < |es| ==> !Outside(es[i])
  }

  /** The supervisor gets from s to t by itself. */
  ghost predicate Proceeds(s: State, es: seq<Event>, t: State) {
    Reaches(s, es, t) && OwnSteps(es)
  }

  lemma OneOwn(s: State, e: Event)
    requires Enabled(s, e) && !Outside(e)
    ensures Proceeds(s, [e], Apply(s, e))
  {
    hide Enabled, Apply, Reaches;
    One(s, e);
  }

  lemma JoinOwn(s: State, a: seq<Event>, t: State, b: seq<Event>, u: State)
    requires Proceeds(s, a, t) && Proceeds(t, b, u)
    ensures Proceeds(s, a + b, u)
  {
    hide Reaches, Outside;
    Join(s, a, t, b, u);
  }

  /** A slot is occupied, no signal tells of the child in it, and the supervisor is not about to look. */
  ghost predicate Stuck(s: State) {
    && !s.pc.Entering? && !s.pc.Draining? && !s.pending && s.pc != Returned(0)
    && exists i :: 0 <= i < |s.slots| && s.slots[i] != NONE
  }

  lemma StuckStep(s: State, e: Event)
    requires Stuck(s) && Enabled(s, e) && !Outside(e)
    ensures Stuck(Apply(s, e))
  {
    var i :| 0 <= i < |s.slots| && s.slots[i] != NONE;
    RunningZero(s.slots);
    hide Running, ClearFrom;
    assert i < |Apply(s, e).slots| && Apply(s, e).slots[i] != NONE;
  }

  lemma {:induction false} StaysStuck(s: State, es: seq<Event>)
    requires Stuck(s) && Possible(s, es) && OwnSteps(es)
    ensures Stuck(After(s, es))
    decreases |es|
  {
    hide Stuck, Enabled, Apply, Outside;
    if es != [] {
      StuckStep(s, es[0]);
      StaysStuck(Apply(s, es[0]), es[1..]);
    }
  }

  /** The flag is set and every child is dead. */
  ghost predicate Closing(s: State) {
    Inv(s) && s.flag && s.alive == {}
  }

  lemma OwnKeepsInv(s: State, es: seq<Event>, t: State)
    requires Inv(s) && Proceeds(s, es, t)
    ensures Inv(t)
  {
    hide Inv, Reaches;
    KeepsInv(s, es, t);
  }

  lemma ReapedSlots(s: State)
    requires Closing(s) && s.zombies == {}
    ensures forall i :: 0 <= i < |s.slots| ==> s.slots[i] == NONE
  {
    hide Running;
  }

  /** With all slots free the loop is left at its head. */
  lemma LeaveLoop(s: State) returns (es: seq<Event>, t: State)
    requires Closing(s) && s.pc.LoopHead? && forall i :: 0 <= i < |s.slots| ==> s.slots[i] == NONE
    ensures Proceeds(s, es, t) && t.pc == Returned(0)
  {
    LeavesIff(s);
    hide Inv, Apply, Proceeds;
    t := Apply(s, TestCondition);
    OneOwn(s, TestCondition);
    es := [TestCondition];
  }

  lemma ClosingDrain(s: State) returns (es: seq<Event>, t: State)
    requires Closing(s) && s.pc.Draining?
    ensures Proceeds(s, es, t) && t.pc == Returned(0)
  {
    var drain := DrainEnds(s);
    var u := After(s, drain);
    assert Proceeds(s, drain, u);
    hide Inv, Proceeds, Possible, After;
    OwnKeepsInv(s, drain, u);
    ReapedSlots(u);
    var leave;
    leave, t := LeaveLoop(u);
    JoinOwn(s, drain, u, leave, t);
    es := drain + leave;
  }

  lemma ClosingWait(s: State) returns (es: seq<Event>, t: State)
    requires Closing(s) && s.pc.Waiting? && s.pending
    ensures Proceeds(s, es, t) && t.pc == Returned(0)
  {
    hide Inv, Proceeds;
    var u := Apply(s, GetSignal);
    OneOwn(s, GetSignal);
    OwnKeepsInv(s, [GetSignal], u);
    var drain;
    drain, t := ClosingDrain(u);
    JoinOwn(s, [GetSignal], u, drain, t);
    es := [GetSignal] + drain;
  }

  lemma ClosingHead(s: State) returns (es: seq<Event>, t: State)
    requires Closing(s) && s.pc.LoopHead? && !Stuck(s)
    ensures Proceeds(s, es, t) && t.pc == Returned(0)
  {
    if forall i :: 0 <= i < |s.slots| ==> s.slots[i] == NONE {
      es, t := LeaveLoop(s);
    } else {
      LeavesIff(s);
      hide Inv, Proceeds, Apply;
      var u := Apply(s, TestCondition);
      OneOwn(s, TestCondition);
      OwnKeepsInv(s, [TestCondition], u);
      var wait;
      wait, t := ClosingWait(u);
      JoinOwn(s, [TestCondition], u, wait, t);
      es := [TestCondition] + wait;
    }
  }

  /** What the rest of a round in which the forks fail leaves as it is. */
  ghost predicate OnlyRound(s: State, t: State) {
    && t.slots == s.slots && t.alive == s.alive && t.pending == s.pending && t.flag == s.flag
  }

  lemma {:induction false} RoundEnds(s: State) returns (es: seq<Event>, t: State)
    requires s.pc.Respawning? && s.pc.ind <= |s.slots|
    ensures Proceeds(s, es, t) && t.pc.LoopHead? && OnlyRound(s, t)
    decreases |s.slots| - s.pc.ind
  {
    hide Proceeds;
    var e := if s.pc.ind == |s.slots| then EndRound else if AtFreeSlot(s) then ForkFails else SkipSlot;
    t := Apply(s, e);
    OneOwn(s, e);
    es := [e];
    if t.pc.Respawning? {
      var more, u := RoundEnds(t);
      JoinOwn(s, es, t, more, u);
      es, t := es + more, u;
    }
  }

  /** By one step, or by the rest of a round, the supervisor comes to the loop head or to a drain. */
  lemma ClosingRound(s: State) returns (es: seq<Event>, t: State)
    requires Closing(s) && s.pc.Respawning? && !Stuck(s)
    ensures Proceeds(s, es, t) && t.pc == Returned(0)
  {
    var round, u := RoundEnds(s);
    hide Inv, Proceeds;
    OwnKeepsInv(s, round, u);
    var leave;
    leave, t := ClosingHead(u);
    JoinOwn(s, round, u, leave, t);
    es := round + leave;
  }

  lemma ClosingTimeout(s: State) returns (es: seq<Event>, t: State)
    requires Closing(s) && s.pc.TimedOut? && !Stuck(s)
    ensures Proceeds(s, es, t) && t.pc == Returned(0)
  {
    hide Inv, Proceeds;
    var u := Apply(s, TestRetries);
    OneOwn(s, TestRetries);
    OwnKeepsInv(s, [TestRetries], u);
    var leave;
    leave, t := ClosingHead(u);
    JoinOwn(s, [TestRetries], u, leave, t);
    es := [TestRetries] + leave;
  }

  lemma ClosingIdle(s: State) returns (es: seq<Event>, t: State)
    requires Closing(s) && s.pc.Waiting? && !s.pending && !Stuck(s)
    ensures Proceeds(s, es, t) && t.pc == Returned(0)
  {
    hide Inv, Proceeds;
    var u := Apply(s, TimeOut);
    OneOwn(s, TimeOut);
    OwnKeepsInv(s, [TimeOut], u);
    var leave;
    leave, t := ClosingTimeout(u);
    JoinOwn(s, [TimeOut], u, leave, t);
    es := [TimeOut] + leave;
  }

  lemma ClosingStart(s: State) returns (es: seq<Event>, t: State)
    requires Closing(s) && s.pc.Entering?
    ensures Proceeds(s, es, t) && t.pc == Returned(0)
  {
    hide Inv, Proceeds;
    var u := Apply(s, Block);
    OneOwn(s, Block);
    OwnKeepsInv(s, [Block], u);
    var drain;
    drain, t := ClosingDrain(u);
    JoinOwn(s, [Block], u, drain, t);
    es := [Block] + drain;
  }

  lemma Closes(s: State) returns (es: seq<Event>, t: State)
    requires Closing(s) && !s.pc.Returned? && !Stuck(s)
    ensures Proceeds(s, es, t) && t.pc == Returned(0)
  {
    hide Closing, Stuck, Proceeds;
    match s.pc
    case Entering => es, t := ClosingStart(s);
    case Draining(_) => es, t := ClosingDrain(s);
    case LoopHead => es, t := ClosingHead(s);
    case Waiting => if s.pending { es, t := ClosingWait(s); } else { es, t := ClosingIdle(s); }
    case TimedOut => es, t := ClosingTimeout(s);
    case Respawning(_, _) => es, t := ClosingRound(s);
  }

  /**
    The shutdown ends: with the flag set and all children dead the supervisor's own steps lead to a return of 0, exactly
    unless a failed waitpid has left a child of the list in its slot with no signal pending.
   */
  lemma ShutdownIff(s: State)
    requires Inv(s) && s.flag && s.alive == {} && !s.pc.Returned?
    ensures (exists es :: Possible(s, es) && OwnSteps(es) && After(s, es).pc == Returned(0)) <==> !Stuck(s)
    ensures Stuck(s) ==> Missed(s) && s.log.lastFailed
  {
    if Stuck(s) {
      StuckIsMissed(s);
      forall es | Possible(s, es) && OwnSteps(es) ensures After(s, es).pc != Returned(0) { StaysStuck(s, es); }
    } else {
      hide Inv, Possible, After, Stuck;
      var es, t := Closes(s);
    }
  }

  lemma StuckIsMissed(s: State)
    requires Inv(s) && s.alive == {} && Stuck(s)
    ensures Missed(s) && s.log.lastFailed
  {
    hide Running;
  }
}
