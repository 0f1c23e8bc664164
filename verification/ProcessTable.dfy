/** The helper functions of the supervisor, on the array of process ids. */
module ProcessTable {
  import opened Supervisor

  method CountRunningChildProcesses(ids: array<int>) returns (n: nat)
    ensures n == Running(ids[..])
  {
    n := 0;
    for i := 0 to ids.Length
      invariant n == Running(ids[..i])
    {
      assert ids[..i + 1][..i] == ids[..i];
      if ids[i] != NONE {
        n := n + 1;
      }
    }
    assert ids[..ids.Length] == ids[..];
  }

  // ----- update_child_processes_state -----

  /** What waitpid can answer; anything but Child ends the loop. */
  datatype WaitResult = Child(pid: int, ended: bool) | NoneReady | NoChildren | Failed(errno: int)

  /** The slots after the children reported up to the end of the loop. */
  function Updated(slots: seq<int>, results: seq<WaitResult>): (r: seq<int>)
    ensures |r| == |slots|
    decreases |results|
  {
    if results == [] || !results[0].Child? then slots
    else Updated(if results[0].ended then ClearFrom(slots, results[0].pid, 0) else slots, results[1..])
  }

  function FirstEnd(results: seq<WaitResult>): (k: nat)
    ensures k <= |results| && (k < |results| ==> !results[k].Child?)
  {
    if results == [] || !results[0].Child? then 0 else 1 + FirstEnd(results[1..])
  }

  /** Having no children is not an error. */
  function ErrorOf(w: WaitResult): int {
    if w.Failed? then w.errno else 0
  }

  method ClearSlot(ids: array<int>, pid: int) returns (found: bool)
    modifies ids
    ensures ids[..] == ClearFrom(old(ids[..]), pid, 0)
    ensures found <==> pid in old(ids[..])
  {
    ghost var before := ids[..];
    var n := 0;
    while n < ids.Length
      invariant n <= ids.Length && ids[..] == before
      invariant forall j :: 0 <= j < n ==> before[j] != pid
      invariant ClearFrom(before, pid, 0) == ClearFrom(before, pid, n)
    {
      if ids[n] == pid {
        ids[n] := NONE;
        return true;
      }
      n := n + 1;
    }
    return false;
  }

  /** `results` are the answers that waitpid gives one after the other. */
  method UpdateChildProcessesState(ids: array<int>, results: seq<WaitResult>) returns (ret: int)
    requires FirstEnd(results) < |results|
    modifies ids
    ensures ids[..] == Updated(old(ids[..]), results)
    ensures var end := results[FirstEnd(results)];
            ret == if end == NoneReady || end == NoChildren then 0 else end.errno
  {
    ghost var before := ids[..];
    var k := 0;
    assert results[0..] == results;
    while results[k].Child?
      invariant k < |results| && FirstEnd(results) == k + FirstEnd(results[k..])
      invariant Updated(before, results) == Updated(ids[..], results[k..])
      invariant FirstEnd(results[k..]) < |results[k..]|
      decreases |results| - k
    {
      assert results[k..][1..] == results[k + 1..] && results[k..][0] == results[k];
      if results[k].ended {
        var _ := ClearSlot(ids, results[k].pid);
      }
      k := k + 1;
    }
    ret := ErrorOf(results[k]);
  }

  /** The slots of exactly the children reported as ended are free afterwards. */
  lemma {:induction false} UpdatedExact(slots: seq<int>, results: seq<WaitResult>, i: nat)
    requires i < |slots| && forall j, k :: 0 <= j < k < |slots| && slots[j] != NONE ==> slots[j] != slots[k]
    requires forall k :: 0 <= k < |results| && results[k].Child? ==> results[k].pid != NONE
    ensures Updated(slots, results)[i] ==
            if slots[i] != NONE && EndedIn(results, slots[i]) then NONE else slots[i]
    decreases |results|
  {
    if results != [] && results[0].Child? {
      var next := if results[0].ended then ClearFrom(slots, results[0].pid, 0) else slots;
      if results[0].ended { ClearIs(slots, results[0].pid, 0); }
      UpdatedExact(next, results[1..], i);
    }
  }

  predicate EndedIn(results: seq<WaitResult>, pid: int) {
    results != [] && results[0].Child? && ((results[0].ended && results[0].pid == pid) || EndedIn(results[1..], pid))
  }

  // ----- the loop as steps of the supervisor -----

  /**
    Answers that waitpid can give in state s: a dead child is reported as ended and is gone, a living one at most as
    stopped, and the loop learns that nothing is left, or fails.
   */
  ghost predicate Answers(s: State, results: seq<WaitResult>)
    requires s.pc.Draining?
    decreases |results|
  {
    && results != []
    && match results[0]
       case Child(pid, true) => pid in s.zombies && Answers(Apply(s, Reap(pid)), results[1..])
       case Child(pid, false) => pid in s.alive && Answers(s, results[1..])
       case NoneReady => s.zombies == {} && s.alive != {}
       case NoChildren => s.zombies == {} && s.alive == {}
       case Failed(_) => true
  }

  function DrainEvents(results: seq<WaitResult>): seq<Event> {
    if results == [] then []
    else match results[0]
      case Child(pid, true) => [Reap(pid)] + DrainEvents(results[1..])
      case Child(_, false) => DrainEvents(results[1..])
      case Failed(_) => [WaitFails]
      case _ => [NothingToReap]
  }

  /** What the loop leaves: the slots it has updated, and an error exactly when waitpid has failed. */
  ghost predicate Drained(s: State, results: seq<WaitResult>, t: State) {
    var k := FirstEnd(results);
    && k < |results| && t.pc == LoopHead && t.slots == Updated(s.slots, results)
    && t.alive == s.alive && t.pending == s.pending && t.flag == s.flag && t.retries == s.retries
    && t.log.lastFailed == results[k].Failed? && (!results[k].Failed? ==> t.zombies == {})
  }

  lemma LastAnswer(s: State, results: seq<WaitResult>)
    requires s.pc.Draining? && Answers(s, results) && !results[0].Child?
    ensures Possible(s, DrainEvents(results)) && Drained(s, results, After(s, DrainEvents(results)))
  {
    var e := if results[0].Failed? then WaitFails else NothingToReap;
    assert DrainEvents(results) == [e] && Enabled(s, e);
    OneStep(s, e);
  }

  lemma ReapAnswer(s: State, results: seq<WaitResult>, t: State)
    requires s.pc.Draining? && Answers(s, results) && results[0].Child? && results[0].ended
    requires Drained(Apply(s, Reap(results[0].pid)), results[1..], t)
    ensures Drained(s, results, t)
  {
    hide ClearFrom;
  }

  lemma StoppedAnswer(s: State, results: seq<WaitResult>, t: State)
    requires s.pc.Draining? && results != [] && results[0].Child? && !results[0].ended
    requires Drained(s, results[1..], t)
    ensures Drained(s, results, t)
  {
    hide Answers, ClearFrom;
  }

  /** The loop is a run of Reap steps that ends with NothingToReap or WaitFails. */
  lemma {:induction false} DrainRefines(s: State, results: seq<WaitResult>)
    requires s.pc.Draining? && Answers(s, results)
    ensures Possible(s, DrainEvents(results)) && Drained(s, results, After(s, DrainEvents(results)))
    decreases |results|
  {
    if !results[0].Child? {
      LastAnswer(s, results);
    } else if results[0].ended {
      var t := Apply(s, Reap(results[0].pid));
      DrainRefines(t, results[1..]);
      var es := DrainEvents(results);
      assert es[1..] == DrainEvents(results[1..]);
      ReapAnswer(s, results, After(t, es[1..]));
    } else {
      DrainRefines(s, results[1..]);
      StoppedAnswer(s, results, After(s, DrainEvents(results[1..])));
    }
  }

  // ----- exec_exited_child_processes -----

  /** The slots after the first n of them have been gone over; a failed fork stores its -1. */
  function Filled(slots: seq<int>, forks: seq<int>, n: nat): (r: seq<int>)
    requires n <= |slots| == |forks|
    ensures |r| == |slots|
    ensures forall i :: 0 <= i < |slots| ==>
              r[i] == if i < n && slots[i] == NONE then (if forks[i] > 0 then forks[i] else NONE) else slots[i]
  {
    seq(|slots|, i requires 0 <= i < |slots| =>
      if i < n && slots[i] == NONE then (if forks[i] > 0 then forks[i] else NONE) else slots[i])
  }

  /** The answer after the first n slots. */
  function Ran(slots: seq<int>, forks: seq<int>, n: nat): (r: nat)
    requires n <= |slots| == |forks|
    ensures r <= n
  {
    if n == 0 then 0
    else if slots[n - 1] != NONE then Ran(slots, forks, n - 1)
    else if forks[n - 1] > 0 then Ran(slots, forks, n - 1) + 1
    else 0
  }

  /** forks[i] is what fork would return for slot i. */
  method ExecExitedChildProcesses(ids: array<int>, forks: seq<int>) returns (nRunProcs: int)
    requires |forks| == ids.Length
    modifies ids
    ensures ids[..] == Filled(old(ids[..]), forks, ids.Length)
    ensures nRunProcs == Ran(old(ids[..]), forks, ids.Length)
  {
    ghost var before := ids[..];
    nRunProcs := 0;
    var ind := 0;
    assert ids[..] == Filled(before, forks, 0);
    while ind < ids.Length && nRunProcs >= 0
      invariant ind <= ids.Length && nRunProcs == Ran(before, forks, ind)
      invariant ids[..] == Filled(before, forks, ind)
    {
      if ids[ind] == NONE {
        ids[ind] := if forks[ind] > 0 then forks[ind] else NONE;
        if forks[ind] <= 0 {
          nRunProcs := -1;
        }
        nRunProcs := nRunProcs + 1;
      }
      ind := ind + 1;
      assert ids[..] == Filled(before, forks, ind);
    }
  }

  /** The last free slot below n, or -1. */
  function LastFree(slots: seq<int>, n: nat): (i: int)
    requires n <= |slots|
    ensures -1 <= i < n && (i >= 0 ==> slots[i] == NONE)
    ensures forall j :: i < j < n ==> slots[j] != NONE
  {
    if n == 0 then -1 else if slots[n - 1] == NONE then n - 1 else LastFree(slots, n - 1)
  }

  /** A round counts as having run something exactly when its last fork succeeded; it never reports an error. */
  lemma {:induction false} LastForkDecides(slots: seq<int>, forks: seq<int>, n: nat)
    requires n <= |slots| == |forks|
    ensures Ran(slots, forks, n) > 0 <==> LastFree(slots, n) >= 0 && forks[LastFree(slots, n)] > 0
  {
    if n > 0 && slots[n - 1] != NONE { LastForkDecides(slots, forks, n - 1); }
  }

  /** A free slot for which the fork fails. */
  predicate FailsAt(slots: seq<int>, forks: seq<int>, i: nat) {
    i < |slots| == |forks| && slots[i] == NONE && forks[i] <= 0
  }

  /** The answer that is documented: the number of children started, or -1 once a fork has failed. */
  function Promised(slots: seq<int>, forks: seq<int>, n: nat): int
    requires n <= |slots| == |forks|
  {
    if n == 0 then 0
    else
      var p := Promised(slots, forks, n - 1);
      if p == -1 || FailsAt(slots, forks, n - 1) then -1
      else if slots[n - 1] == NONE then p + 1 else p
  }

  /** The answer is as documented exactly when no fork fails. */
  lemma {:induction false} AnswerAsPromisedIff(slots: seq<int>, forks: seq<int>, n: nat)
    requires n <= |slots| == |forks|
    ensures Ran(slots, forks, n) == Promised(slots, forks, n) <==> !exists i: nat :: i < n && FailsAt(slots, forks, i)
    ensures Promised(slots, forks, n) == -1 <==> exists i: nat :: i < n && FailsAt(slots, forks, i)
  {
    if n > 0 {
      AnswerAsPromisedIff(slots, forks, n - 1);
      assert FailsAt(slots, forks, n - 1) ==> exists i: nat :: i < n && FailsAt(slots, forks, i);
    }
  }

  function FirstFailure(slots: seq<int>, forks: seq<int>, i: nat): (k: nat)
    requires i <= |slots| == |forks|
    ensures i <= k <= |slots| && (k < |slots| ==> FailsAt(slots, forks, k))
    ensures forall j :: i <= j < k ==> !FailsAt(slots, forks, j)
    decreases |slots| - i
  {
    if i == |slots| || FailsAt(slots, forks, i) then i else FirstFailure(slots, forks, i + 1)
  }

  /** The slots that are documented: the loop is left at the first fork that fails. */
  function PromisedSlots(slots: seq<int>, forks: seq<int>): seq<int>
    requires |slots| == |forks|
  {
    Filled(slots, forks, FirstFailure(slots, forks, 0))
  }

  /** The slots are as documented exactly when no fork succeeds after the first that failed. */
  lemma SlotsAsPromisedIff(slots: seq<int>, forks: seq<int>)
    requires |slots| == |forks|
    ensures Filled(slots, forks, |slots|) == PromisedSlots(slots, forks) <==>
            forall i :: FirstFailure(slots, forks, 0) < i < |slots| && slots[i] == NONE ==> forks[i] <= 0
  {
    hide FirstFailure;
    var f := FirstFailure(slots, forks, 0);
    var all, some := Filled(slots, forks, |slots|), Filled(slots, forks, f);
    if forall i :: f < i < |slots| && slots[i] == NONE ==> forks[i] <= 0 {
      assert all == some;
    } else {
      var i :| f < i < |slots| && slots[i] == NONE && forks[i] > 0;
      assert all[i] == forks[i] && some[i] == NONE;
    }
  }

  // ----- the round as steps of the supervisor -----

  function SlotEvent(slots: seq<int>, forks: seq<int>, i: nat): Event
    requires i < |slots| == |forks|
  {
    if slots[i] != NONE then SkipSlot else if forks[i] > 0 then Fork(forks[i]) else ForkFails
  }

  function RoundEvents(slots: seq<int>, forks: seq<int>, n: nat): seq<Event>
    requires n <= |slots| == |forks|
  {
    if n == 0 then [] else RoundEvents(slots, forks, n - 1) + [SlotEvent(slots, forks, n - 1)]
  }

  /** The pids that fork returns are those of no other child. */
  ghost predicate NewPids(s: State, forks: seq<int>) {
    && (forall i :: 0 <= i < |forks| && forks[i] > 0 ==> !Known(s, forks[i]))
    && (forall i, j :: 0 <= i < j < |forks| && forks[i] > 0 ==> forks[i] != forks[j])
  }

  ghost predicate RoundAt(s: State, t: State, forks: seq<int>, n: nat) {
    && n <= |s.slots| == |forks|
    && t.slots == Filled(s.slots, forks, n) && t.pc == Respawning(n, Ran(s.slots, forks, n))
    && t.zombies == s.zombies && t.flag == s.flag && t.retries == s.retries
    && forall pid :: pid in t.alive ==> pid in s.alive || pid in forks[..n]
  }

  lemma RoundStep(s: State, t: State, forks: seq<int>, n: nat, m: nat)
    requires NewPids(s, forks) && RoundAt(s, t, forks, n) && m == n + 1 <= |s.slots| == |forks|
    ensures Enabled(t, SlotEvent(s.slots, forks, n))
    ensures RoundAt(s, Apply(t, SlotEvent(s.slots, forks, n)), forks, m)
  {
    var e := SlotEvent(s.slots, forks, n);
    assert t.slots[n] == s.slots[n];
    assert forks[..n + 1] == forks[..n] + [forks[n]];
    if e.Fork? {
      assert forks[n] !in forks[..n];
      assert !Known(s, forks[n]);
    }
    var u := Apply(t, e);
    assert u.slots == Filled(s.slots, forks, n + 1);
  }

  lemma RoundMore(slots: seq<int>, forks: seq<int>, n: nat, m: nat)
    requires m == n + 1 <= |slots| == |forks|
    ensures RoundEvents(slots, forks, m) == RoundEvents(slots, forks, n) + [SlotEvent(slots, forks, n)]
  {}

  lemma RoundStarts(s: State, forks: seq<int>)
    requires s.pc == Respawning(0, 0) && |s.slots| == |forks|
    ensures RoundEvents(s.slots, forks, 0) == [] && Possible(s, []) && RoundAt(s, After(s, []), forks, 0)
  {
    assert Filled(s.slots, forks, 0) == s.slots;
  }

  /** The steps of a round, taken one slot at a time, do what the loop does. */
  lemma {:induction false} RoundRefines(s: State, forks: seq<int>, n: nat)
    requires s.pc == Respawning(0, 0) && n <= |s.slots| == |forks| && NewPids(s, forks)
    ensures Possible(s, RoundEvents(s.slots, forks, n))
    ensures RoundAt(s, After(s, RoundEvents(s.slots, forks, n)), forks, n)
    decreases n
  {
    hide *;
    if n == 0 {
      RoundStarts(s, forks);
    } else {
      RoundRefines(s, forks, n - 1);
      var es := RoundEvents(s.slots, forks, n - 1);
      var t := After(s, es);
      var e := SlotEvent(s.slots, forks, n - 1);
      RoundStep(s, t, forks, n - 1, n);
      OneStep(t, e);
      RunJoin(s, es, [e]);
      RoundMore(s.slots, forks, n - 1, n);
    }
  }
}
