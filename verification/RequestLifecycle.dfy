/**
  The requests of `LibCamera` between the camera, its completion callback, the queue of completed requests and the
  worker thread, while the worker reads, returns, resets and stops. `stop()` of the camera returns when it has
  cancelled everything that was pending and no callback is under way.
 */
module RequestLifecycle {
  import opened Collections

  /** Where the worker thread is. */
  datatype Pc =
    | Starting              // startCamera
    | Creating              // startCapture: createRequest
    | CameraStart           // camera_->start
    | Queueing(next: nat)   // the first calls of queueRequest
    | Aborting              // camera_->stop after one of them failed
    | StartFailed
    | LoopTop
    | Reading               // readFrame
    | Holding               // compressing, then returnFrameBuffer
    | Returned
    | StopBegin             // stopCamera
    | StopWait              // in camera_->stop
    | Clearing              // after the disconnect: requestQueue.pop
    | Destroying            // requests_.clear
    | Finished
    | Exited                // exit or an exception that nobody catches

  datatype Event =
      // the camera and its callback
    | Complete(r: int)
    | Cancel(r: int)
    | Push(r: int)
      // other threads
    | AskSnapshot
    | AskStop
      // the worker
    | Configure(ok: bool)
    | Create(n: nat, ok: bool)
    | StartCapture(ok: bool)
    | QueueNext(ok: bool)
    | QueuedAll
    | Aborted
    | AfterFailure
    | TestLoop(otherSize: bool)
    | Read
    | Return(ok: bool)
    | AfterReturn
    | TestStarted
    | StopReturns(ok: bool)
    | ClearQueue
    | Destroy

  /** The requests of the current generation and where each of them is. */
  datatype Requests = Requests(
    live: set<int>,           // requests_
    order: seq<int>,          // and their order
    base: int, next: int,     // numbers of this generation
    atCamera: set<int>,
    calling: set<int>,        // completed, and the callback has not pushed them yet
    queue: seq<int>,          // requestQueue
    hand: Option<int>,        // what the worker has read and not returned
    idle: set<int>)           // with nobody: not queued yet, cancelled, or refused by the camera

  datatype State = State(
    pc: Pc, first: bool, isSwitch: bool, last: bool, snapshot: bool, stop: bool,
    started: bool, running: bool,
    failed: bool,             // some operation has failed in this generation
    own: Requests)

  function Initial(): State {
    State(Starting, true, false, false, false, false, false, false, false, Requests({}, [], 0, 0, {}, {}, [], None, {}))
  }

  /** What the camera may do by itself: it holds requests only while it runs. */
  predicate CameraMayCancel(s: State) {
    s.pc.StopWait? || s.pc.Aborting?
  }

  predicate NothingPending(s: State) {
    s.own.atCamera == {} && s.own.calling == {}
  }

  predicate Enabled(s: State, e: Event) {
    match e
    case Complete(r) => r in s.own.atCamera
    case Cancel(r) => r in s.own.atCamera && CameraMayCancel(s)
    case Push(r) => r in s.own.calling
    case AskSnapshot => true
    case AskStop => true
    case Configure(_) => s.pc.Starting?
    case Create(_, _) => s.pc.Creating?
    case StartCapture(_) => s.pc.CameraStart?
    case QueueNext(ok) => s.pc.Queueing? && s.pc.next < |s.own.order| && (ok ==> s.running)
    case QueuedAll => s.pc.Queueing? && s.pc.next == |s.own.order|
    case Aborted => s.pc.Aborting? && NothingPending(s)
    case AfterFailure => s.pc.StartFailed?
    case TestLoop(_) => s.pc.LoopTop?
    case Read => s.pc.Reading?
    case Return(ok) => s.pc.Holding? && s.own.hand.Some? && (ok ==> s.running)
    case AfterReturn => s.pc.Returned?
    case TestStarted => s.pc.StopBegin?
    case StopReturns(ok) => s.pc.StopWait? && NothingPending(s)
    case ClearQueue => s.pc.Clearing?
    case Destroy => s.pc.Destroying?
  }

  function Listed(from: int, to: int): (r: seq<int>)
    requires from <= to
    ensures |r| == to - from && forall i :: 0 <= i < |r| ==> r[i] == from + i
  {
    seq(to - from, i => from + i)
  }

  function Range(from: int, to: int): (r: set<int>)
    requires from <= to
    ensures forall i :: i in r <==> from <= i < to
  {
    forall i | from <= i < to ensures i in Listed(from, to) {
      assert Listed(from, to)[i - from] == i;
    }
    Elements(Listed(from, to))
  }

  function Move(o: Requests, s: State, e: Event): Requests
    requires Enabled(s, e) && o == s.own
  {
    match e
    case Complete(r) => o.(atCamera := o.atCamera - {r}, calling := o.calling + {r})
    case Cancel(r) => o.(atCamera := o.atCamera - {r}, idle := o.idle + {r})
    case Push(r) => o.(calling := o.calling - {r}, queue := o.queue + [r])
    case Create(n, _) =>
      o.(base := o.next, next := o.next + n, order := Listed(o.next, o.next + n),
         live := Range(o.next, o.next + n), idle := Range(o.next, o.next + n))
    case QueueNext(ok) =>
      if ok then var r := o.order[s.pc.next]; o.(idle := o.idle - {r}, atCamera := o.atCamera + {r}) else o
    case Read => if o.queue == [] then o else o.(hand := Some(o.queue[0]), queue := o.queue[1..])
    case Return(ok) =>
      if ok then o.(hand := None, atCamera := o.atCamera + {o.hand.value})
      else o.(hand := None, idle := o.idle + {o.hand.value})
    case ClearQueue => o.(queue := [], idle := o.idle + Elements(o.queue))
    case Destroy => o.(live := {}, order := [], idle := {})
    case _ => o
  }

  /** What the worker does next. */
  function NextPc(s: State, e: Event): Pc
    requires Enabled(s, e)
  {
    match e
    case Configure(ok) => if ok then Creating else StartFailed
    case Create(_, ok) => if ok then CameraStart else StartFailed
    case StartCapture(ok) => if ok then Queueing(0) else StartFailed
    case QueueNext(ok) => if ok then Queueing(s.pc.next + 1) else Aborting
    case QueuedAll => if s.isSwitch then Reading else LoopTop // after a switch the worker reads at once
    case Aborted => StartFailed
    case AfterFailure => if s.first then LoopTop else Exited
    case TestLoop(otherSize) => if s.stop || (s.snapshot && otherSize) then StopBegin else Reading
    case Read => if s.own.queue == [] then LoopTop else Holding
    case Return(_) => Returned
    case AfterReturn => if s.isSwitch then StopBegin else LoopTop
    case TestStarted => if s.started then StopWait else Clearing
    case StopReturns(ok) => if ok then Clearing else Exited
    case ClearQueue => Destroying
    case Destroy => if s.last then Finished else Starting
    case _ => s.pc
  }

  /** A frame of another size is wanted, and nobody wants to stop. */
  predicate SwitchesSize(s: State, e: Event) {
    e.TestLoop? && !s.stop && s.snapshot && e.otherSize
  }

  function NextSnapshot(s: State, e: Event): bool {
    match e
    case AskSnapshot => true
    case TestLoop(otherSize) => s.snapshot && (s.stop || otherSize)
    case QueuedAll => s.snapshot && !s.isSwitch // after a switch the wish counts as met
    case _ => s.snapshot
  }

  predicate Fails(e: Event) {
    match e
    case Configure(ok) => !ok
    case StartCapture(ok) => !ok
    case QueueNext(ok) => !ok
    case Return(ok) => !ok
    case StopReturns(ok) => !ok
    case _ => false
  }

  /** After a failure while the first requests are queued camera_started_ stays set. */
  function NextStarted(s: State, e: Event): bool {
    match e
    case StartCapture(ok) => ok || s.started
    case StopReturns(ok) => s.started && !ok
    case _ => s.started
  }

  function NextRunning(s: State, e: Event): bool {
    match e
    case StartCapture(ok) => ok || s.running
    case Aborted => false
    case StopReturns(ok) => s.running && !ok
    case _ => s.running
  }

  function NextFailed(s: State, e: Event): bool {
    match e
    case Create(_, ok) => !ok
    case Destroy => false
    case _ => s.failed || Fails(e)
  }

  function Apply(s: State, e: Event): State
    requires Enabled(s, e)
  {
    State(NextPc(s, e), s.first && !e.Destroy?, SwitchesSize(s, e) || (s.isSwitch && !e.AfterReturn?),
          s.last || (e.TestLoop? && s.stop), NextSnapshot(s, e), s.stop || e.AskStop?,
          NextStarted(s, e), NextRunning(s, e), NextFailed(s, e), Move(s.own, s, e))
  }

  predicate Possible(s: State, es: seq<Event>)
    decreases |es|
  {
    es != [] ==> Enabled(s, es[0]) && Possible(Apply(s, es[0]), es[1..])
  }

  function After(s: State, es: seq<Event>): State
    requires Possible(s, es)
    decreases |es|
  {
    if es == [] then s else After(Apply(s, es[0]), es[1..])
  }

  // ----- ownership -----

  function One(b: bool): nat { if b then 1 else 0 }

  /** In how many places request r is. */
  function Places(o: Requests, r: int): nat {
    One(r in o.atCamera) + One(r in o.calling) + multiset(o.queue)[r] + One(o.hand == Some(r)) + One(r in o.idle)
  }

  /** Every live request is in exactly one place, and nothing else is anywhere. */
  ghost predicate Owned(o: Requests) {
    forall r {:trigger Places(o, r)} :: Places(o, r) == One(r in o.live)
  }

  /** Only the current generation is alive. */
  ghost predicate Current(o: Requests) {
    o.base <= o.next && forall r :: r in o.live ==> o.base <= r < o.next
  }

  /** The camera holds requests only while it runs, and a running camera counts as started. */
  ghost predicate CameraOk(s: State) {
    && (s.running ==> s.started)
    && (!s.running ==> NothingPending(s))
  }

  /** The requests are all of this generation, and those from number k on have not been queued yet. */
  ghost predicate Unqueued(o: Requests, k: nat) {
    && o.base <= o.next && o.order == Listed(o.base, o.next) && o.live == Range(o.base, o.next)
    && k <= |o.order| && o.idle == Range(o.base + k, o.next)
  }

  /** What the worker knows at each point. */
  ghost predicate WorkerOk(s: State) {
    && (s.own.hand.Some? <==> s.pc.Holding?)
    && match s.pc
       case Starting => s.own.live == {} && !s.started
       case Creating => s.own.live == {} && !s.started
       case CameraStart => !s.started && !s.failed && Unqueued(s.own, 0)
       case Queueing(k) => s.running && !s.failed && Unqueued(s.own, k)
       case Aborting => s.failed
       case StartFailed => s.failed && !s.running
       case Clearing => !s.running && !s.started
       case Destroying => !s.running && !s.started && s.own.queue == []
       case Finished => s.own.live == {} && !s.started
       case Exited => s.failed
       case _ => true
  }

  /** While nothing fails no request falls out of use. */
  ghost predicate NoneLost(s: State) {
    !s.failed && (s.pc.LoopTop? || s.pc.Reading? || s.pc.Holding? || s.pc.Returned? || s.pc.StopBegin?) ==>
      s.own.idle == {}
  }

  ghost predicate Inv(s: State) {
    Owned(s.own) && Current(s.own) && CameraOk(s) && WorkerOk(s) && NoneLost(s)
  }

  /** Steps of the camera and its callback. */
  predicate OutsideMove(e: Event) {
    e.Complete? || e.Cancel? || e.Push?
  }

  lemma OutsideOwned(s: State, e: Event)
    requires Owned(s.own) && Current(s.own) && OutsideMove(e) && Enabled(s, e)
    ensures Owned(Move(s.own, s, e)) && Current(Move(s.own, s, e))
  {
    var o, p := s.own, Move(s.own, s, e);
    assert Places(o, e.r) == One(e.r in o.live);
    forall x ensures Places(p, x) == One(x in p.live) { assert Places(o, x) == One(x in o.live); }
  }

  lemma WorkerOwned(s: State, e: Event)
    requires Owned(s.own) && Current(s.own) && CameraOk(s) && WorkerOk(s) && Enabled(s, e) && !OutsideMove(e)
    ensures Owned(Move(s.own, s, e)) && Current(Move(s.own, s, e))
  {
    var o, p := s.own, Move(s.own, s, e);
    if e.Read? && o.queue != [] { assert o.queue == [o.queue[0]] + o.queue[1..]; }
    forall x ensures Places(p, x) == One(x in p.live) { assert Places(o, x) == One(x in o.live); }
  }

  lemma MoveOwned(s: State, e: Event)
    requires Owned(s.own) && Current(s.own) && CameraOk(s) && WorkerOk(s) && Enabled(s, e)
    ensures Owned(Move(s.own, s, e)) && Current(Move(s.own, s, e))
  {
    hide *;
    if OutsideMove(e) { OutsideOwned(s, e); } else { WorkerOwned(s, e); }
  }

  lemma QueueNextUnqueued(o: Requests, k: nat)
    requires Unqueued(o, k) && k < |o.order|
    ensures Unqueued(o.(idle := o.idle - {o.order[k]}, atCamera := o.atCamera + {o.order[k]}), k + 1)
  {
    assert o.idle - {o.order[k]} == Range(o.base + (k + 1), o.next);
  }

  lemma CreateUnqueued(o: Requests, s: State, n: nat, ok: bool)
    requires Enabled(s, Create(n, ok)) && o == s.own
    ensures Unqueued(Move(o, s, Create(n, ok)), 0)
  {}

  lemma AllQueued(o: Requests, k: nat)
    requires Unqueued(o, k) && k == |o.order|
    ensures o.idle == {}
  {}

  ghost predicate Rest(s: State) {
    CameraOk(s) && WorkerOk(s) && NoneLost(s)
  }

  lemma AroundInv(s: State, e: Event)
    requires Rest(s) && Enabled(s, e) && (e.Complete? || e.Cancel? || e.Push? || e.AskSnapshot? || e.AskStop?)
    ensures Rest(Apply(s, e))
  {
    hide Listed, Range, Elements;
  }

  lemma ConfigureInv(s: State, ok: bool)
    requires Rest(s) && Enabled(s, Configure(ok))
    ensures Rest(Apply(s, Configure(ok)))
  {
    hide Listed, Range, Elements, Unqueued;
  }

  lemma StartCaptureInv(s: State, ok: bool)
    requires Rest(s) && Enabled(s, StartCapture(ok))
    ensures Rest(Apply(s, StartCapture(ok)))
  {
    hide Listed, Range, Elements, Unqueued;
  }

  lemma FailureInv(s: State, e: Event)
    requires Rest(s) && Enabled(s, e) && (e.Aborted? || e.AfterFailure?)
    ensures Rest(Apply(s, e))
  {
    hide Listed, Range, Elements, Unqueued;
  }

  lemma CreateInv(s: State, n: nat, ok: bool)
    requires Rest(s) && Enabled(s, Create(n, ok))
    ensures Rest(Apply(s, Create(n, ok)))
  {
    CreateUnqueued(s.own, s, n, ok);
    hide Listed, Range, Elements, Unqueued;
  }

  lemma QueueNextInv(s: State, ok: bool)
    requires Rest(s) && Enabled(s, QueueNext(ok))
    ensures Rest(Apply(s, QueueNext(ok)))
  {
    if ok { QueueNextUnqueued(s.own, s.pc.next); }
    hide Listed, Range, Elements, Unqueued;
  }

  lemma QueuedAllInv(s: State)
    requires Rest(s) && Enabled(s, QueuedAll)
    ensures Rest(Apply(s, QueuedAll))
  {
    AllQueued(s.own, s.pc.next);
    hide Listed, Range, Elements, Unqueued;
  }

  lemma TestLoopInv(s: State, otherSize: bool)
    requires Rest(s) && Enabled(s, TestLoop(otherSize))
    ensures Rest(Apply(s, TestLoop(otherSize)))
  {
    hide Listed, Range, Elements, Unqueued;
  }

  lemma AfterReturnInv(s: State)
    requires Rest(s) && Enabled(s, AfterReturn)
    ensures Rest(Apply(s, AfterReturn))
  {
    hide Listed, Range, Elements, Unqueued;
  }

  lemma FrameInv(s: State, e: Event)
    requires Rest(s) && Enabled(s, e) && (e.Read? || e.Return?)
    ensures Rest(Apply(s, e))
  {
    hide Listed, Range, Elements, Unqueued;
  }

  lemma TestStartedInv(s: State)
    requires Rest(s) && Enabled(s, TestStarted)
    ensures Rest(Apply(s, TestStarted))
  {
    hide Listed, Range, Elements, Unqueued;
  }

  lemma StopReturnsInv(s: State, ok: bool)
    requires Rest(s) && Enabled(s, StopReturns(ok))
    ensures Rest(Apply(s, StopReturns(ok)))
  {
    hide Listed, Range, Elements, Unqueued;
  }

  lemma ClearInv(s: State)
    requires Rest(s) && Enabled(s, ClearQueue)
    ensures Rest(Apply(s, ClearQueue))
  {
    hide Listed, Range, Elements, Unqueued;
  }

  lemma DestroyInv(s: State)
    requires Rest(s) && Enabled(s, Destroy)
    ensures Rest(Apply(s, Destroy))
  {
    hide Listed, Range, Elements, Unqueued;
  }

  lemma StepRest(s: State, e: Event)
    requires Rest(s) && Enabled(s, e)
    ensures Rest(Apply(s, e))
  {
    hide Rest, Apply, Enabled;
    match e
    case Configure(ok) => ConfigureInv(s, ok);
    case Create(n, ok) => CreateInv(s, n, ok);
    case StartCapture(ok) => StartCaptureInv(s, ok);
    case QueueNext(ok) => QueueNextInv(s, ok);
    case QueuedAll => QueuedAllInv(s);
    case Aborted => FailureInv(s, e);
    case AfterFailure => FailureInv(s, e);
    case TestLoop(otherSize) => TestLoopInv(s, otherSize);
    case Read => FrameInv(s, e);
    case Return(_) => FrameInv(s, e);
    case AfterReturn => AfterReturnInv(s);
    case TestStarted => TestStartedInv(s);
    case StopReturns(ok) => StopReturnsInv(s, ok);
    case ClearQueue => ClearInv(s);
    case Destroy => DestroyInv(s);
    case _ => AroundInv(s, e);
  }

  lemma StepInv(s: State, e: Event)
    requires Inv(s) && Enabled(s, e)
    ensures Inv(Apply(s, e))
  {
    MoveOwned(s, e);
    StepRest(s, e);
    hide Owned, Current, CameraOk, WorkerOk, NoneLost, Move, NextPc;
  }

  lemma {:induction false} RunInv(s: State, es: seq<Event>)
    requires Inv(s) && Possible(s, es)
    ensures Inv(After(s, es))
    decreases |es|
  {
    hide Inv, Enabled, Apply;
    if es != [] {
      StepInv(s, es[0]);
      RunInv(Apply(s, es[0]), es[1..]);
    }
  }

  lemma InitialInv()
    ensures Inv(Initial()) && !Initial().failed
  {}

  // ----- over every run -----

  /**
    Over all interleavings: each live request is with the camera, on its way in the callback, in the queue, in the
    worker's hand or idle, and in only one of them; the queue holds no request twice and only requests of the
    current generation; and no request circulates unnoticed while nothing fails.
   */
  lemma RequestsOwned(es: seq<Event>)
    requires Possible(Initial(), es)
    ensures var t := After(Initial(), es);
            && Owned(t.own) && Current(t.own) && NoneLost(t)
            && (forall i, j :: 0 <= i < j < |t.own.queue| ==> t.own.queue[i] != t.own.queue[j])
            && (forall i :: 0 <= i < |t.own.queue| ==> t.own.base <= t.own.queue[i] < t.own.next)
            && (t.own.hand.Some? ==> t.own.hand.value in t.own.live && t.own.hand.value !in t.own.queue)
  {
    InitialInv();
    RunInv(Initial(), es);
    var o := After(Initial(), es).own;
    OwnedQueue(o);
  }

  lemma OwnedQueue(o: Requests)
    requires Owned(o) && Current(o)
    ensures forall i, j :: 0 <= i < j < |o.queue| ==> o.queue[i] != o.queue[j]
    ensures forall i :: 0 <= i < |o.queue| ==> o.base <= o.queue[i] < o.next
    ensures o.hand.Some? ==> o.hand.value in o.live && o.hand.value !in o.queue
  {
    forall i, j | 0 <= i < j < |o.queue| ensures o.queue[i] != o.queue[j] {
      assert Places(o, o.queue[i]) == One(o.queue[i] in o.live);
      TwiceInMultiset(o.queue, i, j);
    }
    forall i | 0 <= i < |o.queue| ensures o.base <= o.queue[i] < o.next {
      assert Places(o, o.queue[i]) == One(o.queue[i] in o.live);
      assert o.queue[i] in multiset(o.queue);
    }
    if o.hand.Some? {
      assert Places(o, o.hand.value) == One(o.hand.value in o.live);
    }
  }

  lemma TwiceInMultiset(q: seq<int>, i: nat, j: nat)
    requires i < j < |q|
    ensures q[i] == q[j] ==> multiset(q)[q[i]] >= 2
  {
    var a, b := q[..j], q[j..];
    assert q == a + b;
    assert a[i] in multiset(a) && b[0] in multiset(b);
    assert multiset(q) == multiset(a) + multiset(b);
  }

  /** When the requests are destroyed nobody has one: not the camera, its callback, the queue or the worker. */
  lemma DestroyedUnshared(es: seq<Event>)
    requires Possible(Initial(), es) && Enabled(After(Initial(), es), Destroy)
    ensures var o := After(Initial(), es).own;
            o.atCamera == {} && o.calling == {} && o.queue == [] && o.hand == None && o.idle == o.live
  {
    InitialInv();
    RunInv(Initial(), es);
    var o := After(Initial(), es).own;
    forall r ensures r in o.idle <==> r in o.live { assert Places(o, r) == One(r in o.live); }
  }

  /** The camera is only ever given a request that lives and that nobody else has. */
  lemma QueuedRequestFree(es: seq<Event>)
    requires Possible(Initial(), es)
    ensures var t := After(Initial(), es);
            && (Enabled(t, QueueNext(true)) ==>
                  t.own.order[t.pc.next] in t.own.live && t.own.order[t.pc.next] in t.own.idle)
            && (Enabled(t, Return(true)) ==> t.own.hand.value in t.own.live && t.own.hand.value !in t.own.atCamera)
  {
    InitialInv();
    RunInv(Initial(), es);
    var t := After(Initial(), es);
    if t.own.hand.Some? { assert Places(t.own, t.own.hand.value) == One(t.own.hand.value in t.own.live); }
    if Enabled(t, QueueNext(true)) {
      assert t.own.order[t.pc.next] == t.own.base + t.pc.next;
    }
  }

  // ----- which requests fall out of circulation -----

  /** The worker takes frames, or is about to stop doing so. */
  predicate Circulating(pc: Pc) {
    pc.LoopTop? || pc.Reading? || pc.Holding? || pc.Returned? || pc.StopBegin?
  }

  /** A refused Return strays its request, and a failed start whatever it leaves idle. */
  function StrayStep(stray: set<int>, s: State, e: Event): set<int>
    requires Enabled(s, e)
  {
    match e
    case Return(ok) => if ok then stray else stray + {s.own.hand.value}
    case AfterFailure => s.own.idle
    case Destroy => {}
    case _ => stray
  }

  /** The requests of the current generation that have strayed after the run. */
  function Strayed(s: State, stray: set<int>, es: seq<Event>): set<int>
    requires Possible(s, es)
    decreases |es|
  {
    if es == [] then stray else Strayed(Apply(s, es[0]), StrayStep(stray, s, es[0]), es[1..])
  }

  /** Nothing of the current generation has been with the worker yet. */
  predicate Early(pc: Pc) {
    pc.Starting? || pc.Creating? || pc.CameraStart? || pc.Queueing?
  }

  ghost predicate StrayOk(s: State, stray: set<int>) {
    (Circulating(s.pc) ==> s.own.idle == stray) && (Early(s.pc) ==> stray == {})
  }

  lemma PcStep(s: State, e: Event)
    requires Enabled(s, e)
    ensures Circulating(NextPc(s, e)) ==> Circulating(s.pc) || e.QueuedAll? || e.AfterFailure?
    ensures Early(NextPc(s, e)) ==> Early(s.pc) || e.Destroy?
    ensures Early(s.pc) ==> !e.Return? && !e.AfterFailure?
    ensures Circulating(s.pc) ==> !e.AfterFailure? && !e.Destroy?
  {}

  lemma IdleStep(s: State, e: Event)
    requires Enabled(s, e) && (Circulating(s.pc) || e.QueuedAll? || e.AfterFailure?)
    ensures Move(s.own, s, e).idle == if e.Return? && !e.ok then s.own.idle + {s.own.hand.value} else s.own.idle
  {
    hide Listed, Range, Elements;
  }

  lemma ApplyParts(s: State, e: Event)
    requires Enabled(s, e)
    ensures Apply(s, e).pc == NextPc(s, e) && Apply(s, e).own == Move(s.own, s, e)
  {
    hide NextPc, Move, Enabled;
  }

  lemma QueuedAllIdle(s: State)
    requires WorkerOk(s) && Enabled(s, QueuedAll)
    ensures Early(s.pc) && s.own.idle == {}
  {
    AllQueued(s.own, s.pc.next);
    hide Unqueued;
  }

  lemma StrayKept(s: State, e: Event, stray: set<int>)
    requires Inv(s) && Enabled(s, e) && StrayOk(s, stray)
    ensures StrayOk(Apply(s, e), StrayStep(stray, s, e))
  {
    PcStep(s, e);
    ApplyParts(s, e);
    if e.QueuedAll? { QueuedAllIdle(s); }
    if Circulating(s.pc) || e.QueuedAll? || e.AfterFailure? { IdleStep(s, e); }
    hide Enabled, Apply, NextPc, Move, Circulating, Early;
  }

  lemma {:induction false} StrayRun(s: State, stray: set<int>, es: seq<Event>)
    requires Inv(s) && Possible(s, es) && StrayOk(s, stray)
    ensures StrayOk(After(s, es), Strayed(s, stray, es))
    decreases |es|
  {
    hide Inv, Enabled, Apply, StrayOk, StrayStep;
    if es != [] {
      StrayKept(s, es[0], stray);
      StepInv(s, es[0]);
      StrayRun(Apply(s, es[0]), StrayStep(stray, s, es[0]), es[1..]);
    }
  }

  predicate InUse(o: Requests, r: int) {
    r in o.atCamera || r in o.calling || r in o.queue || o.hand == Some(r)
  }

  lemma OwnedInUse(o: Requests, r: int)
    requires Owned(o) && r in o.live
    ensures InUse(o, r) <==> r !in o.idle
  {
    assert Places(o, r) == One(r in o.live);
    assert r in o.queue <==> r in multiset(o.queue);
  }

  /**
    Exactly which requests have fallen out of use while the worker circulates them: those that a refused Return or a
    failed start has left, and no others.
   */
  lemma StrayedExactly(es: seq<Event>)
    requires Possible(Initial(), es)
    ensures var t := After(Initial(), es);
            Circulating(t.pc) ==>
              forall r :: r in t.own.live ==> (InUse(t.own, r) <==> r !in Strayed(Initial(), {}, es))
  {
    InitialInv();
    RunInv(Initial(), es);
    StrayRun(Initial(), {}, es);
    hide Owned, Possible, After, Strayed, InUse;
    var t := After(Initial(), es);
    forall r | r in t.own.live ensures InUse(t.own, r) <==> r !in t.own.idle { OwnedInUse(t.own, r); }
  }

  // ----- frames come out in the order in which they were completed -----

  /** The requests pushed since the queue was last cleared. */
  function PushStep(pushed: seq<int>, e: Event): seq<int> {
    match e
    case Push(r) => pushed + [r]
    case ClearQueue => []
    case _ => pushed
  }

  /** The requests that the worker got from the queue since then: after a Read it has one in its hand, or none. */
  function ReadStep(read: seq<int>, e: Event, after: State): seq<int> {
    match e
    case Read => if after.own.hand.Some? then read + [after.own.hand.value] else read
    case ClearQueue => []
    case _ => read
  }

  function PushedIn(s: State, pushed: seq<int>, es: seq<Event>): seq<int>
    requires Possible(s, es)
    decreases |es|
  {
    if es == [] then pushed else PushedIn(Apply(s, es[0]), PushStep(pushed, es[0]), es[1..])
  }

  function ReadIn(s: State, read: seq<int>, es: seq<Event>): seq<int>
    requires Possible(s, es)
    decreases |es|
  {
    if es == [] then read
    else ReadIn(Apply(s, es[0]), ReadStep(read, es[0], Apply(s, es[0])), es[1..])
  }

  lemma QueueStep(s: State, e: Event, pushed: seq<int>, read: seq<int>)
    requires WorkerOk(s) && Enabled(s, e) && pushed == read + s.own.queue
    ensures PushStep(pushed, e) == ReadStep(read, e, Apply(s, e)) + Apply(s, e).own.queue
  {
    ApplyParts(s, e);
    QueueMove(s, e);
    hide Apply, NextPc, Move;
    if e.Read? && s.own.queue != [] {
      assert s.own.queue == [s.own.queue[0]] + s.own.queue[1..];
    }
  }

  /** How a step changes the queue, and what a Read takes. */
  lemma QueueMove(s: State, e: Event)
    requires WorkerOk(s) && Enabled(s, e)
    ensures var o := Move(s.own, s, e);
            match e
            case Push(r) => o.queue == s.own.queue + [r]
            case ClearQueue => o.queue == []
            case Read =>
              if s.own.queue == [] then o.queue == [] && o.hand == None
              else o.queue == s.own.queue[1..] && o.hand == Some(s.own.queue[0])
            case _ => o.queue == s.own.queue
  {
    hide Unqueued, Listed, Range, Elements;
  }

  lemma {:induction false} QueueRun(s: State, es: seq<Event>, pushed: seq<int>, read: seq<int>)
    requires Inv(s) && Possible(s, es) && pushed == read + s.own.queue
    ensures PushedIn(s, pushed, es) == ReadIn(s, read, es) + After(s, es).own.queue
    decreases |es|
  {
    hide Owned, Current, CameraOk, WorkerOk, NoneLost, Enabled, Apply, PushStep, ReadStep;
    if es != [] {
      QueueStep(s, es[0], pushed, read);
      StepInv(s, es[0]);
      QueueRun(Apply(s, es[0]), es[1..], PushStep(pushed, es[0]), ReadStep(read, es[0], Apply(s, es[0])));
    }
  }

  /**
    First in, first out, over every run: since the queue was last cleared, the requests pushed are those that the worker
    read, in the same order, followed by those that still wait.
   */
  lemma ReadInOrder(es: seq<Event>)
    requires Possible(Initial(), es)
    ensures PushedIn(Initial(), [], es) == ReadIn(Initial(), [], es) + After(Initial(), es).own.queue
  {
    InitialInv();
    QueueRun(Initial(), es, [], []);
  }

  /** How often the camera has completed request r, and how often the callback has pushed it. */
  function Completions(es: seq<Event>, r: int): nat {
    if es == [] then 0 else One(es[0] == Complete(r)) + Completions(es[1..], r)
  }

  function Pushes(es: seq<Event>, r: int): nat {
    if es == [] then 0 else One(es[0] == Push(r)) + Pushes(es[1..], r)
  }

  lemma CallingStep(s: State, e: Event, r: int)
    requires Owned(s.own) && Enabled(s, e)
    ensures One(r in s.own.calling) + One(e == Complete(r)) == One(r in Apply(s, e).own.calling) + One(e == Push(r))
  {
    ApplyParts(s, e);
    CallingMove(s, e);
    assert Places(s.own, r) == One(r in s.own.live);
    hide Apply, NextPc, Move, Owned;
  }

  lemma CallingMove(s: State, e: Event)
    requires Enabled(s, e)
    ensures Move(s.own, s, e).calling ==
            match e
            case Complete(r) => s.own.calling + {r}
            case Push(r) => s.own.calling - {r}
            case _ => s.own.calling
  {
    hide Listed, Range, Elements;
  }

  lemma {:induction false} CallingRun(s: State, es: seq<Event>, r: int)
    requires Inv(s) && Possible(s, es)
    ensures One(r in s.own.calling) + Completions(es, r) == One(r in After(s, es).own.calling) + Pushes(es, r)
    decreases |es|
  {
    hide Owned, Current, CameraOk, WorkerOk, NoneLost, Enabled, Apply;
    if es != [] {
      CallingStep(s, es[0], r);
      StepInv(s, es[0]);
      CallingRun(Apply(s, es[0]), es[1..], r);
    }
  }

  /** Exactly the completed requests are pushed, once for each completion; a cancelled one is not. */
  lemma CompletedArePushed(es: seq<Event>, r: int)
    requires Possible(Initial(), es)
    ensures Completions(es, r) == Pushes(es, r) + One(r in After(Initial(), es).own.calling)
  {
    InitialInv();
    CallingRun(Initial(), es, r);
  }

  // ----- snapshots and the end -----

  /** How often the requests are destroyed. */
  function Resets(es: seq<Event>): nat {
    if es == [] then 0 else (if es[0].Destroy? then 1 else 0) + Resets(es[1..])
  }

  predicate NoRead(es: seq<Event>) {
    forall i :: 0 <= i < |es| ==> !es[i].Read?
  }

  /** On the way from the snapshot request to the frame, after n resets. */
  ghost predicate Switching(s: State, n: nat) {
    && s.isSwitch && !s.last
    && match s.pc
       case StopBegin => n == 0
       case StopWait => n == 0
       case Clearing => n == 0
       case Destroying => n == 0
       case Starting => n == 1 && !s.first
       case Creating => n == 1 && !s.first
       case CameraStart => n == 1 && !s.first
       case Queueing(_) => n == 1 && !s.first
       case Aborting => n == 1 && !s.first
       case StartFailed => n == 1 && !s.first
       case Reading => n == 1
       case Exited => true
       case _ => false
  }

  lemma SwitchingStep(s: State, e: Event, n: nat)
    requires Enabled(s, e) && Switching(s, n) && !e.Read?
    ensures Switching(Apply(s, e), n + if e.Destroy? then 1 else 0)
  {
    hide Move;
  }

  lemma {:induction false} SwitchingRun(s: State, es: seq<Event>, n: nat)
    requires Possible(s, es) && Switching(s, n) && NoRead(es)
    ensures Switching(After(s, es), n + Resets(es))
    decreases |es|
  {
    hide Enabled, Apply, Switching;
    if es != [] {
      SwitchingStep(s, es[0], n);
      SwitchingRun(Apply(s, es[0]), es[1..], n + if es[0].Destroy? then 1 else 0);
    }
  }

  /** The worker has been told to stop, or cannot go on. */
  ghost predicate Ending(s: State) {
    || (s.pc.LoopTop? && s.stop)
    || (s.last && (s.pc.StopBegin? || s.pc.StopWait? || s.pc.Clearing? || s.pc.Destroying?))
    || s.pc.Finished? || s.pc.Exited?
  }

  /** Once the worker has seen the wish to stop it ends. */
  ghost predicate LastOk(s: State) {
    s.last ==> Ending(s)
  }

  lemma LastStep(s: State, e: Event)
    requires Enabled(s, e) && LastOk(s)
    ensures LastOk(Apply(s, e))
  {
    hide Move;
  }

  lemma {:induction false} LastRun(s: State, es: seq<Event>)
    requires Possible(s, es) && LastOk(s)
    ensures LastOk(After(s, es))
    decreases |es|
  {
    hide Enabled, Apply, LastOk;
    if es != [] {
      LastStep(s, es[0]);
      LastRun(Apply(s, es[0]), es[1..]);
    }
  }

  /**
    When the loop finds that a frame of another size is wanted, the camera is reset exactly once before the next frame
    is read, whatever is asked for meanwhile.
   */
  lemma SnapshotResetsOnce(before: seq<Event>, es: seq<Event>)
    requires Possible(Initial(), before)
    requires var s := After(Initial(), before);
             && SwitchesSize(s, TestLoop(true)) && Enabled(s, TestLoop(true))
             && Possible(Apply(s, TestLoop(true)), es) && NoRead(es)
             && Enabled(After(Apply(s, TestLoop(true)), es), Read)
    ensures Resets(es) == 1
  {
    hide *;
    FirstLast();
    LastRun(Initial(), before);
    var s := After(Initial(), before);
    SwitchBegins(s);
    SwitchingRun(Apply(s, TestLoop(true)), es, 0);
    SwitchEnds(After(Apply(s, TestLoop(true)), es), Resets(es));
  }

  lemma FirstLast()
    ensures LastOk(Initial())
  {}

  lemma SwitchBegins(s: State)
    requires Enabled(s, TestLoop(true)) && SwitchesSize(s, TestLoop(true)) && LastOk(s)
    ensures Switching(Apply(s, TestLoop(true)), 0)
  {
    hide Move;
  }

  lemma SwitchEnds(s: State, n: nat)
    requires Enabled(s, Read) && Switching(s, 0 + n)
    ensures n == 1
  {}

  /** On the way from that frame back to the usual size, after n resets. */
  ghost predicate SwitchingBack(s: State, n: nat) {
    && !s.last
    && match s.pc
       case Holding => n == 0 && s.isSwitch
       case Returned => n == 0 && s.isSwitch
       case StopBegin => n == 0 && !s.isSwitch
       case StopWait => n == 0 && !s.isSwitch
       case Clearing => n == 0 && !s.isSwitch
       case Destroying => n == 0 && !s.isSwitch
       case Starting => n == 1 && !s.isSwitch && !s.first
       case Creating => n == 1 && !s.isSwitch && !s.first
       case CameraStart => n == 1 && !s.isSwitch && !s.first
       case Queueing(_) => n == 1 && !s.isSwitch && !s.first
       case Aborting => n == 1 && !s.isSwitch && !s.first
       case StartFailed => n == 1 && !s.isSwitch && !s.first
       case LoopTop => n == 1
       case Exited => true
       case _ => false
  }

  lemma SwitchingBackStep(s: State, e: Event, n: nat)
    requires Enabled(s, e) && SwitchingBack(s, n) && !e.TestLoop?
    ensures SwitchingBack(Apply(s, e), n + if e.Destroy? then 1 else 0)
  {
    hide Move;
  }

  /** After the frame the camera is reset exactly once before the loop goes on. */
  lemma {:induction false} SwitchedBackOnce(s: State, es: seq<Event>, n: nat)
    requires Possible(s, es) && SwitchingBack(s, n) && forall i :: 0 <= i < |es| ==> !es[i].TestLoop?
    ensures SwitchingBack(After(s, es), n + Resets(es))
    ensures After(s, es).pc == LoopTop ==> n + Resets(es) == 1
    decreases |es|
  {
    hide Enabled, Apply;
    if es != [] {
      SwitchingBackStep(s, es[0], n);
      hide SwitchingBack;
      SwitchedBackOnce(Apply(s, es[0]), es[1..], n + if es[0].Destroy? then 1 else 0);
    }
  }

  lemma EndingStep(s: State, e: Event)
    requires Enabled(s, e) && Ending(s)
    ensures Ending(Apply(s, e)) && !e.Read?
  {
    hide Move;
  }

  /** Once the wish to stop is there at the loop head no further frame is read. */
  lemma {:induction false} StopEndsReading(s: State, es: seq<Event>)
    requires Possible(s, es) && Ending(s)
    ensures Ending(After(s, es)) && NoRead(es)
    decreases |es|
  {
    hide Enabled, Apply, Ending;
    if es != [] {
      EndingStep(s, es[0]);
      StopEndsReading(Apply(s, es[0]), es[1..]);
      assert forall i :: 0 < i < |es| ==> es[i] == es[1..][i - 1];
    }
  }

  // ----- the worker comes to its end -----

  ghost predicate Reaches(s: State, es: seq<Event>, t: State) {
    Possible(s, es) && After(s, es) == t
  }

  lemma {:induction false} Join(s: State, a: seq<Event>, t: State, b: seq<Event>, u: State)
    requires Reaches(s, a, t) && Reaches(t, b, u)
    ensures Reaches(s, a + b, u)
    decreases |a|
  {
    hide Enabled, Apply;
    if a == [] {
      assert a + b == b;
    } else {
      assert (a + b)[1..] == a[1..] + b;
      Join(Apply(s, a[0]), a[1..], t, b, u);
    }
  }

  lemma OneStep(s: State, e: Event)
    requires Enabled(s, e)
    ensures Reaches(s, [e], Apply(s, e))
  {
    hide Enabled, Apply;
    assert [e][1..] == [];
    assert Possible(s, [e]) && After(s, [e]) == Apply(s, e);
  }

  lemma NonEmpty(rs: set<int>)
    ensures rs == {} || exists r :: r in rs
  {
    if forall r :: r !in rs {
      assert rs == {};
    }
  }

  /** While the worker waits in stop(), the camera cancels what it holds and the callbacks end. */
  lemma {:induction false} PendingEnds(s: State) returns (es: seq<Event>, t: State)
    requires s.pc.StopWait?
    ensures Reaches(s, es, t) && t == s.(own := t.own) && NothingPending(t)
    decreases |s.own.atCamera|, |s.own.calling|
  {
    hide Reaches;
    NonEmpty(s.own.atCamera);
    NonEmpty(s.own.calling);
    if s.own.atCamera == {} && s.own.calling == {} {
      es, t := [], s;
      NoSteps(s);
    } else {
      var e: Event;
      if s.own.atCamera != {} {
        var r :| r in s.own.atCamera;
        e := Cancel(r);
      } else {
        var r :| r in s.own.calling;
        e := Push(r);
      }
      var u := Apply(s, e);
      OneStep(s, e);
      var more;
      more, t := PendingEnds(u);
      Join(s, [e], u, more, t);
      es := [e] + more;
    }
  }

  lemma NoSteps(s: State)
    ensures Reaches(s, [], s)
  {}

  /** The camera that has been stopped is taken down. */
  lemma TakenDown(s: State) returns (es: seq<Event>, t: State)
    requires s.pc.Clearing? && s.last
    ensures Reaches(s, es, t) && t.pc == Finished && t.own.live == {}
  {
    hide Reaches;
    var u := Apply(s, ClearQueue);
    OneStep(s, ClearQueue);
    t := Apply(u, Destroy);
    OneStep(u, Destroy);
    Join(s, [ClearQueue], u, [Destroy], t);
    es := [ClearQueue] + [Destroy];
  }

  /** A worker that finds the wish to stop can always finish: it does if stopping the camera succeeds. */
  lemma StopFinishes(s: State) returns (es: seq<Event>, t: State)
    requires s.pc.LoopTop? && s.stop
    ensures Reaches(s, es, t) && t.pc == Finished && t.own.live == {}
  {
    var u := Apply(s, TestLoop(false));
    OneStep(s, TestLoop(false));
    var v := Apply(u, TestStarted);
    OneStep(u, TestStarted);
    assert v.last && v.pc == if s.started then StopWait else Clearing;
    hide Reaches, Apply;
    Join(s, [TestLoop(false)], u, [TestStarted], v);
    es := [TestLoop(false)] + [TestStarted];
    var w, down := v, [];
    if v.pc.StopWait? {
      var pending, x := PendingEnds(v);
      w := StoppedCamera(x);
      Join(s, es, v, pending, x);
      Join(s, es + pending, x, [StopReturns(true)], w);
      es := es + pending + [StopReturns(true)];
    }
    down, t := TakenDown(w);
    Join(s, es, w, down, t);
    es := es + down;
  }

  lemma StoppedCamera(s: State) returns (t: State)
    requires s.pc.StopWait? && NothingPending(s) && s.last
    ensures Reaches(s, [StopReturns(true)], t) && t.pc.Clearing? && t.last
  {
    t := Apply(s, StopReturns(true));
    OneStep(s, StopReturns(true));
    hide Reaches;
  }

  // ----- the worker's round, and its failures -----

  /** What one round of the loop makes of the requests: the oldest goes back to the camera, or strays. */
  function Rotated(o: Requests, ok: bool): Requests
    requires o.queue != []
  {
    var r := o.queue[0];
    if ok then o.(queue := o.queue[1..], atCamera := o.atCamera + {r})
    else o.(queue := o.queue[1..], idle := o.idle + {r})
  }

  lemma Four(s: State, a: Event, t: State, b: Event, u: State, c: Event, v: State, d: Event)
    requires Enabled(s, a) && t == Apply(s, a) && Enabled(t, b) && u == Apply(t, b)
    requires Enabled(u, c) && v == Apply(u, c) && Enabled(v, d)
    ensures Reaches(s, [a, b, c, d], Apply(v, d))
  {
    hide *;
    OneStep(s, a);
    OneStep(t, b);
    OneStep(u, c);
    OneStep(v, d);
    Join(s, [a], t, [b], u);
    Join(s, [a] + [b], u, [c], v);
    Join(s, [a] + [b] + [c], v, [d], Apply(v, d));
    assert [a] + [b] + [c] + [d] == [a, b, c, d];
  }

  /**
    One round of the loop with a frame in the queue: it comes back to the loop head, also when the camera refuses the
    request, the wish for a frame of the usual size is met, and nothing else changes.
   */
  lemma FrameRound(s: State, ok: bool)
    requires s.pc.LoopTop? && !s.stop && !s.isSwitch && s.own.queue != [] && s.own.hand == None && (ok ==> s.running)
    ensures Reaches(s, [TestLoop(false), Read, Return(ok), AfterReturn],
                    s.(snapshot := false, failed := s.failed || !ok, own := Rotated(s.own, ok)))
  {
    var t := Apply(s, TestLoop(false));
    var u := Apply(t, Read);
    var v := Apply(u, Return(ok));
    Four(s, TestLoop(false), t, Read, u, Return(ok), v, AfterReturn);
    assert Apply(v, AfterReturn) == s.(snapshot := false, failed := s.failed || !ok, own := Rotated(s.own, ok));
  }

  lemma Two(s: State, a: Event, t: State, b: Event)
    requires Enabled(s, a) && t == Apply(s, a) && Enabled(t, b)
    ensures Reaches(s, [a, b], Apply(t, b))
  {
    hide *;
    OneStep(s, a);
    OneStep(t, b);
    Join(s, [a], t, [b], Apply(t, b));
    assert [a] + [b] == [a, b];
  }

  /** A round with an empty queue tests the loop condition again. */
  lemma EmptyRound(s: State)
    requires s.pc.LoopTop? && !s.stop && s.own.queue == []
    ensures Reaches(s, [TestLoop(false), Read], s.(snapshot := false))
  {
    var t := Apply(s, TestLoop(false));
    Two(s, TestLoop(false), t, Read);
    assert Apply(t, Read) == s.(snapshot := false);
  }

  /** A wish for a frame of another size is noticed at the loop condition, and kept until the switch is done. */
  lemma SnapshotNoticed(s: State)
    requires s.pc.LoopTop? && !s.stop
    ensures Reaches(s, [AskSnapshot, TestLoop(true)], s.(pc := StopBegin, isSwitch := true, snapshot := true))
  {
    var t := Apply(s, AskSnapshot);
    Two(s, AskSnapshot, t, TestLoop(true));
    assert Apply(t, TestLoop(true)) == s.(pc := StopBegin, isSwitch := true, snapshot := true);
  }

  /** A wish to stop is noticed there too; the wish for a frame is then left as it is. */
  lemma StopNoticed(s: State, otherSize: bool)
    requires s.pc.LoopTop?
    ensures Reaches(s, [AskStop, TestLoop(otherSize)], s.(pc := StopBegin, last := true, stop := true))
  {
    var t := Apply(s, AskStop);
    Two(s, AskStop, t, TestLoop(otherSize));
    assert Apply(t, TestLoop(otherSize)) == s.(pc := StopBegin, last := true, stop := true);
  }

  /** A failed first start goes unnoticed: the loop is entered, and left only by a stop or a switch. */
  lemma FirstStartFails(otherSize: bool)
    ensures var s := Initial().(pc := LoopTop, first := true, failed := true);
            && Reaches(Initial(), [Configure(false), AfterFailure], s)
            && Reaches(s, [TestLoop(otherSize), Read], s)
  {
    var s := Initial().(pc := LoopTop, first := true, failed := true);
    var t := Apply(Initial(), Configure(false));
    Two(Initial(), Configure(false), t, AfterFailure);
    assert Apply(t, AfterFailure) == s;
    var u := Apply(s, TestLoop(otherSize));
    Two(s, TestLoop(otherSize), u, Read);
    assert Apply(u, Read) == s;
  }

  /** A start that fails after a switch ends the program. */
  lemma LaterStartFails(s: State, es: seq<Event>)
    requires s.pc.StartFailed? && !s.first && Possible(s, es)
    ensures After(s, es).pc.StartFailed? || After(s, es).pc.Exited?
  {
    FailedOrExited(s, es);
  }

  lemma FailedOrExitedStep(s: State, e: Event)
    requires Enabled(s, e) && !s.first && (s.pc.StartFailed? || s.pc.Exited?)
    ensures var t := Apply(s, e); !t.first && (t.pc.StartFailed? || t.pc.Exited?)
  {
    hide Move;
  }

  lemma {:induction false} FailedOrExited(s: State, es: seq<Event>)
    requires !s.first && (s.pc.StartFailed? || s.pc.Exited?) && Possible(s, es)
    ensures After(s, es).pc.StartFailed? || After(s, es).pc.Exited?
    decreases |es|
  {
    hide Enabled, Apply;
    if es != [] {
      FailedOrExitedStep(s, es[0]);
      FailedOrExited(Apply(s, es[0]), es[1..]);
    }
  }

  /** When nobody asks again, the wish for a frame of another size is met by the switch. */
  lemma {:induction false} SnapshotMet(s: State, es: seq<Event>, n: nat)
    requires Possible(s, es) && Switching(s, n) && NoRead(es) && AskSnapshot !in es
    requires n == 0 || !s.pc.Reading? || !s.snapshot
    ensures After(s, es).pc.Reading? ==> !After(s, es).snapshot
    decreases |es|
  {
    hide Enabled, Apply, Switching;
    if es == [] {
      ReadingAfterReset(s, n);
    } else {
      SwitchingStep(s, es[0], n);
      MetStep(s, es[0], n);
      assert es[0] in es && forall e :: e in es[1..] ==> e in es;
      SnapshotMet(Apply(s, es[0]), es[1..], n + if es[0].Destroy? then 1 else 0);
    }
  }

  lemma ReadingAfterReset(s: State, n: nat)
    requires Switching(s, n)
    ensures s.pc.Reading? ==> n == 1
  {}

  lemma MetStep(s: State, e: Event, n: nat)
    requires Enabled(s, e) && Switching(s, n) && !e.Read? && !e.AskSnapshot?
    requires n == 0 || !s.pc.Reading? || !s.snapshot
    ensures !Apply(s, e).pc.Reading? || !Apply(s, e).snapshot
  {
    hide Move;
  }
}
