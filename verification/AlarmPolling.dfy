/** The polling loop of the alarm sensors: which changes it reports, and which of them request a capture. */
module AlarmPolling {

  const PIN_LOW_VAL := 0

  /** What gpio_read answers. */
  datatype Reading = Value(bit: int) | Failure(err: int) {
    predicate Ok() {
      match this
      case Value(v) => v == 0 || v == 1
      case Failure(e) => e != 0
    }
  }

  /** One turn of the loop: the arming pin, and what each sensor would be read as. */
  datatype Poll = Poll(arming: Reading, sensors: seq<Reading>) {
    predicate Armed() {
      arming == Value(PIN_LOW_VAL)
    }
  }

  predicate PollsOk(polls: seq<Poll>, n: nat) {
    forall i :: 0 <= i < |polls| ==>
      && polls[i].arming.Ok() && |polls[i].sensors| == n
      && forall k :: 0 <= k < n ==> polls[i].sensors[k].Ok()
  }

  datatype Event = Event(sensor: nat, value: int)

  // ----- what should be reported -----

  /** The values that sensor k was successfully read as while the alarm was armed. */
  function Readings(polls: seq<Poll>, k: nat): (r: seq<int>)
    requires forall i :: 0 <= i < |polls| ==> k < |polls[i].sensors|
  {
    if polls == [] then []
    else Readings(polls[..|polls| - 1], k) + Heard(polls[|polls| - 1], k)
  }

  function Heard(poll: Poll, k: nat): seq<int>
    requires k < |poll.sensors|
  {
    if poll.Armed() && poll.sensors[k].Value? then [poll.sensors[k].bit] else []
  }

  /** The values at which the readings differ from the one before, the first of them from `before`. */
  function Changes(readings: seq<int>, before: int): (c: seq<int>) {
    if readings == [] then []
    else
      var c := Changes(readings[..|readings| - 1], before);
      var last := readings[|readings| - 1];
      if last != Latest(readings[..|readings| - 1], before) then c + [last] else c
  }

  function Latest(readings: seq<int>, before: int): int {
    if readings == [] then before else readings[|readings| - 1]
  }

  function Of(events: seq<Event>, k: nat): seq<int> {
    if events == [] then []
    else
      var e := events[|events| - 1];
      Of(events[..|events| - 1], k) + if e.sensor == k then [e.value] else []
  }

  /** What sensor k adds in one more turn: an event when it is heard with another value than before. */
  function SensorEvents(polls: seq<Poll>, poll: Poll, k: nat): seq<Event>
    requires k < |poll.sensors| && forall i :: 0 <= i < |polls| ==> k < |polls[i].sensors|
  {
    var h := Heard(poll, k);
    if h != [] && h[0] != Latest(Readings(polls, k), 0) then [Event(k, h[0])] else []
  }

  /** What the sensors below m add, in this order. */
  function TurnEvents(polls: seq<Poll>, poll: Poll, m: nat): seq<Event>
    requires m <= |poll.sensors| && forall i :: 0 <= i < |polls| ==> m <= |polls[i].sensors|
  {
    if m == 0 then [] else TurnEvents(polls, poll, m - 1) + SensorEvents(polls, poll, m - 1)
  }

  /** All events, turn by turn and sensor by sensor. */
  function AllEvents(polls: seq<Poll>, n: nat): seq<Event>
    requires PollsOk(polls, n)
  {
    if polls == [] then []
    else
      var front := polls[..|polls| - 1];
      AllEvents(front, n) + TurnEvents(front, polls[|polls| - 1], n)
  }

  /** The events that request a capture. */
  function Raised(events: seq<Event>): seq<Event> {
    if events == [] then []
    else
      var e := events[|events| - 1];
      Raised(events[..|events| - 1]) + if e.value != PIN_LOW_VAL then [e] else []
  }

  /** The first error among the sensors below n, or 0. */
  function SensorError(poll: Poll, n: nat): int
    requires n <= |poll.sensors|
  {
    if n == 0 then 0
    else
      var e := SensorError(poll, n - 1);
      if e != 0 then e else if poll.sensors[n - 1].Failure? then poll.sensors[n - 1].err else 0
  }

  function PollError(poll: Poll): int {
    if poll.arming.Failure? then poll.arming.err
    else if poll.Armed() then SensorError(poll, |poll.sensors|)
    else 0
  }

  /** The first error of all, in the order of reading, or 0. */
  function FirstError(polls: seq<Poll>): int {
    if polls == [] then 0
    else
      var e := FirstError(polls[..|polls| - 1]);
      if e != 0 then e else PollError(polls[|polls| - 1])
  }

  // ----- the loop -----

  class Monitor {
    const n: nat
    const lastPinValue: array<int>
    var readErr: int
    var notified: seq<Event>
    var captured: seq<Event>

    constructor (n: nat)
      ensures this.n == n && lastPinValue.Length == n && fresh(lastPinValue)
      ensures readErr == 0 && notified == [] && captured == [] && forall k :: 0 <= k < n ==> lastPinValue[k] == 0
    {
      this.n := n;
      lastPinValue := new int[n](_ => 0);
      readErr, notified, captured := 0, [], [];
    }

    /** on_alarm_event: every event is notified, and a high value requests a capture. */
    method OnAlarmEvent(e: Event)
      modifies `notified, `captured
      ensures notified == old(notified) + [e]
      ensures captured == if e.value != PIN_LOW_VAL then old(captured) + [e] else old(captured)
    {
      notified := notified + [e];
      if e.value != PIN_LOW_VAL {
        captured := captured + [e];
      }
    }

    /** Reading sensor k once. */
    method PollSensor(poll: Poll, k: nat, ghost polls: seq<Poll>)
      requires k < n == lastPinValue.Length && |poll.sensors| == n && poll.Armed()
      requires forall i :: 0 <= i < |polls| ==> |polls[i].sensors| == n
      requires lastPinValue[k] == Latest(Readings(polls, k), 0) && captured == Raised(notified)
      modifies `notified, `captured, `readErr, lastPinValue
      ensures notified == old(notified) + SensorEvents(polls, poll, k) && captured == Raised(notified)
      ensures lastPinValue[k] == Latest(Readings(polls, k) + Heard(poll, k), 0)
      ensures forall j :: 0 <= j < n && j != k ==> lastPinValue[j] == old(lastPinValue[j])
      ensures readErr == if old(readErr) != 0 then old(readErr)
                         else if poll.sensors[k].Failure? then poll.sensors[k].err else 0
    {
      hide Readings, Latest, Raised;
      ghost var r, before := Readings(polls, k), notified;
      var reading := poll.sensors[k];
      if reading.Value? {
        ReadingAdded(r, reading.bit);
        if reading.bit != lastPinValue[k] {
          OnAlarmEvent(Event(k, reading.bit));
          EventAdded(before, Event(k, reading.bit));
          lastPinValue[k] := reading.bit;
        }
      } else {
        assert r + [] == r;
        if readErr == 0 {
          readErr := reading.err;
        }
      }
      assert before + [] == before;
    }

    /** The state after `polls`. */
    ghost predicate After(polls: seq<Poll>)
      reads this, lastPinValue
    {
      && lastPinValue.Length == n && PollsOk(polls, n)
      && (forall k :: 0 <= k < n ==> lastPinValue[k] == Latest(Readings(polls, k), 0))
      && notified == AllEvents(polls, n) && captured == Raised(notified) && readErr == FirstError(polls)
    }

    /** The loop over the sensors. */
    method PollSensors(poll: Poll, ghost polls: seq<Poll>)
      requires After(polls) && PollsOk([poll], n) && |poll.sensors| == n && poll.Armed()
      modifies `notified, `captured, `readErr, lastPinValue
      ensures forall k :: 0 <= k < n ==> lastPinValue[k] == Latest(Readings(polls, k) + Heard(poll, k), 0)
      ensures notified == old(notified) + TurnEvents(polls, poll, n) && captured == Raised(notified)
      ensures readErr == if FirstError(polls) != 0 then FirstError(polls) else SensorError(poll, n)
    {
      hide Readings, Latest, Raised, Heard, FirstError, AllEvents, SensorEvents;
      assert notified + [] == notified;
      for k := 0 to n
        invariant notified == old(notified) + TurnEvents(polls, poll, k) && captured == Raised(notified)
        invariant forall j :: 0 <= j < k ==> lastPinValue[j] == Latest(Readings(polls, j) + Heard(poll, j), 0)
        invariant forall j :: k <= j < n ==> lastPinValue[j] == Latest(Readings(polls, j), 0)
        invariant readErr == if FirstError(polls) != 0 then FirstError(polls) else SensorError(poll, k)
      {
        PollSensor(poll, k, polls);
      }
    }

    /** One turn of the loop. */
    method PollOnce(poll: Poll, ghost polls: seq<Poll>)
      requires After(polls) && PollsOk([poll], n)
      modifies `notified, `captured, `readErr, lastPinValue
      ensures After(polls + [poll])
    {
      hide Readings, Latest, Raised, Heard, FirstError, SensorError, AllEvents, TurnEvents;
      PollsMore(polls, poll, n);
      if poll.arming.Failure? {
        if readErr == 0 {
          readErr := poll.arming.err;
        }
      } else if poll.Armed() {
        PollSensors(poll, polls);
      }
    }

    /** The loop: `polls` are its turns until the exit flag is seen. */
    method Run(polls: seq<Poll>) returns (ret: int)
      requires lastPinValue.Length == n && PollsOk(polls, n)
      requires readErr == 0 && notified == [] && captured == [] && forall k :: 0 <= k < n ==> lastPinValue[k] == 0
      modifies `notified, `captured, `readErr, lastPinValue
      ensures notified == AllEvents(polls, n)
      ensures captured == Raised(notified)
      ensures ret == FirstError(polls)
    {
      var i := 0;
      assert polls[..0] == [];
      while i < |polls|
        invariant i <= |polls| && After(polls[..i])
      {
        assert polls[..i + 1] == polls[..i] + [polls[i]];
        PollOnce(polls[i], polls[..i]);
        i := i + 1;
      }
      assert polls[..i] == polls;
      ret := readErr;
    }
  }

  /** What one more turn adds. */
  lemma PollsMore(polls: seq<Poll>, poll: Poll, n: nat)
    requires PollsOk(polls, n) && PollsOk([poll], n)
    ensures PollsOk(polls + [poll], n) && |poll.sensors| == n
    ensures forall k :: 0 <= k < n ==> Readings(polls + [poll], k) == Readings(polls, k) + Heard(poll, k)
    ensures !poll.Armed() ==> forall k :: 0 <= k < n ==> Readings(polls + [poll], k) == Readings(polls, k)
    ensures FirstError(polls + [poll]) == if FirstError(polls) != 0 then FirstError(polls) else PollError(poll)
    ensures AllEvents(polls + [poll], n) == AllEvents(polls, n) + TurnEvents(polls, poll, n)
    ensures !poll.Armed() ==> AllEvents(polls + [poll], n) == AllEvents(polls, n)
  {
    if !poll.Armed() { SilentTurn(polls, poll, n); }
    assert AllEvents(polls, n) + [] == AllEvents(polls, n);
    assert [poll][0] == poll;
    assert (polls + [poll])[..|polls|] == polls;
    forall k | 0 <= k < n && !poll.Armed() ensures Readings(polls + [poll], k) == Readings(polls, k) {
      assert Readings(polls, k) + [] == Readings(polls, k);
    }
  }

  lemma {:induction false} SilentTurn(polls: seq<Poll>, poll: Poll, m: nat)
    requires m <= |poll.sensors| && !poll.Armed() && forall i :: 0 <= i < |polls| ==> m <= |polls[i].sensors|
    ensures TurnEvents(polls, poll, m) == []
  {
    if m > 0 { SilentTurn(polls, poll, m - 1); }
  }

  lemma EventAdded(events: seq<Event>, e: Event)
    ensures Raised(events + [e]) == Raised(events) + if e.value != PIN_LOW_VAL then [e] else []
  {
    assert (events + [e])[..|events|] == events;
  }

  lemma ReadingAdded(r: seq<int>, v: int)
    ensures Latest(r + [v], 0) == v
    ensures Changes(r + [v], 0) == if v != Latest(r, 0) then Changes(r, 0) + [v] else Changes(r, 0)
  {
    assert (r + [v])[..|r|] == r;
  }

  // ----- what is reported of one sensor -----

  lemma {:induction false} OfConcat(a: seq<Event>, b: seq<Event>, k: nat)
    ensures Of(a + b, k) == Of(a, k) + Of(b, k)
  {
    if b == [] {
      assert a + b == a;
    } else {
      assert (a + b)[..|a + b| - 1] == a + b[..|b| - 1];
      OfConcat(a, b[..|b| - 1], k);
    }
  }

  lemma {:induction false} TurnEventsOf(polls: seq<Poll>, poll: Poll, m: nat, k: nat)
    requires m <= |poll.sensors| && forall i :: 0 <= i < |polls| ==> m <= |polls[i].sensors|
    ensures Of(TurnEvents(polls, poll, m), k) == if k < m then Of(SensorEvents(polls, poll, k), k) else []
  {
    hide Of, SensorEvents;
    if m == 0 {
      NoEvents(k);
    } else {
      TurnEventsOf(polls, poll, m - 1, k);
      OfConcat(TurnEvents(polls, poll, m - 1), SensorEvents(polls, poll, m - 1), k);
      OtherSensor(polls, poll, m - 1, k);
    }
  }

  lemma NoEvents(k: nat)
    ensures Of([], k) == []
  {}

  lemma OtherSensor(polls: seq<Poll>, poll: Poll, m: nat, k: nat)
    requires m < |poll.sensors| && forall i :: 0 <= i < |polls| ==> m < |polls[i].sensors|
    ensures k != m ==> Of(SensorEvents(polls, poll, m), k) == []
  {
    hide Readings, Heard, Latest;
    assert forall e: Event :: [e][..0] == [];
  }

  lemma SensorChanges(r: seq<int>, h: seq<int>, k: nat)
    requires |h| <= 1
    ensures Changes(r + h, 0) ==
            Changes(r, 0) + Of(if h != [] && h[0] != Latest(r, 0) then [Event(k, h[0])] else [], k)
  {
    if h == [] {
      assert r + h == r;
    } else {
      assert h == [h[0]];
      ReadingAdded(r, h[0]);
    }
  }

  /** The events reported for sensor k are the changes in its readings; nothing is reported of any other number. */
  lemma {:induction false} EventsOfSensor(polls: seq<Poll>, n: nat, k: nat)
    requires PollsOk(polls, n)
    ensures Of(AllEvents(polls, n), k) == if k < n then Changes(Readings(polls, k), 0) else []
  {
    if polls != [] {
      var front, last := polls[..|polls| - 1], polls[|polls| - 1];
      EventsOfSensor(front, n, k);
      OfConcat(AllEvents(front, n), TurnEvents(front, last, n), k);
      TurnEventsOf(front, last, n, k);
      if k < n { SensorChanges(Readings(front, k), Heard(last, k), k); }
    }
  }

  // ----- what the reported values look like -----

  lemma {:induction false} ReadingsBinary(polls: seq<Poll>, n: nat, k: nat)
    requires PollsOk(polls, n) && k < n
    ensures forall i :: 0 <= i < |Readings(polls, k)| ==> Readings(polls, k)[i] == 0 || Readings(polls, k)[i] == 1
  {
    if polls != [] { ReadingsBinary(polls[..|polls| - 1], n, k); }
  }

  ghost predicate Alternating(c: seq<int>) {
    forall i :: 0 <= i < |c| ==> c[i] == (i + 1) % 2
  }

  lemma {:induction false} ChangesAlternate(readings: seq<int>)
    requires forall i :: 0 <= i < |readings| ==> readings[i] == 0 || readings[i] == 1
    ensures Alternating(Changes(readings, 0))
    ensures Latest(readings, 0) == |Changes(readings, 0)| % 2
  {
    if readings != [] { ChangesAlternate(readings[..|readings| - 1]); }
  }

  /** The values reported for a sensor alternate, and the first is 1. */
  lemma EventsAlternate(polls: seq<Poll>, n: nat, k: nat)
    requires PollsOk(polls, n) && k < n
    ensures Alternating(Of(AllEvents(polls, n), k))
  {
    EventsOfSensor(polls, n, k);
    ReadingsBinary(polls, n, k);
    ChangesAlternate(Readings(polls, k));
  }

  /** How often the readings rise from 0 to 1. */
  function Rises(readings: seq<int>): nat {
    if readings == [] then 0
    else
      var front := readings[..|readings| - 1];
      Rises(front) + if Latest(front, 0) == 0 && readings[|readings| - 1] == 1 then 1 else 0
  }

  function Ones(c: seq<int>): nat {
    if c == [] then 0 else Ones(c[..|c| - 1]) + if c[|c| - 1] == 1 then 1 else 0
  }

  /** A sensor raises as many alarms as its readings rise. */
  lemma {:induction false} AlarmsAreRises(readings: seq<int>)
    requires forall i :: 0 <= i < |readings| ==> readings[i] == 0 || readings[i] == 1
    ensures Ones(Changes(readings, 0)) == Rises(readings)
  {
    if readings != [] {
      var front, last := readings[..|readings| - 1], readings[|readings| - 1];
      AlarmsAreRises(front);
      var c := Changes(front, 0);
      assert (c + [last])[..|c|] == c;
      LatestBinary(front);
    }
  }

  lemma LatestBinary(readings: seq<int>)
    requires forall i :: 0 <= i < |readings| ==> readings[i] == 0 || readings[i] == 1
    ensures Latest(readings, 0) == 0 || Latest(readings, 0) == 1
  {}

  // ----- in terms of the pins -----

  /** A turn hears sensor k exactly when the arming pin reads 0 and the sensor can be read, and then its bit. */
  lemma TurnReads(polls: seq<Poll>, poll: Poll, n: nat, k: nat)
    requires PollsOk(polls, n) && PollsOk([poll], n) && k < n
    ensures |poll.sensors| == n
    ensures Readings(polls + [poll], k) ==
            if poll.arming == Value(0) && poll.sensors[k].Value? then Readings(polls, k) + [poll.sensors[k].bit]
            else Readings(polls, k)
  {
    assert [poll][0] == poll;
    assert (polls + [poll])[..|polls|] == polls;
    assert Readings(polls, k) + [] == Readings(polls, k);
  }

  lemma DisarmedTurn(polls: seq<Poll>, poll: Poll, n: nat)
    requires PollsOk(polls, n) && PollsOk([poll], n) && poll.arming != Value(0)
    ensures |poll.sensors| == n && TurnEvents(polls, poll, n) == []
  {
    assert [poll][0] == poll;
    SilentTurn(polls, poll, n);
  }

  /** While the arming pin never reads 0 nothing is reported. */
  lemma {:induction false} DisarmedIsSilent(polls: seq<Poll>, n: nat)
    requires PollsOk(polls, n) && forall i :: 0 <= i < |polls| ==> polls[i].arming != Value(0)
    ensures AllEvents(polls, n) == []
    decreases |polls|
  {
    if polls != [] {
      var front, last := polls[..|polls| - 1], polls[|polls| - 1];
      DisarmedIsSilent(front, n);
      assert PollsOk([last], n);
      DisarmedTurn(front, last, n);
    }
  }

  /** While the arming pin always reads 0 and every sensor can be read, the readings are all the bits of the sensor. */
  lemma {:induction false} ArmedReadsAll(polls: seq<Poll>, n: nat, k: nat)
    requires PollsOk(polls, n) && k < n
    requires forall i :: 0 <= i < |polls| ==> polls[i].arming == Value(0) && polls[i].sensors[k].Value?
    ensures |Readings(polls, k)| == |polls|
    ensures forall i :: 0 <= i < |polls| ==> Readings(polls, k)[i] == polls[i].sensors[k].bit
    decreases |polls|
  {
    if polls != [] {
      var front, last := polls[..|polls| - 1], polls[|polls| - 1];
      ArmedReadsAll(front, n, k);
      assert PollsOk([last], n);
      assert front + [last] == polls;
      TurnReads(front, last, n, k);
      assert forall i :: 0 <= i < |front| ==> polls[i] == front[i];
    }
  }

  /** The first alarm: a sensor of an armed monitor that reads 1 for the first time is reported, and captured. */
  lemma FirstAlarm(arming: Reading, bit: int)
    requires arming.Ok() && (bit == 0 || bit == 1)
    ensures var events := AllEvents([Poll(arming, [Value(bit)])], 1);
            && events == (if arming == Value(0) && bit == 1 then [Event(0, 1)] else [])
            && Raised(events) == events
  {
    var poll := Poll(arming, [Value(bit)]);
    assert [poll][..0] == [] && Readings([], 0) == [];
    assert TurnEvents([], poll, 0) == [];
    assert TurnEvents([], poll, 1) == SensorEvents([], poll, 0);
    assert AllEvents([poll], 1) == AllEvents([], 1) + TurnEvents([], poll, 1);
    assert [Event(0, 1)][..0] == [];
  }

  /** Captures are requested for the events with another value than 0, in their order. */
  lemma {:induction false} CapturesAreHigh(events: seq<Event>)
    ensures forall e :: e in Raised(events) <==> e in events && e.value != 0
    ensures forall k :: Of(Raised(events), k) == HighOnly(Of(events, k))
  {
    if events != [] {
      var front, e := events[..|events| - 1], events[|events| - 1];
      CapturesAreHigh(front);
      assert events == front + [e];
      forall k ensures Of(Raised(events), k) == HighOnly(Of(events, k)) {
        OfConcat(Raised(front), [e], k);
        assert [e][..0] == [] && Raised(front) + [] == Raised(front);
        HighOnlyMore(Of(front, k), e.value);
        assert Of(front, k) + [] == Of(front, k);
      }
    }
  }

  function HighOnly(values: seq<int>): seq<int> {
    if values == [] then []
    else HighOnly(values[..|values| - 1]) + if values[|values| - 1] != 0 then [values[|values| - 1]] else []
  }

  lemma HighOnlyMore(values: seq<int>, v: int)
    ensures HighOnly(values + [v]) == HighOnly(values) + if v != 0 then [v] else []
  {
    assert (values + [v])[..|values|] == values;
  }

  /** The answer of a turn: a failed arming read, or else the first failed sensor while armed, or 0. */
  ghost predicate TurnAnswers(poll: Poll, err: int) {
    if poll.arming.Failure? then err == poll.arming.err
    else if poll.arming != Value(0) || forall k :: 0 <= k < |poll.sensors| ==> poll.sensors[k].Value? then err == 0
    else exists k :: FirstFailure(poll.sensors, k, err)
  }

  ghost predicate FirstFailure(sensors: seq<Reading>, k: int, err: int) {
    0 <= k < |sensors| && sensors[k] == Failure(err) && forall j :: 0 <= j < k ==> sensors[j].Value?
  }

  lemma {:induction false} SensorErrorIs(poll: Poll, n: nat)
    requires n <= |poll.sensors| && forall k :: 0 <= k < n ==> poll.sensors[k].Ok()
    ensures SensorError(poll, n) == 0 <==> forall k :: 0 <= k < n ==> poll.sensors[k].Value?
    ensures SensorError(poll, n) != 0 ==> exists k :: k < n && FirstFailure(poll.sensors, k, SensorError(poll, n))
  {
    if n > 0 {
      SensorErrorIs(poll, n - 1);
      if SensorError(poll, n - 1) == 0 && poll.sensors[n - 1].Failure? {
        assert FirstFailure(poll.sensors, n - 1, SensorError(poll, n));
      }
    }
  }

  lemma TurnError(poll: Poll, n: nat)
    requires PollsOk([poll], n)
    ensures TurnAnswers(poll, PollError(poll))
  {
    assert [poll][0] == poll;
    SensorErrorIs(poll, |poll.sensors|);
  }

  /** The error returned is that of the first turn with an error, and 0 if there is none. */
  lemma {:induction false} ErrorIsFirst(polls: seq<Poll>, n: nat)
    requires PollsOk(polls, n)
    ensures if forall i :: 0 <= i < |polls| ==> PollError(polls[i]) == 0 then FirstError(polls) == 0
            else exists i :: FirstErrorAt(polls, i, FirstError(polls))
    decreases |polls|
  {
    hide PollError;
    if polls != [] {
      var n1 := |polls| - 1;
      var front := polls[..n1];
      ErrorIsFirst(front, n);
      if FirstError(front) != 0 {
        var i :| FirstErrorAt(front, i, FirstError(front));
        assert FirstErrorAt(polls, i, FirstError(polls));
      } else if PollError(polls[n1]) != 0 {
        assert forall j :: 0 <= j < n1 ==> front[j] == polls[j];
        assert FirstErrorAt(polls, n1, FirstError(polls));
      }
    }
  }

  ghost predicate FirstErrorAt(polls: seq<Poll>, i: int, err: int) {
    0 <= i < |polls| && err == PollError(polls[i]) != 0 && forall j :: 0 <= j < i ==> PollError(polls[j]) == 0
  }

  /** A sensor that could not be read, or was not read because the alarm was disarmed, adds nothing. */
  lemma SilentPollAddsNothing(polls: seq<Poll>, poll: Poll, n: nat, k: nat)
    requires PollsOk(polls, n) && PollsOk([poll], n) && k < n
    ensures Readings(polls + [poll], k) == Readings(polls, k) <==> !poll.Armed() || [poll][0].sensors[k].Failure?
  {
    assert [poll][0] == poll;
    assert (polls + [poll])[..|polls|] == polls;
    assert |Readings(polls + [poll], k)| == |Readings(polls, k)| + |Heard(poll, k)|;
    if Heard(poll, k) == [] { assert Readings(polls, k) + [] == Readings(polls, k); }
  }
}
