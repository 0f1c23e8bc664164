/** `gpio_control.c` over a line library in which every call may fail. */
module GpioLines {
  import opened Collections

  const PIN_IN_DIR := 0
  const PIN_IN_DIR_PULLDOWN := 1
  const PIN_IN_DIR_PULLUP := 2
  const PIN_OUT_DIR := 3
  const PIN_LOW_VAL := 0
  const PIN_HIGH_VAL := 1

  const EPERM := 1
  const EIO := 5
  const EBADF := 9
  const ENOMEM := 12
  const ENODEV := 19
  const EINVAL := 22

  /** The numbers of gpio_control.h and errno.h that callers see. */
  lemma InterfaceNumbers(dir: int)
    ensures IsDirection(dir) <==> 0 <= dir <= 3
    ensures PIN_IN_DIR == 0 && PIN_IN_DIR_PULLDOWN == 1 && PIN_IN_DIR_PULLUP == 2 && PIN_OUT_DIR == 3
    ensures PIN_LOW_VAL == 0 && PIN_HIGH_VAL == 1
    ensures EPERM == 1 && EBADF == 9 && ENOMEM == 12 && ENODEV == 19 && EINVAL == 22
  {}

  predicate IsDirection(dir: int) {
    dir == PIN_IN_DIR || dir == PIN_IN_DIR_PULLDOWN || dir == PIN_IN_DIR_PULLUP || dir == PIN_OUT_DIR
  }

  /** A line request that has been granted: which line, and how it is driven. */
  datatype Held = Held(line: int, dir: int, level: int)

  datatype LineValue = ACTIVE | INACTIVE | ERROR

  /** The line library: what it has handed out and not got back. */
  class Library {
    var chipOpen: bool
    var held: map<int, Held>
    /** Settings and configuration objects that have not been freed. */
    var temporaries: nat
    var nextHandle: int
    /** How many calls have failed. */
    ghost var failures: nat
    /** The last answer of GetValue, and the request it was asked about. */
    ghost var asked: int
    ghost var answer: LineValue

    ghost predicate Fresh()
      reads this
    {
      forall h :: h in held ==> h < nextHandle
    }

    constructor ()
      ensures !chipOpen && held == map[] && temporaries == 0 && Fresh()
    {
      chipOpen, held, temporaries, nextHandle := false, map[], 0, 0;
      failures, asked, answer := 0, -1, INACTIVE;
    }

    method OpenChip() returns (ok: bool)
      modifies `chipOpen, `failures
      ensures chipOpen == (old(chipOpen) || ok)
      ensures failures == old(failures) + if ok then 0 else 1
    {
      ok := Works();
      chipOpen := chipOpen || ok;
    }

    /** Any call may fail. */
    method Works() returns (ok: bool)
      modifies `failures
      ensures failures == old(failures) + if ok then 0 else 1
    {
      ok := *;
      if !ok {
        failures := failures + 1;
      }
    }

    method CloseChip()
      requires chipOpen
      modifies `chipOpen
      ensures !chipOpen
    {
      chipOpen := false;
    }

    /** Any of the calls that make a settings or configuration object. */
    method NewTemporary() returns (ok: bool)
      modifies `temporaries, `failures
      ensures temporaries == old(temporaries) + if ok then 1 else 0
      ensures failures == old(failures) + if ok then 0 else 1
    {
      ok := Works();
      temporaries := temporaries + if ok then 1 else 0;
    }

    method FreeTemporary()
      requires temporaries > 0
      modifies `temporaries
      ensures temporaries == old(temporaries) - 1
    {
      temporaries := temporaries - 1;
    }

    /** A line that is held is not granted again. */
    method RequestLine(line: int, dir: int, level: int) returns (r: Option<int>)
      requires chipOpen && Fresh()
      modifies `held, `nextHandle, `failures
      ensures Fresh()
      ensures r == None ==> held == old(held)
      ensures r == None && (forall h :: h in held ==> held[h].line != line) ==> failures == old(failures) + 1
      ensures r.Some? ==> failures == old(failures)
      ensures failures >= old(failures)
      ensures r.Some? ==> r.value !in old(held) && held == old(held)[r.value := Held(line, dir, level)]
      ensures r.Some? ==> forall h :: h in old(held) ==> old(held)[h].line != line
    {
      var ok := Works();
      if ok && forall h <- held :: held[h].line != line {
        r := Some(nextHandle);
        held := held[nextHandle := Held(line, dir, level)];
        nextHandle := nextHandle + 1;
      } else {
        r := None;
      }
    }

    method Release(h: int)
      requires h in held && Fresh()
      modifies `held
      ensures Fresh() && held == old(held) - {h}
    {
      held := held - {h};
    }

    /** An output reads as what it is driven to; an input reads as anything. */
    method GetValue(h: int) returns (v: LineValue)
      requires h in held
      modifies `failures, `asked, `answer
      ensures asked == h && answer == v
      ensures failures == old(failures) + if v == ERROR then 1 else 0
      ensures held[h].dir == PIN_OUT_DIR && v != ERROR ==> (v == ACTIVE <==> held[h].level == PIN_HIGH_VAL)
    {
      var ok := Works();
      var high: bool := *;
      if held[h].dir == PIN_OUT_DIR {
        high := held[h].level == PIN_HIGH_VAL;
      }
      v := if !ok then ERROR else if high then ACTIVE else INACTIVE;
      asked, answer := h, v;
    }

    method SetValue(h: int, level: int) returns (ok: bool)
      requires h in held && Fresh()
      modifies `held, `failures
      ensures failures == old(failures) + if ok then 0 else 1
      ensures Fresh() && held == if ok then old(held)[h := old(held)[h].(level := level)] else old(held)
    {
      ok := Works();
      if ok {
        held := held[h := held[h].(level := level)];
      }
    }

    method Errno() returns (e: int)
      ensures e != 0
    {
      e := *;
      if e == 0 {
        e := EIO;
      }
    }
  }

  datatype Pin = Pin(request: Option<int>, direction: int)

  /** The requests held are those in the table: one per entry, for the line of that entry, as the entry says. */
  ghost predicate Matched(pins: seq<Pin>, held: map<int, Held>) {
    && (forall i :: 0 <= i < |pins| && pins[i].request.Some? ==>
          pins[i].request.value in held && held[pins[i].request.value].line == i
          && held[pins[i].request.value].dir == pins[i].direction)
    && (forall h :: h in held ==> 0 <= held[h].line < |pins| && pins[held[h].line].request == Some(h))
  }

  /** Nothing about the other pins has changed. */
  ghost predicate OthersSame(before: seq<Pin>, heldBefore: map<int, Held>, after: seq<Pin>, heldAfter: map<int, Held>,
                             pin: int)
  {
    && |after| == |before|
    && (forall i :: 0 <= i < |before| && i != pin ==>
          && after[i] == before[i]
          && (before[i].request.Some? && before[i].request.value in heldBefore ==>
                before[i].request.value in heldAfter
                && heldAfter[before[i].request.value] == heldBefore[before[i].request.value]))
  }

  lemma OthersOn(p: seq<Pin>, heldP: map<int, Held>, q: seq<Pin>, heldQ: map<int, Held>,
                 r: seq<Pin>, heldR: map<int, Held>, pin: int)
    requires OthersSame(p, heldP, q, heldQ, pin) && OthersSame(q, heldQ, r, heldR, pin)
    ensures OthersSame(p, heldP, r, heldR, pin)
  {}

  lemma NothingHeld(pins: seq<Pin>, held: map<int, Held>)
    requires Matched(pins, held) && forall i :: 0 <= i < |pins| ==> pins[i].request == None
    ensures held == map[]
  {
    forall h ensures h !in held {}
    assert held == map[];
  }

  class Gpio {
    const lib: Library
    var isOpen: bool
    var pins: seq<Pin>

    ghost predicate Valid()
      reads this, lib
    {
      && lib.Fresh() && lib.temporaries == 0
      && (isOpen <==> lib.chipOpen)
      && (isOpen <==> pins != [])
      && Matched(pins, lib.held)
      && forall i :: 0 <= i < |pins| ==> IsDirection(pins[i].direction)
    }

    constructor (lib: Library)
      requires !lib.chipOpen && lib.held == map[] && lib.temporaries == 0 && lib.Fresh()
      ensures Valid() && !isOpen && this.lib == lib
    {
      this.lib := lib;
      isOpen, pins := false, [];
    }

    /** infoOk, numLines and callocOk are what the library and the allocator answer. */
    method Open(infoOk: bool, numLines: nat, callocOk: bool) returns (ret: int)
      requires Valid()
      modifies this, lib
      ensures Valid()
      ensures old(isOpen) ==> ret == 0 && isOpen && pins == old(pins) && lib.held == old(lib.held)
      ensures ret == 0 <==> isOpen
      ensures !old(isOpen) && infoOk && lib.failures == old(lib.failures) ==>
                ret == if numLines == 0 then ENODEV else if !callocOk then ENOMEM else 0
      ensures !old(isOpen) && (!infoOk || lib.failures > old(lib.failures)) ==> ret != 0
      ensures !old(isOpen) && isOpen ==>
                |pins| == numLines && forall i :: 0 <= i < numLines ==> pins[i] == Pin(None, PIN_IN_DIR)
    {
      if isOpen {
        return 0;
      }
      var ok := lib.OpenChip();
      if !ok {
        ret := lib.Errno();
        return;
      }
      if !infoOk {
        lib.CloseChip();
        ret := lib.Errno();
        return;
      }
      if numLines == 0 {
        lib.CloseChip();
        return ENODEV;
      }
      if !callocOk {
        lib.CloseChip();
        return ENOMEM;
      }
      pins := seq(numLines, _ => Pin(None, PIN_IN_DIR));
      isOpen := true;
      ret := 0;
    }

    /** release_pin_request */
    method ReleasePin(pin: int)
      requires 0 <= pin < |pins| && lib.Fresh() && Matched(pins, lib.held)
      modifies `pins, lib`held
      ensures lib.Fresh() && Matched(pins, lib.held)
      ensures pins == old(pins)[pin := old(pins)[pin].(request := None)]
      ensures OthersSame(old(pins), old(lib.held), pins, lib.held, pin)
    {
      if pins[pin].request.Some? {
        lib.Release(pins[pin].request.value);
        pins := pins[pin := pins[pin].(request := None)];
      }
    }

    method Close() returns (ret: int)
      requires Valid()
      modifies this, lib
      ensures Valid() && ret == 0 && !isOpen && lib.held == map[] && !lib.chipOpen
    {
      ret := 0;
      if !isOpen {
        NothingHeld(pins, lib.held);
        return;
      }
      for i := 0 to |pins|
        invariant |pins| == |old(pins)| && lib.Fresh() && Matched(pins, lib.held)
        invariant lib.chipOpen && lib.temporaries == 0
        invariant forall k :: 0 <= k < i ==> pins[k].request == None
      {
        ReleasePin(i);
      }
      NothingHeld(pins, lib.held);
      pins := [];
      lib.CloseChip();
      isOpen := false;
    }

    /** configure_line_settings: each setter may fail, and an unknown direction is refused. */
    method ConfigureLineSettings(dir: int) returns (ret: int)
      modifies lib`failures
      ensures lib.failures == old(lib.failures) + if ret == 0 || !IsDirection(dir) then 0 else 1
      ensures ret == 0 ==> IsDirection(dir)
      ensures !IsDirection(dir) ==> ret == EINVAL
    {
      if !IsDirection(dir) {
        return EINVAL;
      }
      var ok := lib.Works();
      if ok {
        ret := 0;
      } else {
        ret := lib.Errno();
      }
    }

    /** build_line_request: on every path all temporary objects are freed. */
    method BuildLineRequest(pin: int, dir: int, initialValue: int) returns (ret: int, request: Option<int>)
      requires lib.chipOpen && lib.Fresh()
      modifies lib
      ensures lib.chipOpen && lib.Fresh() && lib.temporaries == old(lib.temporaries)
      ensures ret == 0 <==> request.Some?
      ensures !IsDirection(dir) ==> request == None && (lib.failures == old(lib.failures) ==> ret == EINVAL)
      ensures request == None ==> lib.held == old(lib.held)
      ensures request == None && IsDirection(dir) && (forall h :: h in lib.held ==> lib.held[h].line != pin) ==>
                lib.failures > old(lib.failures)
      ensures lib.failures >= old(lib.failures)
      ensures request.Some? ==>
                && request.value !in old(lib.held)
                && lib.held == old(lib.held)[request.value := Held(pin, dir, initialValue)]
    {
      request := None;
      ret := 0;
      var settings := lib.NewTemporary();
      var lineCfg, reqCfg := false, false;
      if settings {
        ret := ConfigureLineSettings(dir);
        if ret == 0 {
          lineCfg := lib.NewTemporary();
          var added := false;
          if lineCfg {
            added := lib.Works();
          }
          if added {
            reqCfg := lib.NewTemporary();
            if reqCfg {
              request := lib.RequestLine(pin, dir, initialValue);
            }
          }
          if request == None {
            ret := lib.Errno();
          }
        }
      } else {
        ret := lib.Errno();
      }
      if reqCfg {
        lib.FreeTemporary();
      }
      if lineCfg {
        lib.FreeTemporary();
      }
      if settings {
        lib.FreeTemporary();
      }
    }

    method ValidatePin(pin: int) returns (ret: int)
      requires Valid()
      ensures ret == if !isOpen then EBADF else if pin < 0 || pin >= |pins| then EINVAL else 0
    {
      ret := if !isOpen then EBADF else if pin < 0 || pin >= |pins| then EINVAL else 0;
    }

    /** The level that an output is driven to; false when it cannot be read. */
    method OldValue(pin: int) returns (ok: bool, value: int)
      requires Valid() && 0 <= pin < |pins|
      modifies lib`failures, lib`asked, lib`answer
      ensures Valid() && lib.failures == old(lib.failures) + if ok then 0 else 1
      ensures ok && pins[pin].request.Some? && pins[pin].direction == PIN_OUT_DIR ==>
                (value == PIN_HIGH_VAL <==> lib.held[pins[pin].request.value].level == PIN_HIGH_VAL)
      ensures value == PIN_LOW_VAL || value == PIN_HIGH_VAL
      ensures !(pins[pin].request.Some? && pins[pin].direction == PIN_OUT_DIR) ==> ok && value == PIN_LOW_VAL
    {
      ok, value := true, PIN_LOW_VAL;
      if pins[pin].request.Some? && pins[pin].direction == PIN_OUT_DIR {
        var v := lib.GetValue(pins[pin].request.value);
        ok := v != ERROR;
        if v == ACTIVE {
          value := PIN_HIGH_VAL;
        }
      }
    }

    /** Puts a granted request into the table. */
    lemma Granted(before: seq<Pin>, heldBefore: map<int, Held>, pin: int, h: int, dir: int, level: int)
      requires 0 <= pin < |before| && Matched(before, heldBefore) && before[pin].request == None && h !in heldBefore
      ensures var after, held := before[pin := Pin(Some(h), dir)], heldBefore[h := Held(pin, dir, level)];
              Matched(after, held) && OthersSame(before, heldBefore, after, held, pin)
    {}

    /** build_line_request for a pin that has been released; a granted request goes into the table. */
    method RequestPin(pin: int, dir: int, level: int) returns (ret: int)
      requires 0 <= pin < |pins| && pins[pin].request == None
      requires lib.chipOpen && lib.Fresh() && lib.temporaries == 0 && Matched(pins, lib.held)
      modifies `pins, lib
      ensures lib.chipOpen && lib.Fresh() && lib.temporaries == 0 && Matched(pins, lib.held)
      ensures OthersSame(old(pins), old(lib.held), pins, lib.held, pin)
      ensures ret == 0 ==>
                && IsDirection(dir) && pins[pin].request.Some? && pins[pin].direction == dir
                && lib.held[pins[pin].request.value] == Held(pin, dir, level)
      ensures ret != 0 ==> pins == old(pins) && lib.held == old(lib.held)
      ensures ret != 0 ==> lib.failures >= old(lib.failures) + if IsDirection(dir) then 1 else 0
      ensures lib.failures >= old(lib.failures)
      ensures !IsDirection(dir) && lib.failures == old(lib.failures) ==> ret == EINVAL
    {
      var request;
      ret, request := BuildLineRequest(pin, dir, level);
      if ret == 0 {
        Granted(pins, old(lib.held), pin, request.value, dir, level);
        pins := pins[pin := Pin(request, dir)];
      }
    }

    method Direction(pin: int, dir: int) returns (ret: int)
      requires Valid()
      modifies this, lib
      ensures Valid() && isOpen == old(isOpen) && OthersSame(old(pins), old(lib.held), pins, lib.held, pin)
      ensures !old(isOpen) ==> ret == EBADF
      ensures old(isOpen) && !(0 <= pin < |old(pins)|) ==>
                ret == EINVAL && pins == old(pins) && lib.held == old(lib.held)
      ensures ret == 0 ==>
                && isOpen && 0 <= pin < |pins| && IsDirection(dir)
                && pins[pin].direction == dir && pins[pin].request.Some?
                && lib.held[pins[pin].request.value] == Held(pin, dir, PIN_LOW_VAL)
      ensures isOpen && 0 <= pin < |pins| && IsDirection(dir) && lib.failures == old(lib.failures) ==> ret == 0
      ensures isOpen && 0 <= pin < |pins| && pins[pin].request == None ==>
                ret != 0 && lib.failures >= old(lib.failures) + if IsDirection(dir) then 2 else 1
      ensures isOpen && 0 <= pin < |pins| && !IsDirection(dir) && lib.failures == old(lib.failures) ==>
                ret == EINVAL && pins[pin].request.Some?
      ensures ret != 0 && isOpen && 0 <= pin < |pins| ==>
                FailedDirection(old(pins[pin]), old(lib.held), pins[pin], lib.held, pin)
    {
      ret := ValidatePin(pin);
      if ret != 0 {
        return;
      }
      ghost var before, heldBefore := pins, lib.held;
      var oldDirection := pins[pin].direction;
      var ok, oldValue := OldValue(pin);
      if !ok {
        ret := lib.Errno();
        return;
      }
      ReleasePin(pin);
      ghost var released, heldReleased := pins, lib.held;
      ret := RequestPin(pin, dir, PIN_LOW_VAL);
      if ret != 0 {
        // every direction in the table is one of the four, so that going back is always tried
        var _ := RequestPin(pin, oldDirection, oldValue);
      }
      OthersOn(before, heldBefore, released, heldReleased, pins, lib.held, pin);
    }

    /** Nothing changes; `value` counts only when the answer is 0. */
    method Read(pin: int) returns (ret: int, value: int)
      requires Valid()
      modifies lib`failures, lib`asked, lib`answer
      ensures Valid()
      ensures isOpen && 0 <= pin < |pins| && pins[pin].request.Some? && lib.failures == old(lib.failures) ==> ret == 0
      ensures !isOpen ==> ret == EBADF
      ensures isOpen && !(0 <= pin < |pins| && pins[pin].request.Some?) ==> ret == EINVAL
      ensures ret == 0 ==>
                && isOpen && 0 <= pin < |pins| && pins[pin].request.Some?
                && (value == PIN_LOW_VAL || value == PIN_HIGH_VAL)
      ensures ret == 0 && pins[pin].direction == PIN_OUT_DIR ==>
                (value == PIN_HIGH_VAL <==> lib.held[pins[pin].request.value].level == PIN_HIGH_VAL)
      ensures ret == 0 ==>
                && lib.asked == pins[pin].request.value && lib.answer != ERROR
                && value == (if lib.answer == ACTIVE then 1 else 0)
    {
      value := PIN_LOW_VAL;
      ret := ValidatePin(pin);
      if ret != 0 {
        return;
      }
      if pins[pin].request == None {
        return EINVAL, value;
      }
      var v := lib.GetValue(pins[pin].request.value);
      if v == ERROR {
        ret := lib.Errno();
        return;
      }
      value := if v == ACTIVE then PIN_HIGH_VAL else PIN_LOW_VAL;
    }

    method Write(pin: int, value: int) returns (ret: int)
      requires Valid()
      modifies lib`held, lib`failures
      ensures Valid() && OthersSame(pins, old(lib.held), pins, lib.held, pin)
      ensures value != PIN_LOW_VAL && value != PIN_HIGH_VAL ==> ret == EINVAL
      ensures (value == PIN_LOW_VAL || value == PIN_HIGH_VAL) && !isOpen ==> ret == EBADF
      ensures (value == PIN_LOW_VAL || value == PIN_HIGH_VAL) && isOpen ==>
                if !(0 <= pin < |pins|) || pins[pin].request == None then ret == EINVAL
                else if pins[pin].direction != PIN_OUT_DIR then ret == EPERM
                else lib.failures == old(lib.failures) <==> ret == 0
      ensures ret != 0 ==> lib.held == old(lib.held)
      ensures ret == 0 ==>
                && isOpen && 0 <= pin < |pins| && pins[pin].request.Some? && pins[pin].direction == PIN_OUT_DIR
                && lib.held[pins[pin].request.value].level == value
    {
      if value != PIN_LOW_VAL && value != PIN_HIGH_VAL {
        return EINVAL;
      }
      ret := ValidatePin(pin);
      if ret != 0 {
        return;
      }
      if pins[pin].request == None {
        return EINVAL;
      }
      if pins[pin].direction != PIN_OUT_DIR {
        return EPERM;
      }
      var ok := lib.SetValue(pins[pin].request.value, value);
      if !ok {
        ret := lib.Errno();
      }
    }

    /**
      Any calls in any order, with any failures of the library: the requests held are always those in the table, and
      after a last close there is none, no temporary object and no open chip.
     */
    method Session(calls: seq<Call>)
      requires Valid()
      modifies this, lib
      ensures Valid() && lib.held == map[] && lib.temporaries == 0 && !lib.chipOpen
    {
      for k := 0 to |calls|
        invariant Valid()
      {
        match calls[k] {
          case OpenCall(infoOk, numLines, callocOk) => var _ := Open(infoOk, numLines, callocOk);
          case CloseCall => var _ := Close();
          case DirectionCall(pin, dir) => var _ := Direction(pin, dir);
          case ReadCall(pin) => var _, _ := Read(pin);
          case WriteCall(pin, value) => var _ := Write(pin, value);
        }
      }
      var _ := Close();
    }
  }

  datatype Call =
    | OpenCall(infoOk: bool, numLines: nat, callocOk: bool)
    | CloseCall
    | DirectionCall(pin: int, dir: int)
    | ReadCall(pin: int)
    | WriteCall(pin: int, value: int)

  /**
    A failed change of direction keeps the recorded direction. If a request is there afterwards, it is the old one, or
    a new one in the old direction, which drives an output that was held as before, and anything else low.
   */
  ghost predicate FailedDirection(before: Pin, heldBefore: map<int, Held>, after: Pin, heldAfter: map<int, Held>,
                                  pin: int)
  {
    && after.direction == before.direction
    && (after.request.Some? ==>
          && after.request.value in heldAfter
          && (before.request.Some? && before.request.value in heldBefore && before.direction == PIN_OUT_DIR ==>
                (heldAfter[after.request.value].level == PIN_HIGH_VAL
                 <==> heldBefore[before.request.value].level == PIN_HIGH_VAL))
          && (before.request == None ==> heldAfter[after.request.value].level == PIN_LOW_VAL))
  }
}
