/** The pan and tilt commands of the camera control: what is tracked, what is sent, and the mutex around them. */
module PanTilt {

  const ONE_DEGREE := 64
  const MAX_PAN := 70 * 64
  const MIN_PAN := -70 * 64
  const MAX_TILT := 30 * 64
  const MIN_TILT := -30 * 64

  datatype Command =
    | HELLO
    | RESET_PAN_TILT
    | RESET_PAN_TILT_NO_MUTEX
    | PAN_SET
    | PAN_PLUS
    | PAN_MINUS
    | TILT_SET
    | TILT_PLUS
    | TILT_MINUS
    | OTHER {
    predicate Moves() {
      PAN_SET? || PAN_PLUS? || PAN_MINUS? || TILT_SET? || TILT_PLUS? || TILT_MINUS?
    }
  }

  datatype Position = Position(pan: int, tilt: int)

  // ----- the surroundings -----

  class Mutex {
    var locked: bool

    constructor ()
      ensures !locked
    {
      locked := false;
    }

    method Lock()
      requires !locked
      modifies this
      ensures locked
    {
      locked := true;
    }

    method Unlock()
      requires locked
      modifies this
      ensures !locked
    {
      locked := false;
    }
  }

  /** The camera; it carries out every relative move. */
  class Camera {
    /** There has been a successful reset, and these are the moves since the last one. */
    var homed: bool
    var moves: seq<Position>
    /** How often a reset has been tried, and how often it has failed. */
    ghost var resets: nat
    ghost var failures: nat

    constructor ()
      ensures !homed && moves == []
    {
      homed, moves, resets, failures := false, [], 0, 0;
    }

    method Reset() returns (ok: bool)
      modifies this
      ensures if ok then homed && moves == [] else homed == old(homed) && moves == old(moves)
      ensures resets == old(resets) + 1 && failures == old(failures) + if ok then 0 else 1
    {
      ok := *;
      resets, failures := resets + 1, failures + if ok then 0 else 1;
      if ok {
        homed, moves := true, [];
      }
    }

    /** A relative move makes sense only from a known position. */
    method Move(pan: int, tilt: int)
      requires homed
      modifies `moves
      ensures moves == old(moves) + [Position(pan, tilt)]
    {
      moves := moves + [Position(pan, tilt)];
    }
  }

  /** Where the moves lead from the position after a reset. */
  function Sum(moves: seq<Position>): Position {
    if moves == [] then Position(0, 0)
    else
      var p, m := Sum(moves[..|moves| - 1]), moves[|moves| - 1];
      Position(p.pan + m.pan, p.tilt + m.tilt)
  }

  // ----- what a command should do -----

  function Clamp(x: int, low: int, high: int): (r: int)
    requires low <= high
    ensures low <= r <= high && (low <= x <= high ==> r == x)
  {
    var m := if x > low then x else low;
    if m < high then m else high
  }

  /** Division in C rounds towards zero. */
  function Degrees(x: int): int {
    if x >= 0 then x / ONE_DEGREE else -(-x / ONE_DEGREE)
  }

  /** A step that would leave the range is not made. */
  function Stepped(x: int, step: int, low: int, high: int): int {
    if low <= x + step <= high then x + step else x
  }

  function Target(cmd: Command, value: int, p: Position, step: int): Position {
    match cmd
    case PAN_SET => p.(pan := Clamp(value * ONE_DEGREE, MIN_PAN, MAX_PAN))
    case PAN_PLUS => p.(pan := Stepped(p.pan, step, MIN_PAN, MAX_PAN))
    case PAN_MINUS => p.(pan := Stepped(p.pan, -step, MIN_PAN, MAX_PAN))
    case TILT_SET => p.(tilt := Clamp(value * ONE_DEGREE, MIN_TILT, MAX_TILT))
    case TILT_PLUS => p.(tilt := Stepped(p.tilt, step, MIN_TILT, MAX_TILT))
    case TILT_MINUS => p.(tilt := Stepped(p.tilt, -step, MIN_TILT, MAX_TILT))
    case _ => p
  }

  /** Where commands lead one after the other. */
  function Targets(cmds: seq<(Command, int)>, p: Position, step: int): Position {
    if cmds == [] then p
    else
      var (cmd, value) := cmds[|cmds| - 1];
      Target(cmd, value, Targets(cmds[..|cmds| - 1], p, step), step)
  }

  predicate InRange(p: Position) {
    MIN_PAN <= p.pan <= MAX_PAN && MIN_TILT <= p.tilt <= MAX_TILT
  }

  /** res is x in whole degrees of 64 units; the fraction is cut off. */
  predicate WholeDegrees(res: int, x: int) {
    && (x >= 0 ==> res >= 0 && 64 * res <= x < 64 * (res + 1))
    && (x <= 0 ==> res <= 0 && 64 * (res - 1) < x <= 64 * res)
  }

  /**
    What a moving command does, in sixty-fourths of a degree: an absolute one goes to the angle asked for, up to 70
    degrees of pan and 30 of tilt on either side, and a step is made when it stays within these.
   */
  ghost predicate Obeys(cmd: Command, value: int, step: int, p: Position, q: Position, res: int) {
    match cmd
    case PAN_SET =>
      q == p.(pan := if value > 70 then 4480 else if value < -70 then -4480 else 64 * value) && WholeDegrees(res, q.pan)
    case PAN_PLUS => q == p.(pan := if p.pan + step <= 4480 then p.pan + step else p.pan) && WholeDegrees(res, q.pan)
    case PAN_MINUS => q == p.(pan := if p.pan - step >= -4480 then p.pan - step else p.pan) && WholeDegrees(res, q.pan)
    case TILT_SET =>
      && q == p.(tilt := if value > 30 then 1920 else if value < -30 then -1920 else 64 * value)
      && WholeDegrees(res, q.tilt)
    case TILT_PLUS =>
      q == p.(tilt := if p.tilt + step <= 1920 then p.tilt + step else p.tilt) && WholeDegrees(res, q.tilt)
    case TILT_MINUS =>
      q == p.(tilt := if p.tilt - step >= -1920 then p.tilt - step else p.tilt) && WholeDegrees(res, q.tilt)
    case _ => q == p
  }

  lemma TargetObeys(cmd: Command, value: int, step: nat, p: Position)
    requires InRange(p) && cmd.Moves()
    ensures var q := Target(cmd, value, p, step);
            Obeys(cmd, value, step, p, q,
                  Degrees(if cmd.PAN_SET? || cmd.PAN_PLUS? || cmd.PAN_MINUS? then q.pan else q.tilt))
  {}

  // ----- the command handler -----

  class Control {
    const camera: Camera
    const mutex: Mutex
    const minRes: nat
    var pan: int
    var tilt: int
    var panTiltValid: int

    ghost predicate Valid()
      reads this, camera
    {
      && InRange(Position(pan, tilt)) && Sum(camera.moves) == Position(pan, tilt)
      && (panTiltValid == 1 <==> camera.homed) && (!camera.homed ==> camera.moves == [])
    }

    constructor (camera: Camera, mutex: Mutex, minRes: nat)
      requires !camera.homed && camera.moves == []
      ensures Valid() && this.camera == camera && this.mutex == mutex && this.minRes == minRes
    {
      this.camera, this.mutex, this.minRes := camera, mutex, minRes;
      pan, tilt, panTiltValid := 0, 0, -1;
    }

    /** uvcPanTilt with a relative move; its answer is not looked at. */
    method Send(dPan: int, dTilt: int, ghost before: Position)
      requires camera.homed && Sum(camera.moves) == before
      modifies camera`moves
      ensures Sum(camera.moves) == Position(before.pan + dPan, before.tilt + dTilt)
      ensures camera.moves == old(camera.moves) + [Position(dPan, dTilt)]
    {
      ghost var m := camera.moves;
      camera.Move(dPan, dTilt);
      assert camera.moves[..|m|] == m;
    }

    /** Goes to an absolute pan; nothing is sent when that is no move. */
    method PanTo(target: int)
      requires Valid() && camera.homed && MIN_PAN <= target <= MAX_PAN
      modifies `pan, camera`moves
      ensures Valid() && pan == target
      ensures camera.moves ==
              if target == old(pan) then old(camera.moves) else old(camera.moves) + [Position(target - old(pan), 0)]
    {
      var d := target - pan;
      if d == 0 {
        return;
      }
      ghost var before := Position(pan, tilt);
      pan := target;
      Send(d, 0, before);
    }

    /** A step that stays in the range; it is sent even when it is 0. */
    method PanBy(d: int)
      requires Valid() && camera.homed && MIN_PAN <= pan + d <= MAX_PAN
      modifies `pan, camera`moves
      ensures Valid() && pan == old(pan) + d && camera.moves == old(camera.moves) + [Position(d, 0)]
    {
      ghost var before := Position(pan, tilt);
      pan := pan + d;
      Send(d, 0, before);
    }

    method TiltTo(target: int)
      requires Valid() && camera.homed && MIN_TILT <= target <= MAX_TILT
      modifies `tilt, camera`moves
      ensures Valid() && tilt == target
      ensures camera.moves ==
              if target == old(tilt) then old(camera.moves) else old(camera.moves) + [Position(0, target - old(tilt))]
    {
      var d := target - tilt;
      if d == 0 {
        return;
      }
      ghost var before := Position(pan, tilt);
      tilt := target;
      Send(0, d, before);
    }

    method TiltBy(d: int)
      requires Valid() && camera.homed && MIN_TILT <= tilt + d <= MAX_TILT
      modifies `tilt, camera`moves
      ensures Valid() && tilt == old(tilt) + d && camera.moves == old(camera.moves) + [Position(0, d)]
    {
      ghost var before := Position(pan, tilt);
      tilt := tilt + d;
      Send(0, d, before);
    }

    method Reset() returns (res: int)
      requires Valid()
      modifies this, camera
      ensures Valid() && (res == 0 || res == -1)
      ensures camera.resets == old(camera.resets) + 1
      ensures camera.failures == old(camera.failures) + if res == 0 then 0 else 1
      ensures res == 0 ==> camera.homed && camera.moves == [] && pan == tilt == 0
      ensures res == -1 ==>
                && camera.homed == old(camera.homed) && camera.moves == old(camera.moves)
                && pan == old(pan) && tilt == old(tilt)
    {
      var ok := camera.Reset();
      if !ok {
        return -1;
      }
      panTiltValid := 1;
      pan, tilt := 0, 0;
      res := 0;
    }

    /** What the moving commands do once the position is known. */
    method Move(cmd: Command, value: int) returns (res: int)
      requires Valid() && camera.homed && cmd.Moves()
      modifies `pan, `tilt, camera`moves
      ensures Valid() && camera.homed
      ensures Position(pan, tilt) == Target(cmd, value, Position(old(pan), old(tilt)), minRes)
      ensures res == Degrees(if cmd.PAN_SET? || cmd.PAN_PLUS? || cmd.PAN_MINUS? then pan else tilt)
      ensures old(camera.moves) <= camera.moves && |camera.moves| <= |old(camera.moves)| + 1
    {
      hide Sum;
      var step: int := minRes;
      match cmd {
        case PAN_SET =>
          PanTo(Clamp(value * ONE_DEGREE, MIN_PAN, MAX_PAN));
        case PAN_PLUS =>
          if MAX_PAN >= pan + step { PanBy(step); }
        case PAN_MINUS =>
          if MIN_PAN <= pan - step { PanBy(-step); }
        case TILT_SET =>
          TiltTo(Clamp(value * ONE_DEGREE, MIN_TILT, MAX_TILT));
        case TILT_PLUS =>
          if MAX_TILT >= tilt + step { TiltBy(step); }
        case TILT_MINUS =>
          if MIN_TILT <= tilt - step { TiltBy(-step); }
      }
      res := Degrees(if cmd.PAN_SET? || cmd.PAN_PLUS? || cmd.PAN_MINUS? then pan else tilt);
    }

    /** The mutex is taken once, and released on every path; the reset inside a command does not take it again. */
    method InputCmd(cmd: Command, value: int) returns (res: int)
      requires Valid() && (cmd.RESET_PAN_TILT_NO_MUTEX? || !mutex.locked)
      modifies this, camera, mutex
      ensures Valid() && mutex.locked == old(mutex.locked)
      ensures cmd.HELLO? || cmd.OTHER? ==>
                && res == (if cmd.HELLO? then 0 else -1)
                && pan == old(pan) && tilt == old(tilt) && camera.moves == old(camera.moves)
      ensures cmd.RESET_PAN_TILT? || cmd.RESET_PAN_TILT_NO_MUTEX? ==>
                if res == 0 then camera.homed && camera.moves == [] && pan == tilt == 0
                else
                  && res == -1 && camera.homed == old(camera.homed) && camera.moves == old(camera.moves)
                  && pan == old(pan) && tilt == old(tilt)
      ensures cmd.RESET_PAN_TILT? || cmd.RESET_PAN_TILT_NO_MUTEX? || (cmd.Moves() && !old(camera.homed)) ==>
                && camera.resets == old(camera.resets) + 1
                && camera.failures ==
                   old(camera.failures) + if cmd.Moves() then (if camera.homed then 0 else 1) else -res
      ensures cmd.HELLO? || cmd.OTHER? || (cmd.Moves() && old(camera.homed)) ==> camera.resets == old(camera.resets)
      ensures cmd.Moves() && old(camera.homed) ==> camera.homed
      ensures cmd.Moves() && camera.homed ==>
                && Position(pan, tilt) == Target(cmd, value, Position(old(pan), old(tilt)), minRes)
                && Obeys(cmd, value, minRes, Position(old(pan), old(tilt)), Position(pan, tilt), res)
                && old(camera.moves) <= camera.moves && |camera.moves| <= |old(camera.moves)| + 1
      ensures cmd.Moves() && !camera.homed ==>
                res == -1 && !old(camera.homed) && camera.moves == [] && pan == old(pan) && tilt == old(tilt)
      decreases if cmd.RESET_PAN_TILT_NO_MUTEX? then 0 else 1
    {
      hide Obeys, Target, Degrees;
      if !cmd.RESET_PAN_TILT_NO_MUTEX? {
        mutex.Lock();
      }
      if cmd.HELLO? {
        res := 0;
      } else if cmd.RESET_PAN_TILT? || cmd.RESET_PAN_TILT_NO_MUTEX? {
        res := Reset();
      } else if cmd.Moves() {
        res := 0;
        if panTiltValid != 1 {
          res := InputCmd(RESET_PAN_TILT_NO_MUTEX, 0);
        }
        if res != -1 {
          TargetObeys(cmd, value, minRes, Position(pan, tilt));
          res := Move(cmd, value);
        }
      } else {
        res := -1;
      }
      if !cmd.RESET_PAN_TILT_NO_MUTEX? {
        mutex.Unlock();
      }
    }

    /** Any commands one after the other. */
    method RunAll(cmds: seq<(Command, int)>)
      requires Valid() && !mutex.locked
      modifies this, camera, mutex
      ensures !mutex.locked && InRange(Position(pan, tilt)) && Sum(camera.moves) == Position(pan, tilt)
      ensures old(camera.homed) && (forall i :: 0 <= i < |cmds| ==> cmds[i].0.Moves()) ==>
                Position(pan, tilt) == Targets(cmds, Position(old(pan), old(tilt)), minRes)
    {
      hide Sum, Target;
      assert cmds[..0] == [];
      for i := 0 to |cmds|
        invariant Valid() && !mutex.locked
        invariant old(camera.homed) && (forall i :: 0 <= i < |cmds| ==> cmds[i].0.Moves()) ==>
                    && camera.homed
                    && Position(pan, tilt) == Targets(cmds[..i], Position(old(pan), old(tilt)), minRes)
      {
        assert cmds[..i + 1][..i] == cmds[..i];
        var _ := InputCmd(cmds[i].0, cmds[i].1);
      }
      assert cmds[..|cmds|] == cmds;
    }
  }

  // ----- where commands lead -----

  /** Clamp gives the point of the range that is nearest to x. */
  lemma ClampIsNearest(x: int, low: int, high: int)
    requires low <= high
    ensures x > high ==> Clamp(x, low, high) == high
    ensures x < low ==> Clamp(x, low, high) == low
    ensures forall y :: low <= y <= high ==> Distance(x, Clamp(x, low, high)) <= Distance(x, y)
  {}

  function Distance(x: int, y: int): nat { if x < y then y - x else x - y }

  predicate Sets(cmds: seq<(Command, int)>, cmd: Command) {
    exists i :: 0 <= i < |cmds| && cmds[i].0 == cmd
  }

  /** After an absolute command it makes no difference on its axis where the camera was, whatever else is done. */
  lemma {:induction false} AbsoluteForgets(cmds: seq<(Command, int)>, p: Position, q: Position, step: nat)
    ensures Sets(cmds, PAN_SET) || p.pan == q.pan ==> Targets(cmds, p, step).pan == Targets(cmds, q, step).pan
    ensures Sets(cmds, TILT_SET) || p.tilt == q.tilt ==> Targets(cmds, p, step).tilt == Targets(cmds, q, step).tilt
  {
    hide Clamp, Stepped;
    if cmds != [] {
      var n := |cmds| - 1;
      AbsoluteForgets(cmds[..n], p, q, step);
      forall cmd | Sets(cmds, cmd) && cmds[n].0 != cmd ensures Sets(cmds[..n], cmd) {
        var i :| 0 <= i < |cmds| && cmds[i].0 == cmd;
        assert cmds[..n][i].0 == cmd;
      }
    }
  }

  lemma {:induction false} TargetsSplit(a: seq<(Command, int)>, b: seq<(Command, int)>, p: Position, step: int)
    ensures Targets(a + b, p, step) == Targets(b, Targets(a, p, step), step)
  {
    hide Target;
    if b == [] {
      assert a + b == a;
    } else {
      assert (a + b)[..|a + b| - 1] == a + b[..|b| - 1];
      TargetsSplit(a, b[..|b| - 1], p, step);
    }
  }

  function Steps(cmd: Command, n: nat): seq<(Command, int)> {
    seq(n, _ => (cmd, 0))
  }

  /** n steps on one axis. */
  function Repeated(x: int, d: int, n: nat, low: int, high: int): int {
    if n == 0 then x else Stepped(Repeated(x, d, n - 1, low, high), d, low, high)
  }

  lemma {:induction false} StepsOnAxis(n: nat, p: Position, step: nat)
    ensures Targets(Steps(PAN_PLUS, n), p, step) == p.(pan := Repeated(p.pan, step, n, MIN_PAN, MAX_PAN))
    ensures Targets(Steps(PAN_MINUS, n), p, step) == p.(pan := Repeated(p.pan, 0 - step, n, MIN_PAN, MAX_PAN))
    ensures Targets(Steps(TILT_PLUS, n), p, step) == p.(tilt := Repeated(p.tilt, step, n, MIN_TILT, MAX_TILT))
    ensures Targets(Steps(TILT_MINUS, n), p, step) == p.(tilt := Repeated(p.tilt, 0 - step, n, MIN_TILT, MAX_TILT))
  {
    hide Stepped;
    if n > 0 {
      StepsOnAxis(n - 1, p, step);
      forall c ensures Steps(c, n)[..n - 1] == Steps(c, n - 1) && Steps(c, n)[n - 1] == (c, 0) {}
    }
  }

  function Times(k: nat, d: nat): nat { if k == 0 then 0 else Times(k - 1, d) + d }

  lemma {:induction false} TimesGrow(k: nat, n: nat, d: nat)
    requires k < n
    ensures Times(k, d) + d <= Times(n, d)
  {
    if k < n - 1 { TimesGrow(k, n - 1, d); }
  }

  /** Of n steps up, the first k are made, until the next would leave the range. */
  lemma {:induction false} StepsUp(x: int, d: nat, n: nat, low: int, high: int) returns (k: nat)
    requires low <= x <= high
    ensures k <= n && Repeated(x, d, n, low, high) == x + Times(k, d) <= high
    ensures k == n || x + Times(k, d) + d > high
  {
    if n == 0 {
      k := 0;
    } else {
      k := StepsUp(x, d, n - 1, low, high);
      if k == n - 1 && x + Times(k, d) + d <= high { k := n; }
    }
  }

  lemma {:induction false} StepsMirrored(x: int, d: int, n: nat, low: int, high: int)
    ensures Repeated(-x, -d, n, -high, -low) == -Repeated(x, d, n, low, high)
  {
    if n > 0 { StepsMirrored(x, d, n - 1, low, high); }
  }

  lemma UpAndDown(x: int, d: nat, n: nat, low: int, high: int)
    requires low <= x <= high && d > 0 && n > 0
    ensures Repeated(Repeated(x, d, n, low, high), 0 - d, n, low, high) == x
            <==> x + Times(n, d) <= high || x - d < low
  {
    var k := StepsUp(x, d, n, low, high);
    var y := x + Times(k, d);
    StepsMirrored(-y, d, n, -high, -low);
    var m := StepsUp(-y, d, n, -high, -low);
    if k < n { TimesGrow(k, n, d); }
    if m < k { TimesGrow(m, k, d); }
    if k < m { TimesGrow(k, m, d); }
  }

  lemma DownAndUp(x: int, d: nat, n: nat, low: int, high: int)
    requires low <= x <= high && d > 0 && n > 0
    ensures Repeated(Repeated(x, 0 - d, n, low, high), d, n, low, high) == x
            <==> x - Times(n, d) >= low || x + d > high
  {
    UpAndDown(-x, d, n, -high, -low);
    StepsMirrored(-x, d, n, -high, -low);
    StepsMirrored(Repeated(-x, d, n, -high, -low), 0 - d, n, -high, -low);
  }

  /**
    n steps and n opposite steps lead back exactly when all of the first were made, or none of the second could have
    been made from the start.
   */
  lemma StepsBackIff(p: Position, step: nat, n: nat)
    requires InRange(p) && step > 0 && n > 0
    ensures Targets(Steps(PAN_PLUS, n) + Steps(PAN_MINUS, n), p, step) == p
            <==> p.pan + Times(n, step) <= MAX_PAN || p.pan - step < MIN_PAN
    ensures Targets(Steps(PAN_MINUS, n) + Steps(PAN_PLUS, n), p, step) == p
            <==> p.pan - Times(n, step) >= MIN_PAN || p.pan + step > MAX_PAN
    ensures Targets(Steps(TILT_PLUS, n) + Steps(TILT_MINUS, n), p, step) == p
            <==> p.tilt + Times(n, step) <= MAX_TILT || p.tilt - step < MIN_TILT
    ensures Targets(Steps(TILT_MINUS, n) + Steps(TILT_PLUS, n), p, step) == p
            <==> p.tilt - Times(n, step) >= MIN_TILT || p.tilt + step > MAX_TILT
  {
    hide Targets, Steps, Repeated, Times;
    TargetsSplit(Steps(PAN_PLUS, n), Steps(PAN_MINUS, n), p, step);
    TargetsSplit(Steps(PAN_MINUS, n), Steps(PAN_PLUS, n), p, step);
    TargetsSplit(Steps(TILT_PLUS, n), Steps(TILT_MINUS, n), p, step);
    TargetsSplit(Steps(TILT_MINUS, n), Steps(TILT_PLUS, n), p, step);
    StepsOnAxis(n, p, step);
    StepsOnAxis(n, Targets(Steps(PAN_PLUS, n), p, step), step);
    StepsOnAxis(n, Targets(Steps(PAN_MINUS, n), p, step), step);
    StepsOnAxis(n, Targets(Steps(TILT_PLUS, n), p, step), step);
    StepsOnAxis(n, Targets(Steps(TILT_MINUS, n), p, step), step);
    UpAndDown(p.pan, step, n, MIN_PAN, MAX_PAN);
    DownAndUp(p.pan, step, n, MIN_PAN, MAX_PAN);
    UpAndDown(p.tilt, step, n, MIN_TILT, MAX_TILT);
    DownAndUp(p.tilt, step, n, MIN_TILT, MAX_TILT);
  }
}
