/**
 The command path of one bus: `BusRuntime::apply_command` with its linear interpolation, and the
 safety actions that reset it. Times are nanoseconds of the tick clock, doubles are reals.
 */
module Interpolation {

  const MAX_JOINTS_PER_BUS: nat := 16
  const MAX_JOINTS: nat := 128
  const SEGMENT_MIN: nat := 500000
  const SEGMENT_MAX: nat := 200000000
  const WRAP64: nat := 0x1_0000_0000_0000_0000

  datatype CmdMode = Mit | Csp | Csv | Cst | Current

  datatype JointTarget = JointTarget(
    mode: CmdMode, position: real, velocity: real, kp: real, kd: real, stiffness: real, damping: real,
    torque: real, current: real, velocityLimit: real, torqueLimit: real, siGain: bool)

  /** Calls into the SDK for one joint. */
  datatype SdkCall =
    | SetPosition(rad: real)
    | SetVelocity(radPerS: real)
    | SetTorque(nm: real)
    | SetCurrent(amp: real)
    | SetLimits(velocityLimit: real, torqueLimit: real)
    | SetMit(pos: real, vel: real, kp: real, kd: real, tau: real)
    | SetMitStiffness(pos: real, vel: real, stiffness: real, damping: real, tau: real)
    | HoldPosition
    | HoldPositionPd(stiffness: real, damping: real)

  /** The per-joint state: element j of the arrays joint_mode_, cmd_rejected_, interp_*, applied_,
      last_target_, has_target_, and the calls made so far. */
  datatype Joint = Joint(
    mode: CmdMode, rejected: nat,
    from: JointTarget, to: JointTarget, t0: nat, dt: nat, lastCmd: nat, seqNo: nat, active: bool, have: bool,
    applied: JointTarget, last: JointTarget, hasTarget: bool,
    sent: seq<SdkCall>)

  /** A command set; `target` holds the joints whose mask bit is set. */
  datatype CommandSet = CommandSet(seqNo: nat, estop: bool, zeroTorqueAll: bool, target: map<nat, JointTarget>)

  // ---------------------------------------------------------------- one joint

  /** Unsigned 64-bit subtraction. */
  function Sub64(a: nat, b: nat): nat {
    (a - b) % WRAP64
  }

  function Mix(a: real, b: real, f: real): real {
    a + (b - a) * f
  }

  /** lerp_motion() */
  function Lerp(from: JointTarget, to: JointTarget, f: real): JointTarget {
    match to.mode
    case Mit => to.(position := Mix(from.position, to.position, f),
                    velocity := Mix(from.velocity, to.velocity, f),
                    torque := Mix(from.torque, to.torque, f))
    case Csp => to.(position := Mix(from.position, to.position, f))
    case Csv => to.(velocity := Mix(from.velocity, to.velocity, f))
    case Cst => to.(torque := Mix(from.torque, to.torque, f))
    case Current => to.(current := Mix(from.current, to.current, f))
  }

  function Clamp(dt: nat): (r: nat)
    ensures dt < 500000 ==> r == 500000
    ensures 500000 <= dt <= 200000000 ==> r == dt
    ensures dt > 200000000 ==> r == 200000000
  {
    if dt < SEGMENT_MIN then SEGMENT_MIN else if dt > SEGMENT_MAX then SEGMENT_MAX else dt
  }

  /** A command with a new sequence number arrives. */
  function Receive(s: Joint, t: JointTarget, seqNo: nat, now: nat): Joint {
    if s.have then
      s.(seqNo := seqNo, from := s.to, to := t, dt := Clamp(Sub64(now, s.lastCmd)), t0 := now,
         active := true, lastCmd := now)
    else
      s.(seqNo := seqNo, to := t, active := false, have := true, lastCmd := now)
  }

  function Fraction(s: Joint, now: nat): real {
    if s.dt == 0 then 1.0 else Sub64(now, s.t0) as real / s.dt as real
  }

  function SdkCalls(eff: JointTarget, t: JointTarget): seq<SdkCall> {
    var limits :=
      if eff.velocityLimit > 0.0 || eff.torqueLimit > 0.0 then [SetLimits(eff.velocityLimit, eff.torqueLimit)] else [];
    match eff.mode
    case Csp => [SetPosition(eff.position)] + limits
    case Csv => [SetVelocity(eff.velocity)] + limits
    case Cst => [SetTorque(eff.torque)]
    case Current => [SetCurrent(eff.current)] + (if t.torqueLimit > 0.0 then [SetLimits(0.0, t.torqueLimit)] else [])
    case Mit =>
      if t.siGain then [SetMitStiffness(t.position, t.velocity, t.stiffness, t.damping, t.torque)]
      else [SetMit(t.position, t.velocity, t.kp, t.kd, t.torque)]
  }

  /** The body of the loop of apply_command() for a masked joint. */
  function ApplyJoint(s: Joint, t: JointTarget, seqNo: nat, now: nat, linear: bool): Joint {
    if t.mode != s.mode then
      s.(rejected := s.rejected + 1)
    else
      var s1 := if linear && s.seqNo != seqNo then Receive(s, t, seqNo, now) else s;
      var f := Fraction(s1, now);
      var moving := linear && s1.active;
      var eff := if moving then Lerp(s1.from, s1.to, if f > 1.0 then 1.0 else f) else t;
      s1.(active := s1.active && !(moving && f >= 1.0),
          applied := eff, last := t, hasTarget := true, sent := s1.sent + SdkCalls(eff, t))
  }

  function Forget(s: Joint): Joint {
    s.(active := false, have := false)
  }

  function Reset(s: Joint): Joint {
    s.(active := false, have := false, seqNo := 0, dt := 0, t0 := 0, lastCmd := 0)
  }

  /** Whatever accepted command comes next, new or retained, is recorded as it is. */
  ghost predicate AtOnce(s: Joint) {
    forall t: JointTarget, seqNo: nat, now: nat, linear: bool :: t.mode == s.mode ==>
      ApplyJoint(s, t, seqNo, now, linear).applied == t
  }

  /** A joint without history and without a running ramp is in that state. */
  lemma NoHistoryIsAtOnce(s: Joint)
    ensures !s.have && !s.active ==> AtOnce(s)
  {}

  // ---------------------------------------------------------------- the class

  class BusRuntime {
    const jointCount: nat
    const joints: array<Joint>
    var open: bool     // ctx_ != nullptr
    var linear: bool   // interp_mode_
    var tickNow: nat
    var estops: nat    // jsdk_context_estop() calls
    var enteredEstop: bool

    ghost predicate Valid()
      reads this
    {
      joints.Length == MAX_JOINTS_PER_BUS && jointCount <= MAX_JOINTS_PER_BUS
    }

    constructor (count: nat, initial: Joint)
      requires count <= MAX_JOINTS_PER_BUS
      ensures Valid() && fresh(joints) && jointCount == count && !open && !linear
      ensures forall j :: 0 <= j < MAX_JOINTS_PER_BUS ==> joints[j] == Reset(initial)
    {
      jointCount := count;
      joints := new Joint[MAX_JOINTS_PER_BUS](_ => Reset(initial));
      open, linear, tickNow, estops, enteredEstop := false, false, 0, 0, false;
    }

    method TickBegin(now: nat)
      modifies this`tickNow
      ensures tickNow == if open then now else old(tickNow)
    {
      if !open { return; }
      tickNow := now;
    }

    method SetInterpolation(on: bool)
      requires Valid()
      modifies this`linear, joints
      ensures linear == on
      ensures forall j :: 0 <= j < MAX_JOINTS_PER_BUS ==>
                joints[j] == old(joints[j]).(active := false, have := false, seqNo := 0, dt := 0, t0 := 0, lastCmd := 0)
      ensures forall j :: 0 <= j < MAX_JOINTS_PER_BUS ==> !joints[j].have && !joints[j].active && AtOnce(joints[j])
    {
      hide AtOnce;
      linear := on;
      for j := 0 to MAX_JOINTS_PER_BUS
        modifies joints
        invariant forall k :: 0 <= k < j ==> joints[k] == Reset(old(joints[k]))
        invariant forall k :: j <= k < MAX_JOINTS_PER_BUS ==> joints[k] == old(joints[k])
      {
        joints[j] := Reset(joints[j]);
      }
      forall j | 0 <= j < MAX_JOINTS_PER_BUS
        ensures AtOnce(joints[j])
      {
        NoHistoryIsAtOnce(joints[j]);
      }
    }

    method EstopNow()
      requires Valid()
      modifies this`estops, this`enteredEstop, joints
      ensures estops == old(estops) + (if open then 1 else 0)
      ensures enteredEstop == (old(enteredEstop) || open)
      ensures forall j :: 0 <= j < MAX_JOINTS_PER_BUS ==>
                joints[j] == old(joints[j]).(active := false, have := false)
      ensures forall j :: 0 <= j < MAX_JOINTS_PER_BUS ==> !joints[j].have && !joints[j].active && AtOnce(joints[j])
    {
      hide AtOnce;
      if open {
        estops := estops + 1;
        enteredEstop := true;
      }
      for j := 0 to MAX_JOINTS_PER_BUS
        modifies joints
        invariant forall k :: 0 <= k < j ==> joints[k] == Forget(old(joints[k]))
        invariant forall k :: j <= k < MAX_JOINTS_PER_BUS ==> joints[k] == old(joints[k])
      {
        joints[j] := Forget(joints[j]);
      }
      forall j | 0 <= j < MAX_JOINTS_PER_BUS
        ensures AtOnce(joints[j])
      {
        NoHistoryIsAtOnce(joints[j]);
      }
    }

    method HoldAll(stiffness: real, damping: real)
      requires Valid()
      modifies joints
      ensures forall j :: 0 <= j < MAX_JOINTS_PER_BUS ==>
                var was := old(joints[j]);
                var pd := was.mode == Mit && (stiffness > 0.0 || damping > 0.0);
                var call := if pd then HoldPositionPd(stiffness, damping) else HoldPosition;
                joints[j] == if !open then was
                             else if j < jointCount then Forget(was).(sent := was.sent + [call])
                             else Forget(was)
      ensures open ==> forall j :: 0 <= j < MAX_JOINTS_PER_BUS ==>
                !joints[j].have && !joints[j].active && AtOnce(joints[j])
    {
      hide AtOnce;
      if !open { return; }
      for j := 0 to MAX_JOINTS_PER_BUS
        modifies joints
        invariant forall k :: 0 <= k < j ==> joints[k] == Forget(old(joints[k]))
        invariant forall k :: j <= k < MAX_JOINTS_PER_BUS ==> joints[k] == old(joints[k])
      {
        joints[j] := Forget(joints[j]);
      }
      for j := 0 to jointCount
        modifies joints
        invariant forall k :: 0 <= k < MAX_JOINTS_PER_BUS ==>
                    var was := old(joints[k]);
                    var pd := was.mode == Mit && (stiffness > 0.0 || damping > 0.0);
                    var call := if pd then HoldPositionPd(stiffness, damping) else HoldPosition;
                    joints[k] == if k < j then Forget(was).(sent := was.sent + [call]) else Forget(was)
      {
        var s := joints[j];
        if s.mode != Mit || !(stiffness > 0.0 || damping > 0.0) {
          joints[j] := s.(sent := s.sent + [HoldPosition]);
        } else {
          joints[j] := s.(sent := s.sent + [HoldPositionPd(stiffness, damping)]);
        }
      }
      forall j | 0 <= j < MAX_JOINTS_PER_BUS
        ensures AtOnce(joints[j])
      {
        NoHistoryIsAtOnce(joints[j]);
      }
    }

    method ZeroTorqueAll()
      requires Valid()
      modifies joints
      ensures forall j :: 0 <= j < MAX_JOINTS_PER_BUS ==>
                var was := old(joints[j]);
                joints[j] == if !open then was
                             else if j < jointCount then Forget(was).(sent := was.sent + [HoldPosition])
                             else Forget(was)
      ensures open ==> forall j :: 0 <= j < MAX_JOINTS_PER_BUS ==>
                !joints[j].have && !joints[j].active && AtOnce(joints[j])
    {
      hide AtOnce;
      if !open { return; }
      for j := 0 to jointCount
        modifies joints
        invariant forall k :: 0 <= k < MAX_JOINTS_PER_BUS ==>
                    var was := old(joints[k]);
                    joints[k] == if k < j then was.(sent := was.sent + [HoldPosition]) else was
      {
        joints[j] := joints[j].(sent := joints[j].sent + [HoldPosition]);
      }
      for j := 0 to MAX_JOINTS_PER_BUS
        modifies joints
        invariant forall k :: 0 <= k < MAX_JOINTS_PER_BUS ==>
                    var was := old(joints[k]);
                    var called := if k < jointCount then was.(sent := was.sent + [HoldPosition]) else was;
                    joints[k] == if k < j then Forget(called) else called
      {
        joints[j] := Forget(joints[j]);
      }
      forall j | 0 <= j < MAX_JOINTS_PER_BUS
        ensures AtOnce(joints[j])
      {
        NoHistoryIsAtOnce(joints[j]);
      }
    }

    /** Joint j takes part when the bus has it, its global index exists and its mask bit is set. */
    predicate Takes(cmd: CommandSet, base: nat, j: nat)
    {
      j < jointCount && base + j < MAX_JOINTS && base + j in cmd.target
    }

    /** The switch over the mode. */
    method SendTarget(eff: JointTarget, t: JointTarget) returns (calls: seq<SdkCall>)
      ensures calls == SdkCalls(eff, t)
    {
      match eff.mode {
        case Csp =>
          calls := [SetPosition(eff.position)];
          if eff.velocityLimit > 0.0 || eff.torqueLimit > 0.0 {
            calls := calls + [SetLimits(eff.velocityLimit, eff.torqueLimit)];
          }
        case Csv =>
          calls := [SetVelocity(eff.velocity)];
          if eff.velocityLimit > 0.0 || eff.torqueLimit > 0.0 {
            calls := calls + [SetLimits(eff.velocityLimit, eff.torqueLimit)];
          }
        case Cst =>
          calls := [SetTorque(eff.torque)];
        case Current =>
          calls := [SetCurrent(eff.current)];
          if t.torqueLimit > 0.0 { calls := calls + [SetLimits(0.0, t.torqueLimit)]; }
        case Mit =>
          if t.siGain {
            calls := [SetMitStiffness(t.position, t.velocity, t.stiffness, t.damping, t.torque)];
          } else {
            calls := [SetMit(t.position, t.velocity, t.kp, t.kd, t.torque)];
          }
      }
    }

    /** One masked joint, in the order of the code: mode check, new command, progress, SDK calls. */
    method ApplyOne(j: nat, t: JointTarget, seqNo: nat)
      requires Valid() && j < MAX_JOINTS_PER_BUS
      modifies joints
      ensures joints[j] == ApplyJoint(old(joints[j]), t, seqNo, tickNow, linear)
      ensures forall k :: 0 <= k < MAX_JOINTS_PER_BUS && k != j ==> joints[k] == old(joints[k])
    {
      hide Lerp, SdkCalls, Sub64;
      var s := joints[j];
      if t.mode != s.mode {
        joints[j] := s.(rejected := s.rejected + 1);
        return;
      }
      var eff := t;
      if linear {
        if s.seqNo != seqNo {
          s := s.(seqNo := seqNo);
          if s.have {
            s := s.(from := s.to, to := t);
            var dt := Sub64(tickNow, s.lastCmd);
            s := s.(dt := if dt < SEGMENT_MIN then SEGMENT_MIN else if dt > SEGMENT_MAX then SEGMENT_MAX else dt,
                    t0 := tickNow, active := true);
          } else {
            s := s.(to := t, active := false, have := true);
          }
          s := s.(lastCmd := tickNow);
        }
        if s.active {
          var f := if s.dt == 0 then 1.0 else Sub64(tickNow, s.t0) as real / s.dt as real;
          eff := Lerp(s.from, s.to, if f > 1.0 then 1.0 else f);
          if f >= 1.0 { s := s.(active := false); }
        }
      }
      var calls := SendTarget(eff, t);
      joints[j] := s.(applied := eff, sent := s.sent + calls, last := t, hasTarget := true);
    }

    /** Every masked joint makes exactly the step `ApplyJoint`; nothing else changes, unless the
        command is an emergency stop or a release of all torque. */
    method ApplyCommand(cmd: CommandSet, base: nat)
      requires Valid()
      modifies this`estops, this`enteredEstop, joints
      ensures !open ==> forall j :: 0 <= j < MAX_JOINTS_PER_BUS ==> joints[j] == old(joints[j])
      ensures open && (cmd.estop || cmd.zeroTorqueAll) ==>
                forall j :: 0 <= j < MAX_JOINTS_PER_BUS ==> AtOnce(joints[j])
      ensures open && cmd.estop ==>
                && estops == old(estops) + 1 && enteredEstop
                && forall j :: 0 <= j < MAX_JOINTS_PER_BUS ==> joints[j] == Forget(old(joints[j]))
      ensures open && !cmd.estop && cmd.zeroTorqueAll ==>
                forall j :: 0 <= j < MAX_JOINTS_PER_BUS ==>
                  var was := old(joints[j]);
                  joints[j] == if j < jointCount then Forget(was).(sent := was.sent + [HoldPosition]) else Forget(was)
      ensures open && !cmd.estop && !cmd.zeroTorqueAll ==>
                forall j :: 0 <= j < MAX_JOINTS_PER_BUS ==>
                  joints[j] == if Takes(cmd, base, j)
                               then ApplyJoint(old(joints[j]), cmd.target[base + j], cmd.seqNo, tickNow, linear)
                               else old(joints[j])
      ensures !(open && cmd.estop) ==> estops == old(estops) && enteredEstop == old(enteredEstop)
    {
      hide AtOnce;
      if !open { return; }
      if cmd.estop {
        EstopNow();
        return;
      }
      if cmd.zeroTorqueAll {
        ZeroTorqueAll();
        return;
      }
      var j := 0;
      while j < jointCount && base + j < MAX_JOINTS
        modifies joints
        invariant j <= jointCount
        invariant forall k :: 0 <= k < MAX_JOINTS_PER_BUS ==>
                    joints[k] == if k < j && Takes(cmd, base, k)
                                 then ApplyJoint(old(joints[k]), cmd.target[base + k], cmd.seqNo, tickNow, linear)
                                 else old(joints[k])
      {
        var g := base + j;
        if g in cmd.target {
          ApplyOne(j, cmd.target[g], cmd.seqNo);
        }
        j := j + 1;
      }
    }

    /** The bus's part of one tick, in the order of run_cycle(): the tick clock first, then the
        command; so an open bus moves every masked joint to where its ramp is at `now`. */
    method CommandTick(now: nat, cmd: CommandSet, base: nat)
      requires Valid() && !cmd.estop && !cmd.zeroTorqueAll
      modifies this`tickNow, this`estops, this`enteredEstop, joints
      ensures forall j :: 0 <= j < MAX_JOINTS_PER_BUS ==>
                joints[j] == if open && Takes(cmd, base, j)
                             then ApplyJoint(old(joints[j]), cmd.target[base + j], cmd.seqNo, now, linear)
                             else old(joints[j])
    {
      TickBegin(now);
      ApplyCommand(cmd, base);
    }
  }

  // ---------------------------------------------------------------- what is blended

  datatype Quantity = Position | Velocity | Torque | MotorCurrent

  /** The motion quantities that a mode carries; only these are interpolated. */
  predicate Moves(mode: CmdMode, q: Quantity) {
    match mode
    case Mit => q != MotorCurrent
    case Csp => q == Position
    case Csv => q == Velocity
    case Cst => q == Torque
    case Current => q == MotorCurrent
  }

  function Value(t: JointTarget, q: Quantity): real {
    match q
    case Position => t.position
    case Velocity => t.velocity
    case Torque => t.torque
    case MotorCurrent => t.current
  }

  function WithMotion(t: JointTarget, position: real, velocity: real, torque: real, current: real): JointTarget {
    t.(position := position, velocity := velocity, torque := torque, current := current)
  }

  /** x equals t but for the motion quantities of t's mode. */
  predicate SameButMotion(x: JointTarget, t: JointTarget) {
    && x == WithMotion(t, x.position, x.velocity, x.torque, x.current)
    && forall q: Quantity :: !Moves(t.mode, q) ==> Value(x, q) == Value(t, q)
  }

  lemma LerpBlendsMotionOnly(from: JointTarget, to: JointTarget, f: real)
    ensures SameButMotion(Lerp(from, to, f), to)
    ensures forall q: Quantity :: Moves(to.mode, q) ==>
              Value(Lerp(from, to, f), q) == Mix(Value(from, q), Value(to, q), f)
  {}

  lemma LerpEnds(from: JointTarget, to: JointTarget)
    ensures Lerp(from, to, 1.0) == to
  {}

  /** How far along a segment that began at t0 is at time now. */
  function Progress(now: nat, t0: nat, dt: nat): real
    requires t0 <= now && dt > 0
  {
    if now - t0 >= dt then 1.0 else (now - t0) as real / dt as real
  }

  /** The point of the ramp from `from` to `to`, begun at t0 and dt long. */
  function Ramp(from: JointTarget, to: JointTarget, t0: nat, dt: nat, now: nat): JointTarget
    requires t0 <= now && dt > 0
  {
    Lerp(from, to, Progress(now, t0, dt))
  }

  /** v lies between a and b. */
  predicate Between(v: real, a: real, b: real) {
    a <= v <= b || b <= v <= a
  }

  lemma ScaleUp(d: real, x: real, y: real)
    requires d >= 0.0 && x <= y
    ensures d * x <= d * y
  {}
  lemma ScaleDown(d: real, x: real, y: real)
    requires d <= 0.0 && x <= y
    ensures d * y <= d * x
  {
    assert d * x - d * y == (-d) * (y - x);
  }

  lemma Product(d: real, f: real, g: real) returns (u: real, v: real)
    requires 0.0 <= f <= g <= 1.0
    ensures u == d * f && v == d * g
    ensures if d >= 0.0 then 0.0 <= u <= v <= d else d <= v <= u <= 0.0
  {
    u, v := d * f, d * g;
    if d >= 0.0 {
      ScaleUp(d, f, g);
      ScaleUp(d, g, 1.0);
      ScaleUp(f, 0.0, d);
      assert f * d == u;
    } else {
      ScaleDown(d, f, g);
      ScaleDown(d, g, 1.0);
      ScaleUp(f, d, 0.0);
      assert f * d == u;
    }
  }

  lemma MixBetween(a: real, b: real, f: real, g: real)
    requires 0.0 <= f <= g <= 1.0
    ensures Between(Mix(a, b, f), a, b) && Between(Mix(a, b, g), Mix(a, b, f), b)
  {
    var d := b - a;
    var u, v := Product(d, f, g);
    var x, y := Mix(a, b, f), Mix(a, b, g);
    assert x == a + u;
    assert y == a + v;
    assert b == a + d;
  }
  lemma QuotientGrows(x: real, y: real, d: real)
    requires 0.0 <= x <= y <= d && d > 0.0
    ensures 0.0 <= x / d <= y / d <= 1.0
  {}

  lemma QuotientVsOne(e: real, d: real)
    requires d > 0.0
    ensures e / d >= 1.0 <==> e >= d
  {}

  lemma ProgressGrows(t0: nat, dt: nat, a: nat, b: nat)
    requires t0 <= a <= b && dt > 0
    ensures 0.0 <= Progress(a, t0, dt) <= Progress(b, t0, dt) <= 1.0
  {
    var d := dt as real;
    if b - t0 < dt {
      QuotientGrows((a - t0) as real, (b - t0) as real, d);
    } else if a - t0 < dt {
      QuotientGrows((a - t0) as real, d, d);
    }
  }

  // ---------------------------------------------------------------- one segment

  /** One tick at which the retained command masks the joint. */
  datatype Tick = Tick(now: nat, seqNo: nat, target: JointTarget)

  function RunTicks(s: Joint, ticks: seq<Tick>): Joint
    decreases |ticks|
  {
    if ticks == [] then s
    else RunTicks(ApplyJoint(s, ticks[0].target, ticks[0].seqNo, ticks[0].now, true), ticks[1..])
  }

  /** The joint is on, or at the end of, the ramp to t that command seqNo started. */
  predicate OnRamp(s: Joint, from: JointTarget, t: JointTarget, seqNo: nat, t0: nat, dt: nat, now: nat) {
    && t0 <= now < WRAP64 && dt > 0
    && s.have && s.mode == t.mode && s.to == t && s.seqNo == seqNo && s.lastCmd == t0
    && (s.active ==> s.from == from && s.t0 == t0 && s.dt == dt && now - t0 < dt)
    && (!s.active ==> now - t0 >= dt)
    && s.applied == Ramp(from, t, t0, dt, now)
  }

  /** A new command on a joint with history starts a ramp from the previous target, as long as
      the time since the previous command, within [0.5 ms, 200 ms]. */
  lemma NewCommandStartsRamp(s: Joint, t: JointTarget, seqNo: nat, now: nat)
    requires s.have && s.mode == t.mode && s.seqNo != seqNo && s.lastCmd <= now < WRAP64
    ensures OnRamp(ApplyJoint(s, t, seqNo, now, true), s.to, t, seqNo, now, Clamp(now - s.lastCmd), now)
  {
    assert Sub64(now, s.lastCmd) == now - s.lastCmd;
    assert Sub64(now, now) == 0;
    assert 0 as real / Clamp(now - s.lastCmd) as real == 0.0;
  }

  lemma RetainedCommandFollowsRamp(s: Joint, from: JointTarget, t: JointTarget, seqNo: nat, t0: nat, dt: nat,
        now: nat, next: nat)
    requires OnRamp(s, from, t, seqNo, t0, dt, now) && now <= next < WRAP64
    ensures OnRamp(ApplyJoint(s, t, seqNo, next, true), from, t, seqNo, t0, dt, next)
  {
    LerpEnds(from, t);
    assert Sub64(next, t0) == next - t0;
    var e, d := (next - t0) as real, dt as real;
    QuotientVsOne(e, d);
  }

  /** Ticks of one retained command, in time order from `now` on. */
  predicate Retained(ticks: seq<Tick>, t: JointTarget, seqNo: nat, now: nat)
    decreases |ticks|
  {
    ticks == [] ||
    (&& ticks[0].target == t && ticks[0].seqNo == seqNo && now <= ticks[0].now < WRAP64
     && Retained(ticks[1..], t, seqNo, ticks[0].now))
  }

  function LastTime(ticks: seq<Tick>, now: nat): nat {
    if ticks == [] then now else ticks[|ticks| - 1].now
  }

  lemma {:induction false} RampInvariant(s: Joint, from: JointTarget, t: JointTarget, seqNo: nat, t0: nat, dt: nat,
        now: nat, ticks: seq<Tick>)
    requires OnRamp(s, from, t, seqNo, t0, dt, now) && Retained(ticks, t, seqNo, now)
    ensures OnRamp(RunTicks(s, ticks), from, t, seqNo, t0, dt, LastTime(ticks, now))
    decreases |ticks|
  {
    hide OnRamp, ApplyJoint;
    if ticks != [] {
      RetainedCommandFollowsRamp(s, from, t, seqNo, t0, dt, now, ticks[0].now);
      RampInvariant(ApplyJoint(s, t, seqNo, ticks[0].now, true), from, t, seqNo, t0, dt, ticks[0].now, ticks[1..]);
      assert LastTime(ticks, now) == LastTime(ticks[1..], ticks[0].now);
    }
  }

  /** The whole life of a command that stays masked and retained: at every tick the joint is given
      the point of one straight ramp from the previous target, which ends within 200 ms; from the
      first tick at or after its end on, the joint is given the target itself. */
  lemma CommandRampsAndArrives(s: Joint, t: JointTarget, seqNo: nat, t0: nat, ticks: seq<Tick>)
    requires s.have && s.mode == t.mode && s.seqNo != seqNo && s.lastCmd <= t0 < WRAP64
    requires Retained(ticks, t, seqNo, t0)
    ensures var dt := Clamp(t0 - s.lastCmd);
            var now := LastTime(ticks, t0);
            var u := RunTicks(s, [Tick(t0, seqNo, t)] + ticks);
            && 500000 <= dt <= 200000000 && t0 <= now
            && u.applied == Ramp(s.to, t, t0, dt, now)
            && (now - t0 >= dt ==> u.applied == t)
  {
    var dt := Clamp(t0 - s.lastCmd);
    NewCommandStartsRamp(s, t, seqNo, t0);
    var u := ApplyJoint(s, t, seqNo, t0, true);
    RampInvariant(u, s.to, t, seqNo, t0, dt, t0, ticks);
    assert ([Tick(t0, seqNo, t)] + ticks)[1..] == ticks;
    LerpEnds(s.to, t);
  }

  /** Along a ramp every motion quantity stays between its two ends and only moves towards the
      target; everything else is the target's at once. */
  lemma RampIsMonotone(from: JointTarget, t: JointTarget, t0: nat, dt: nat, a: nat, b: nat)
    requires t0 <= a <= b && dt > 0
    ensures SameButMotion(Ramp(from, t, t0, dt, a), t)
    ensures forall q: Quantity :: Moves(t.mode, q) ==>
              && Between(Value(Ramp(from, t, t0, dt, a), q), Value(from, q), Value(t, q))
              && Between(Value(Ramp(from, t, t0, dt, b), q), Value(Ramp(from, t, t0, dt, a), q), Value(t, q))
  {
    hide Lerp, Between, Mix, SameButMotion;
    var f, g := Progress(a, t0, dt), Progress(b, t0, dt);
    ProgressGrows(t0, dt, a, b);
    LerpBlendsMotionOnly(from, t, f);
    LerpBlendsMotionOnly(from, t, g);
    forall q: Quantity | Moves(t.mode, q)
      ensures Between(Value(Ramp(from, t, t0, dt, a), q), Value(from, q), Value(t, q))
           && Between(Value(Ramp(from, t, t0, dt, b), q), Value(Ramp(from, t, t0, dt, a), q), Value(t, q))
    {
      MixBetween(Value(from, q), Value(t, q), f, g);
    }
  }

  // ---------------------------------------------------------------- resets and refusals

  /** After set_interpolation, estop_now, hold_all or zero_torque_all (each leaves `have` and
      `active` false) the next accepted command takes effect at once, new or retained. A new one
      starts the history that the one after it ramps from. */
  lemma FirstCommandAppliesAtOnce(s: Joint, t: JointTarget, seqNo: nat, now: nat, linear: bool)
    requires s.mode == t.mode && !s.have && (!s.active || s.seqNo != seqNo)
    ensures var u := ApplyJoint(s, t, seqNo, now, linear);
            && u.applied == t
            && (s.seqNo == seqNo ==> !u.have)
            && (linear && s.seqNo != seqNo ==>
                  u.have && !u.active && u.to == t && u.lastCmd == now && u.seqNo == seqNo)
            && (!linear ==> u == s.(applied := t, last := t, hasTarget := true, sent := u.sent))
  {}

  /** A command for another mode changes the refusal counter and nothing else. */
  lemma WrongModeOnlyCounts(s: Joint, t: JointTarget, seqNo: nat, now: nat, linear: bool)
    ensures s.mode != t.mode <==>
              ApplyJoint(s, t, seqNo, now, linear) == s.(rejected := s.rejected + 1)
  {
    if s.mode == t.mode {
      assert |SdkCalls(t, t)| > 0;
      assert ApplyJoint(s, t, seqNo, now, linear).rejected == s.rejected;
    }
  }

  /** A command that arrives while an earlier one is still on its ramp restarts from that one's
      target, so compared with what the earlier command would have recorded at this tick the value
      jumps, unless the ramp has run out or is flat. */
  lemma JumpsIffEarly(s: Joint, from: JointTarget, t: JointTarget, seqNo: nat, t0: nat, dt: nat, a: nat,
        next: JointTarget, nextSeq: nat, now: nat, q: Quantity)
    requires OnRamp(s, from, t, seqNo, t0, dt, a) && a <= now < WRAP64
    requires next.mode == t.mode && nextSeq != seqNo && Moves(t.mode, q)
    ensures var moved := Value(ApplyJoint(s, next, nextSeq, now, true).applied, q);
            var kept := Value(ApplyJoint(s, t, seqNo, now, true).applied, q);
            moved == kept <==> now - t0 >= dt || Value(from, q) == Value(t, q)
  {
    hide Lerp, ApplyJoint, Ramp, Value, Moves;
    NewCommandStartsRamp(s, next, nextSeq, now);
    RampStart(t, next, now, Clamp(now - s.lastCmd), q);
    RetainedCommandFollowsRamp(s, from, t, seqNo, t0, dt, a, now);
    RampReaches(from, t, t0, dt, now, q);
  }

  /** Along a ramp a quantity is at the target exactly from the end of the ramp on, unless it is flat. */
  lemma RampReaches(from: JointTarget, t: JointTarget, t0: nat, dt: nat, now: nat, q: Quantity)
    requires t0 <= now && dt > 0 && Moves(t.mode, q)
    ensures Value(Ramp(from, t, t0, dt, now), q) == Value(t, q) <==>
              now - t0 >= dt || Value(from, q) == Value(t, q)
  {
    hide Lerp;
    var f := Progress(now, t0, dt);
    LerpBlendsMotionOnly(from, t, f);
    var a, b := Value(from, q), Value(t, q);
    if now - t0 < dt {
      QuotientVsOne((now - t0) as real, dt as real);
      MixReaches(a, b, f);
    }
  }

  lemma MixReaches(a: real, b: real, f: real)
    requires f < 1.0
    ensures Mix(a, b, f) == b <==> a == b
  {
    var d, g := b - a, 1.0 - f;
    assert b - Mix(a, b, f) == d * g;
    if d != 0.0 {
      assert d * g != 0.0;
    }
  }

  // ---------------------------------------------------------------- what the device is sent

  /** Every accepted step sends the recorded value by the call of its mode, in MIT mode the raw
      target by the call that its gains choose; limits follow where they are set, in torque mode and
      in MIT mode never. Mode and limits of the recorded value are the command's, as long as a
      command that is retained on a running ramp is the one that the ramp goes to. */
  lemma AcceptedStepSends(s: Joint, t: JointTarget, seqNo: nat, now: nat, linear: bool)
    requires s.mode == t.mode
    ensures var u := ApplyJoint(s, t, seqNo, now, linear);
            var v := u.applied;
            var limits := if v.velocityLimit > 0.0 || v.torqueLimit > 0.0
                          then [SetLimits(v.velocityLimit, v.torqueLimit)] else [];
            && (v.mode == Csp ==> u.sent == s.sent + ([SetPosition(v.position)] + limits))
            && (v.mode == Csv ==> u.sent == s.sent + ([SetVelocity(v.velocity)] + limits))
            && (v.mode == Cst ==> u.sent == s.sent + [SetTorque(v.torque)])
            && (v.mode == Current && t.torqueLimit > 0.0 ==>
                  u.sent == s.sent + [SetCurrent(v.current), SetLimits(0.0, t.torqueLimit)])
            && (v.mode == Current && t.torqueLimit <= 0.0 ==> u.sent == s.sent + [SetCurrent(v.current)])
            && (v.mode == Mit && t.siGain ==>
                  u.sent == s.sent + [SetMitStiffness(t.position, t.velocity, t.stiffness, t.damping, t.torque)])
            && (v.mode == Mit && !t.siGain ==>
                  u.sent == s.sent + [SetMit(t.position, t.velocity, t.kp, t.kd, t.torque)])
            && u.last == t && u.hasTarget && u.rejected == s.rejected && u.mode == s.mode
            && ((linear && s.active && s.seqNo == seqNo ==> s.to == t) ==>
                  v.mode == t.mode && v.velocityLimit == t.velocityLimit && v.torqueLimit == t.torqueLimit)
  {}

  lemma SdkCallsMatchUnlessMit(eff: JointTarget, t: JointTarget)
    requires SameButMotion(eff, t)
    ensures SdkCalls(eff, t) == SdkCalls(eff, eff) <==>
              t.mode != Mit || (eff.position == t.position && eff.velocity == t.velocity && eff.torque == t.torque)
  {
    if t.mode == Mit {
      assert SdkCalls(eff, t)[0] == SdkCalls(eff, eff)[0] <==> SdkCalls(eff, t) == SdkCalls(eff, eff);
    }
  }

  /** A position, velocity and torque that both ends share. */
  predicate SameMotion(from: JointTarget, t: JointTarget) {
    from.position == t.position && from.velocity == t.velocity && from.torque == t.torque
  }

  /** A ramp that has run out, or that has nothing to blend, is at its target. */
  lemma MitRampReaches(from: JointTarget, t: JointTarget, t0: nat, dt: nat, now: nat)
    requires t0 <= now && dt > 0 && t.mode == Mit
    ensures SameMotion(Ramp(from, t, t0, dt, now), t) <==> now - t0 >= dt || SameMotion(from, t)
  {
    hide Ramp;
    RampReaches(from, t, t0, dt, now, Position);
    RampReaches(from, t, t0, dt, now, Velocity);
    RampReaches(from, t, t0, dt, now, Torque);
  }

  lemma SentOnRamp(s: Joint, from: JointTarget, t: JointTarget, seqNo: nat, t0: nat, dt: nat, now: nat)
    requires OnRamp(ApplyJoint(s, t, seqNo, now, true), from, t, seqNo, t0, dt, now) && s.mode == t.mode
    ensures var u := ApplyJoint(s, t, seqNo, now, true);
            u.sent == s.sent + SdkCalls(u.applied, u.applied) <==>
              t.mode != Mit || now - t0 >= dt || SameMotion(from, t)
  {
    var u := ApplyJoint(s, t, seqNo, now, true);
    var raw, own := SdkCalls(u.applied, t), SdkCalls(u.applied, u.applied);
    assert u.sent == s.sent + raw;
    assert u.sent[|s.sent|..] == raw && (s.sent + own)[|s.sent|..] == own;
    hide Lerp, Receive, SdkCalls;
    LerpBlendsMotionOnly(from, t, Progress(now, t0, dt));
    SdkCallsMatchUnlessMit(u.applied, t);
    if t.mode == Mit {
      MitRampReaches(from, t, t0, dt, now);
    }
  }

  /** At a tick of a retained command the device is sent what is recorded in every mode but MIT.
      There the raw target goes out, which is the recorded value only when the ramp has run out by
      then or has nothing to blend. */
  lemma DeviceGetsRecordedValueUnlessMit(s: Joint, from: JointTarget, t: JointTarget, seqNo: nat, t0: nat, dt: nat,
        a: nat, now: nat)
    requires OnRamp(s, from, t, seqNo, t0, dt, a) && a <= now < WRAP64
    ensures var u := ApplyJoint(s, t, seqNo, now, true);
            u.sent == s.sent + SdkCalls(u.applied, u.applied) <==>
              t.mode != Mit || now - t0 >= dt || SameMotion(from, t)
  {
    RetainedCommandFollowsRamp(s, from, t, seqNo, t0, dt, a, now);
    SentOnRamp(s, from, t, seqNo, t0, dt, now);
  }

  /** The same at the tick that starts the ramp: in MIT mode the device goes straight to the new
      target while the previous one is recorded. */
  lemma NewCommandSendsRecordedValueUnlessMit(s: Joint, t: JointTarget, seqNo: nat, now: nat)
    requires s.have && s.mode == t.mode && s.seqNo != seqNo && s.lastCmd <= now < WRAP64
    ensures var u := ApplyJoint(s, t, seqNo, now, true);
            u.sent == s.sent + SdkCalls(u.applied, u.applied) <==> t.mode != Mit || SameMotion(s.to, t)
  {
    NewCommandStartsRamp(s, t, seqNo, now);
    SentOnRamp(s, s.to, t, seqNo, now, Clamp(now - s.lastCmd), now);
  }

  /** An MIT target at rest at this position. */
  function AtRest(position: real): JointTarget {
    JointTarget(Mit, position, 0.0, 20.0, 1.0, 0.0, 0.0, 0.0, 0.0, 0.0, 0.0, false)
  }

  /** A new MIT joint, sent to 0 rad and 1 ms later to 1 rad: half a millisecond into the ramp
      0.5 rad is recorded, and the device is told 1 rad. */
  lemma MitMidRampSendsTarget(initial: Joint)
    requires initial.mode == Mit
    ensures var ticks := [Tick(1000000, 1, AtRest(0.0)), Tick(2000000, 2, AtRest(1.0)), Tick(2500000, 2, AtRest(1.0))];
            var u := RunTicks(Reset(initial), ticks);
            && u.applied == AtRest(0.5)
            && u.sent != [] && u.sent[|u.sent| - 1] == SetMit(1.0, 0.0, 20.0, 1.0, 0.0)
  {
    var t, s := AtRest(1.0), Reset(initial);
    var u := ApplyJoint(s, AtRest(0.0), 1, 1000000, true);
    var v := ApplyJoint(u, t, 2, 2000000, true);
    var w := ApplyJoint(v, t, 2, 2500000, true);
    var ticks := [Tick(1000000, 1, AtRest(0.0)), Tick(2000000, 2, t), Tick(2500000, 2, t)];
    assert RunTicks(s, ticks) == w by {
      hide ApplyJoint;
      assert RunTicks(s, ticks) == RunTicks(u, ticks[1..]);
      assert ticks[1..] == [ticks[1], ticks[2]] && ticks[1..][1..] == [ticks[2]] && ticks[1..][1..][1..] == [];
      assert RunTicks(u, ticks[1..]) == RunTicks(v, ticks[1..][1..]);
      assert RunTicks(v, ticks[1..][1..]) == RunTicks(w, []);
    }
    NewCommandStartsRamp(u, t, 2, 2000000);
    RetainedCommandFollowsRamp(v, AtRest(0.0), t, 2, 2000000, 1000000, 2000000, 2500000);
    assert 500000 as real / 1000000 as real == 0.5;
  }

  // ---------------------------------------------------------------- commands at a constant rate

  /** A tick at time `now` at which command number k is the retained one. */
  datatype Sample = Sample(now: nat, k: nat)

  /** The commands that one joint gets: the k-th has target targets[k] and sequence number seqs[k],
      and is consumed at the tick at time start + k * period. Numbers that follow each other differ;
      between them there may be commands that were overwritten or that leave this joint out. */
  datatype Stream = Stream(targets: seq<JointTarget>, seqs: seq<nat>, start: nat, period: nat) {
    function Begin(k: nat): nat { start + k * period }

    predicate Numbered() {
      && |seqs| == |targets|
      && forall k :: 0 <= k < |seqs| - 1 ==> seqs[k] != seqs[k + 1]
    }

    ghost predicate Valid(mode: CmdMode) {
      && targets != [] && SEGMENT_MIN <= period <= SEGMENT_MAX && Numbered()
      && forall k :: 0 <= k < |targets| ==> targets[k].mode == mode
    }

    /** The tick after one at a: still within the period of command a.k, or the very tick that
        consumes the next command. */
    predicate Next(a: Sample, b: Sample) {
      && a.now <= b.now < WRAP64 && b.k < |targets|
      && ((b.k == a.k && b.now < Begin(a.k + 1)) || (b.k == a.k + 1 && b.now == Begin(b.k)))
    }

    /** Ticks from the one that consumes command 0 on. */
    ghost predicate Schedule(ss: seq<Sample>) {
      && ss != [] && ss[0] == Sample(start, 0) && start < WRAP64
      && forall i :: 0 <= i < |ss| - 1 ==> Next(ss[i], ss[i + 1])
    }

    /** The intended trajectory: the first target, then ramp after ramp. */
    function Point(a: Sample): JointTarget
      requires a.k < |targets| && Begin(a.k) <= a.now && period > 0
    {
      if a.k == 0 then targets[0] else Ramp(targets[a.k - 1], targets[a.k], Begin(a.k), period, a.now)
    }

    /** How far quantity q travels while command k is the retained one. */
    function Travel(k: nat, q: Quantity): real
      requires k < |targets|
    {
      if k == 0 then 0.0 else Value(targets[k], q) - Value(targets[k - 1], q)
    }
  }

  ghost predicate Tracks(s: Joint, st: Stream, a: Sample)
    requires st.period > 0 && |st.seqs| == |st.targets|
  {
    && a.k < |st.targets| && st.Begin(a.k) <= a.now < st.Begin(a.k + 1) && a.now < WRAP64
    && if a.k == 0 then
         && s.have && !s.active && s.mode == st.targets[0].mode && s.to == st.targets[0]
         && s.seqNo == st.seqs[0] && s.lastCmd == st.start && s.applied == st.targets[0]
       else
         OnRamp(s, st.targets[a.k - 1], st.targets[a.k], st.seqs[a.k], st.Begin(a.k), st.period, a.now)
  }

  lemma NextBegin(st: Stream, k: nat)
    ensures st.Begin(k + 1) == st.Begin(k) + st.period
  {}

  lemma TracksNext(s: Joint, st: Stream, mode: CmdMode, a: Sample, b: Sample)
    requires st.Valid(mode) && Tracks(s, st, a) && st.Next(a, b)
    ensures Tracks(ApplyJoint(s, st.targets[b.k], st.seqs[b.k], b.now, true), st, b)
  {
    NextBegin(st, a.k);
    NextBegin(st, b.k);
    if b.k == a.k {
      if a.k > 0 {
        RetainedCommandFollowsRamp(s, st.targets[a.k - 1], st.targets[a.k], st.seqs[a.k], st.Begin(a.k),
                                   st.period, a.now, b.now);
      }
    } else {
      assert s.lastCmd == st.Begin(a.k);
      assert Clamp(b.now - s.lastCmd) == st.period;
      NewCommandStartsRamp(s, st.targets[b.k], st.seqs[b.k], b.now);
    }
  }

  lemma {:induction false} SchedulePlaces(st: Stream, ss: seq<Sample>, i: nat)
    requires st.period > 0 && st.targets != [] && st.Schedule(ss) && i < |ss|
    ensures ss[i].k < |st.targets| && st.Begin(ss[i].k) <= ss[i].now
  {
    if i > 0 {
      SchedulePlaces(st, ss, i - 1);
      assert st.Next(ss[i - 1], ss[i - 1 + 1]);
    }
  }

  /** The joint after the first n ticks of the schedule. */
  function After(s: Joint, st: Stream, ss: seq<Sample>, n: nat): Joint
    requires n <= |ss| && |st.seqs| == |st.targets|
    requires forall i :: 0 <= i < |ss| ==> ss[i].k < |st.targets|
  {
    if n == 0 then s else
    var a := ss[n - 1];
    ApplyJoint(After(s, st, ss, n - 1), st.targets[a.k], st.seqs[a.k], a.now, true)
  }

  lemma {:induction false} TracksRun(s: Joint, st: Stream, mode: CmdMode, ss: seq<Sample>, n: nat)
    requires st.Valid(mode) && st.Schedule(ss) && n < |ss|
    requires forall i :: 0 <= i < |ss| ==> ss[i].k < |st.targets|
    requires s.mode == mode && !s.have && !s.active && s.seqNo != st.seqs[0]
    ensures Tracks(After(s, st, ss, n + 1), st, ss[n])
  {
    if n == 0 {
      NextBegin(st, 0);
      assert After(s, st, ss, 0) == s;
    } else {
      hide Tracks, ApplyJoint;
      TracksRun(s, st, mode, ss, n - 1);
      assert st.Next(ss[n - 1], ss[n - 1 + 1]);
      TracksNext(After(s, st, ss, n), st, mode, ss[n - 1], ss[n]);
    }
  }

  /** Commands consumed at a constant interval between 0.5 ms and 200 ms, by a joint without
      history: at every tick the recorded value is the intended trajectory. */
  lemma {:induction false} ConstantRateFollowsTrajectory(s: Joint, st: Stream, mode: CmdMode, ss: seq<Sample>, n: nat)
    requires st.Valid(mode) && st.Schedule(ss) && n < |ss|
    requires s.mode == mode && !s.have && !s.active && s.seqNo != st.seqs[0]
    ensures forall i :: 0 <= i < |ss| ==> ss[i].k < |st.targets|
    ensures st.Begin(ss[n].k) <= ss[n].now
    ensures After(s, st, ss, n + 1).applied == st.Point(ss[n])
  {
    forall i | 0 <= i < |ss|
      ensures ss[i].k < |st.targets|
    {
      SchedulePlaces(st, ss, i);
    }
    TracksRun(s, st, mode, ss, n);
    if ss[n].k == 0 {
      assert After(s, st, ss, n + 1).applied == st.targets[0];
    }
  }

  // ---------------------------------------------------------------- the rate bound

  lemma MixDifference(a: real, b: real, x: real, y: real, p: real)
    requires p > 0.0
    ensures Mix(a, b, y / p) - Mix(a, b, x / p) == (b - a) * ((y - x) / p)
  {
    var d := b - a;
    assert y / p - x / p == (y - x) / p;
    assert d * (y / p) - d * (x / p) == d * (y / p - x / p);
  }

  lemma ProgressIsQuotient(t0: nat, dt: nat, now: nat)
    requires t0 <= now <= t0 + dt && dt > 0
    ensures Progress(now, t0, dt) == (now - t0) as real / dt as real
  {
    if now - t0 >= dt {
      WholeQuotient(dt as real);
    }
  }

  lemma WholeQuotient(d: real)
    requires d > 0.0
    ensures d / d == 1.0
  {}

  lemma RampRate(from: JointTarget, t: JointTarget, t0: nat, dt: nat, a: nat, b: nat, q: Quantity)
    requires t0 <= a <= b <= t0 + dt && dt > 0 && Moves(t.mode, q)
    ensures Value(Ramp(from, t, t0, dt, b), q) - Value(Ramp(from, t, t0, dt, a), q)
         == (Value(t, q) - Value(from, q)) * ((b - a) as real / dt as real)
  {
    hide Lerp, Mix;
    ProgressIsQuotient(t0, dt, a);
    ProgressIsQuotient(t0, dt, b);
    LerpBlendsMotionOnly(from, t, Progress(a, t0, dt));
    LerpBlendsMotionOnly(from, t, Progress(b, t0, dt));
    MixDifference(Value(from, q), Value(t, q), (a - t0) as real, (b - t0) as real, dt as real);
  }

  lemma RampStart(from: JointTarget, t: JointTarget, t0: nat, dt: nat, q: Quantity)
    requires dt > 0 && Moves(t.mode, q)
    ensures Value(Ramp(from, t, t0, dt, t0), q) == Value(from, q)
  {
    LerpBlendsMotionOnly(from, t, Progress(t0, t0, dt));
    assert 0 as real / dt as real == 0.0;
  }

  /** Two ticks within one period of the trajectory, the second possibly the one at which the next
      command arrives: the change is exactly the travel of that period times their distance over P. */
  lemma ChangeWithinPeriod(st: Stream, mode: CmdMode, a: Sample, b: Sample, q: Quantity)
    requires st.Valid(mode) && Moves(mode, q)
    requires a.k < |st.targets| && st.Begin(a.k) <= a.now && st.Next(a, b)
    ensures st.Begin(b.k) <= b.now
    ensures Value(st.Point(b), q) - Value(st.Point(a), q)
         == st.Travel(a.k, q) * ((b.now - a.now) as real / st.period as real)
  {
    hide Ramp;
    NextBegin(st, a.k);
    var k := a.k;
    if b.k == k {
      if k > 0 {
        RampRate(st.targets[k - 1], st.targets[k], st.Begin(k), st.period, a.now, b.now, q);
      }
    } else {
      RampStart(st.targets[k], st.targets[k + 1], st.Begin(k + 1), st.period, q);
      if k > 0 {
        RampRate(st.targets[k - 1], st.targets[k], st.Begin(k), st.period, a.now, b.now, q);
        RampEnd(st.targets[k - 1], st.targets[k], st.Begin(k), st.period);
      }
    }
  }

  lemma RampEnd(from: JointTarget, t: JointTarget, t0: nat, dt: nat)
    requires dt > 0
    ensures Ramp(from, t, t0, dt, t0 + dt) == t
  {
    LerpEnds(from, t);
  }

  function Abs(x: real): real { if x < 0.0 then -x else x }

  lemma ScaledBound(x: real, m: real, f: real)
    requires Abs(x) <= m && f >= 0.0
    ensures Abs(x * f) <= m * f
  {
    ScaleUp(f, x, m);
    ScaleUp(f, -m, x);
    assert f * x == x * f && f * m == m * f && f * (-m) == -(f * m);
  }

  /** Values v0 and v1, taken d apart, differ by at most m per period p. */
  predicate Slow(v0: real, v1: real, d: int, m: real, p: nat)
    requires p > 0
  {
    Abs(v1 - v0) <= m * (d as real / p as real)
  }

  lemma SlowAdds(v0: real, v1: real, v2: real, x: int, y: int, m: real, p: nat)
    requires p > 0 && Slow(v0, v1, x, m, p) && Slow(v1, v2, y, m, p)
    ensures Slow(v0, v2, x + y, m, p)
  {
    AddQuotients(m, x as real, y as real, p as real);
  }

  lemma SlowStays(v: real, m: real, p: nat)
    requires p > 0
    ensures Slow(v, v, 0, m, p)
  {
    assert 0 as real / p as real == 0.0;
  }

  lemma AddQuotients(m: real, x: real, y: real, p: real)
    requires p > 0.0
    ensures m * (x / p) + m * (y / p) == m * ((x + y) / p)
  {
    assert x / p + y / p == (x + y) / p;
    assert m * (x / p) + m * (y / p) == m * (x / p + y / p);
  }

  lemma QuotientNonNegative(x: real, p: real)
    requires x >= 0.0 && p > 0.0
    ensures x / p >= 0.0
  {}

  lemma ChangeBound(st: Stream, mode: CmdMode, a: Sample, b: Sample, q: Quantity, m: real)
    requires st.Valid(mode) && Moves(mode, q)
    requires a.k < |st.targets| && st.Begin(a.k) <= a.now && st.Next(a, b)
    requires Abs(st.Travel(a.k, q)) <= m
    ensures st.Begin(b.k) <= b.now
    ensures Slow(Value(st.Point(a), q), Value(st.Point(b), q), b.now - a.now, m, st.period)
  {
    ChangeWithinPeriod(st, mode, a, b, q);
    var f := (b.now - a.now) as real / st.period as real;
    QuotientNonNegative((b.now - a.now) as real, st.period as real);
    ScaledBound(st.Travel(a.k, q), m, f);
  }

  /** Between any two ticks of the run the trajectory changes by at most m * D / P, where m bounds
      the steps between consecutive targets. */
  lemma {:induction false} TrajectoryRate(st: Stream, mode: CmdMode, ss: seq<Sample>,
        i: nat, j: nat, q: Quantity, m: real)
    requires st.Valid(mode) && Moves(mode, q) && st.Schedule(ss) && i <= j < |ss|
    requires m >= 0.0 && forall k :: 0 <= k < |st.targets| ==> Abs(st.Travel(k, q)) <= m
    ensures ss[i].k < |st.targets| && st.Begin(ss[i].k) <= ss[i].now
    ensures ss[j].k < |st.targets| && st.Begin(ss[j].k) <= ss[j].now
    ensures ss[i].now <= ss[j].now
    ensures Slow(Value(st.Point(ss[i]), q), Value(st.Point(ss[j]), q), ss[j].now - ss[i].now, m, st.period)
    decreases j - i
  {
    hide Slow, Value, Ramp;
    SchedulePlaces(st, ss, i);
    SchedulePlaces(st, ss, j);
    if i < j {
      var a, b := ss[j - 1], ss[j - 1 + 1];
      TrajectoryRate(st, mode, ss, i, j - 1, q, m);
      assert st.Next(a, b);
      ChangeBound(st, mode, a, b, q, m);
      SlowAdds(Value(st.Point(ss[i]), q), Value(st.Point(a), q), Value(st.Point(b), q),
               a.now - ss[i].now, b.now - a.now, m, st.period);
    } else {
      SlowStays(Value(st.Point(ss[i]), q), m, st.period);
    }
  }

  /** The rate bound on what the code records: under commands at a constant interval P, two ticks
      D apart change an applied motion value by at most m * D / P. */
  lemma {:induction false} AppliedRateBound(s: Joint, st: Stream, mode: CmdMode, ss: seq<Sample>,
        i: nat, j: nat, q: Quantity, m: real)
    requires st.Valid(mode) && Moves(mode, q) && st.Schedule(ss) && i <= j < |ss|
    requires s.mode == mode && !s.have && !s.active && s.seqNo != st.seqs[0]
    requires m >= 0.0 && forall k :: 0 <= k < |st.targets| ==> Abs(st.Travel(k, q)) <= m
    ensures forall n :: 0 <= n < |ss| ==> ss[n].k < |st.targets|
    ensures ss[i].now <= ss[j].now
    ensures Slow(Value(After(s, st, ss, i + 1).applied, q), Value(After(s, st, ss, j + 1).applied, q),
                 ss[j].now - ss[i].now, m, st.period)
  {
    hide ApplyJoint, After, Slow, Value, Ramp, Abs;
    ConstantRateFollowsTrajectory(s, st, mode, ss, i);
    ConstantRateFollowsTrajectory(s, st, mode, ss, j);
    TrajectoryRate(st, mode, ss, i, j, q, m);
  }
}
