/**
 The command side of `TickGroup`: the mailbox that submit_command() fills, its consumption by
 run_cycle(), the overwrite counter, the hook's own command and the command timeout. Submits and
 ticks may alternate in any way; that each of them acts on the mailbox at one moment is `MailboxSteps.StepsActAtOnce`.
 */
module TickGroup {
  import opened Wrappers
  import opened MailboxClass
  import Interpolation
  import Config

  type CommandSet = Interpolation.CommandSet
  type JointTarget = Interpolation.JointTarget
  const WRAP64: nat := Interpolation.WRAP64

  /** Unsigned 64-bit subtraction. */
  function Sub64(a: nat, b: nat): nat {
    Interpolation.Sub64(a, b)
  }

  datatype TimeoutAction = Hold | ZeroTorque | Disable | Estop

  /** config.command, as far as the timeout uses it. */
  datatype Policy = Policy(timeoutMs: nat, onTimeout: TimeoutAction)

  /** Calls into the buses of the group. */
  datatype BusCall =
    | TickBegin(bus: nat, now: nat)
    | FillSnapshot(bus: nat)
    | Apply(bus: nat, cmd: CommandSet)
    | Broadcast(bus: nat)
    | TickEnd(bus: nat, now: nat)
    | Act(bus: nat, action: TimeoutAction)

  /** What an RtHook may call on its CommandWriter during step(). */
  datatype WriterCall =
    | WriteMit(joint: nat, position: real, velocity: real, kp: real, kd: real, torque: real)
    | WriteMitSi(joint: nat, position: real, velocity: real, stiffness: real, damping: real, torque: real)
    | WriteZeroTorque
    | WriteEstop

  /** hook_cmd_: `mask` and `block` are two members of CommandSet; `block` holds the marked joints. */
  datatype HookCommand = HookCommand(
    mask: nat, block: set<nat>, target: seq<JointTarget>, estop: bool, zeroTorqueAll: bool)

  /** The fields of the group that commands touch; `pending` is the unread content of the mailbox. */
  datatype Core = Core(
    pending: Option<CommandSet>,
    lastCmd: CommandSet, lastSeq: nat, lastNs: nat,
    overwrites: nat, fired: bool, latched: bool)

  /** What one tick did. */
  datatype Record = Record(now: nat, consumed: Option<CommandSet>, applied: Option<CommandSet>, fired: bool)

  // ---------------------------------------------------------------- one call

  function Consume(c: Core, now: nat): Core {
    match c.pending
    case None => c
    case Some(cmd) =>
      var gap := c.lastSeq != 0 && cmd.seqNo > (c.lastSeq + 1) % WRAP64;
      c.(pending := None,
         overwrites := if gap then (c.overwrites + Sub64(cmd.seqNo, c.lastSeq + 1)) % WRAP64 else c.overwrites,
         lastSeq := cmd.seqNo, lastNs := now, lastCmd := cmd, latched := c.latched && cmd.estop)
  }

  predicate Watching(c: Core, p: Policy) {
    p.timeoutMs != 0 && c.lastNs != 0
  }

  predicate Expired(c: Core, p: Policy, now: nat) {
    now > c.lastNs && now - c.lastNs > p.timeoutMs * 1000000
  }

  predicate Fires(c: Core, p: Policy, now: nat) {
    Watching(c, p) && Expired(c, p, now) && !c.fired
  }

  /** run_cycle(): consume, apply the retained command, guard against silence. */
  function Cycle(c: Core, p: Policy, now: nat): (Core, Record) {
    var c1 := Consume(c, now);
    var fires := Fires(c1, p, now);
    (c1.(fired := if Watching(c1, p) then Expired(c1, p, now) else c1.fired,
         latched := c1.latched || (fires && p.onTimeout.Estop?)),
     Record(now, c.pending, if c1.lastNs != 0 then Some(c1.lastCmd) else None, fires))
  }

  // ---------------------------------------------------------------- the hook's command

  /** hook_cmd_ as it is constructed. */
  function NoHook(idle: JointTarget): HookCommand {
    HookCommand(0, {}, seq(Interpolation.MAX_JOINTS, _ => idle), false, false)
  }

  function Cleared(h: HookCommand): HookCommand {
    h.(block := {}, estop := false, zeroTorqueAll := false)
  }

  function Write(h: HookCommand, c: WriterCall): HookCommand {
    match c
    case WriteMit(j, position, velocity, kp, kd, torque) =>
      if j < |h.target| then
        h.(block := h.block + {j},
           target := h.target[j := h.target[j].(position := position, velocity := velocity, kp := kp, kd := kd,
                                                torque := torque, siGain := false)])
      else h
    case WriteMitSi(j, position, velocity, stiffness, damping, torque) =>
      if j < |h.target| then
        h.(block := h.block + {j},
           target := h.target[j := h.target[j].(position := position, velocity := velocity, stiffness := stiffness,
                                                damping := damping, torque := torque, siGain := true)])
      else h
    case WriteZeroTorque => h.(zeroTorqueAll := true)
    case WriteEstop => h.(estop := true)
  }

  function Written(h: HookCommand, script: seq<WriterCall>): HookCommand {
    if script == [] then h else Write(Written(h, script[..|script| - 1]), script[|script| - 1])
  }

  /** The test in front of the hook's apply_command(). */
  predicate Counts(h: HookCommand) {
    h.mask != 0 || h.estop || h.zeroTorqueAll
  }

  /** The command set as a bus reads it; its sequence number is never written. */
  function AsSet(h: HookCommand): CommandSet {
    Interpolation.CommandSet(0, h.estop, h.zeroTorqueAll, map j | j in h.block && j < |h.target| :: h.target[j])
  }

  // ---------------------------------------------------------------- the bus calls of one tick

  /** One loop over the buses. */
  datatype Phase =
    | Opening(now: nat)
    | Filling
    | Commanding(applied: Option<CommandSet>, hook: HookCommand)
    | Broadcasting(feedback: seq<Config.FeedbackPolicy>)
    | Closing(now: nat)
    | Acting(action: TimeoutAction)

  predicate Broadcasts(f: Config.FeedbackPolicy) {
    f.BroadcastHeartbeat? || f.HeartbeatOnly? || f.UnicastPoll?
  }

  function CallsTo(ph: Phase, b: nat): seq<BusCall> {
    match ph
    case Opening(now) => [TickBegin(b, now)]
    case Filling => [FillSnapshot(b)]
    case Commanding(applied, hook) =>
      (if applied.Some? then [Apply(b, applied.value)] else []) + (if Counts(hook) then [Apply(b, AsSet(hook))] else [])
    case Broadcasting(feedback) => if b < |feedback| && Broadcasts(feedback[b]) then [Broadcast(b)] else []
    case Closing(now) => [TickEnd(b, now)]
    case Acting(action) => [Act(b, action)]
  }

  function ForAll(ph: Phase, buses: nat): seq<BusCall> {
    if buses == 0 then [] else ForAll(ph, buses - 1) + CallsTo(ph, buses - 1)
  }

  function TickCalls(r: Record, p: Policy, feedback: seq<Config.FeedbackPolicy>, hook: HookCommand): seq<BusCall> {
    var n := |feedback|;
    ForAll(Opening(r.now), n) + ForAll(Filling, n) + ForAll(Commanding(r.applied, hook), n)
    + ForAll(Broadcasting(feedback), n) + ForAll(Closing(r.now), n)
    + (if r.fired then ForAll(Acting(p.onTimeout), n) else [])
  }

  lemma CallsAddUp(was: seq<BusCall>, r: Record, p: Policy, feedback: seq<Config.FeedbackPolicy>, hook: HookCommand)
    ensures was + ForAll(Opening(r.now), |feedback|) + ForAll(Filling, |feedback|)
            + ForAll(Commanding(r.applied, hook), |feedback|)
            + ForAll(Broadcasting(feedback), |feedback|) + ForAll(Closing(r.now), |feedback|)
            + (if r.fired then ForAll(Acting(p.onTimeout), |feedback|) else [])
         == was + TickCalls(r, p, feedback, hook)
  {
    hide ForAll;
  }

  class TickGroup {
    const commands: TripleBuffer<CommandSet>
    const policy: Policy
    const feedback: seq<Config.FeedbackPolicy> // of every bus of the group
    var lastCmd: CommandSet
    var lastSeq: nat
    var lastNs: nat
    var overwrites: nat
    var fired: bool
    var latched: bool
    var hook: HookCommand
    var calls: seq<BusCall>

    ghost function View(): Core
      reads this, commands
    {
      Core(commands.Waiting(), lastCmd, lastSeq, lastNs, overwrites, fired, latched)
    }

    constructor (p: Policy, f: seq<Config.FeedbackPolicy>, blank: CommandSet, idle: JointTarget)
      ensures fresh(commands) && policy == p && feedback == f && calls == []
      ensures View() == Start(blank) && hook.mask == 0 && hook.block == {} && !hook.estop && !hook.zeroTorqueAll
      ensures |hook.target| == Interpolation.MAX_JOINTS && forall j :: 0 <= j < |hook.target| ==> hook.target[j] == idle
    {
      policy, feedback := p, f;
      lastCmd, lastSeq, lastNs := blank, 0, 0;
      overwrites, fired, latched, calls := 0, false, false, [];
      hook := NoHook(idle);
      commands := new TripleBuffer<CommandSet>(blank);
    }

    method SubmitCommand(cmd: CommandSet)
      modifies commands
      ensures View() == old(View()).(pending := Some(cmd))
    {
      commands.Store(cmd);
    }

    method ApplyCommandTimeout(now: nat) returns (ghost acted: bool)
      modifies this`fired, this`latched, this`calls
      ensures acted == Fires(old(View()), policy, now)
      ensures fired == if Watching(old(View()), policy) then Expired(old(View()), policy, now) else old(fired)
      ensures latched == (old(latched) || (acted && policy.onTimeout.Estop?))
      ensures calls == old(calls) + if acted then ForAll(Acting(policy.onTimeout), |feedback|) else []
    {
      acted := false;
      if policy.timeoutMs == 0 || lastNs == 0 { return; }
      var limit := policy.timeoutMs * 1000000;
      var expired := now > lastNs && now - lastNs > limit;
      if !expired {
        fired := false;
        return;
      }
      if fired { return; }
      fired := true;
      acted := true;
      for b := 0 to |feedback|
        modifies this`calls
        invariant calls == old(calls) + ForAll(Acting(policy.onTimeout), b)
      {
        calls := calls + [Act(b, policy.onTimeout)];
      }
      if policy.onTimeout.Estop? { latched := true; }
    }

    /** Step 5 of run_cycle(): the retained command, then the hook's. */
    method ApplyToAll()
      modifies this`calls
      ensures var applied := if lastNs != 0 then Some(lastCmd) else None;
              calls == old(calls) + ForAll(Commanding(applied, hook), |feedback|)
    {
      var isFresh := lastNs != 0;
      ghost var applied := if isFresh then Some(lastCmd) else None;
      for b := 0 to |feedback|
        invariant calls == old(calls) + ForAll(Commanding(applied, hook), b)
      {
        if isFresh { calls := calls + [Apply(b, lastCmd)]; }
        if hook.mask != 0 || hook.estop || hook.zeroTorqueAll { calls := calls + [Apply(b, AsSet(hook))]; }
      }
    }

    /** Step 3 of run_cycle(): take what the mailbox holds. */
    method ConsumePending(now: nat)
      modifies this`lastCmd, this`lastSeq, this`lastNs, this`overwrites, this`latched, commands
      ensures View() == Consume(old(View()), now)
    {
      hide Sub64;
      var gotNew, cmd := commands.Read(lastCmd);
      if gotNew {
        if lastSeq != 0 && cmd.seqNo > (lastSeq + 1) % WRAP64 {
          overwrites := (overwrites + Sub64(cmd.seqNo, lastSeq + 1)) % WRAP64;
        }
        lastSeq := cmd.seqNo;
        lastNs := now;
        lastCmd := cmd;
        if !cmd.estop { latched := false; }
      }
    }

    /** Steps 1 and 2 of run_cycle(): receive, then fill the snapshot. */
    method OpenTick(now: nat)
      modifies this`calls
      ensures calls == old(calls) + ForAll(Opening(now), |feedback|) + ForAll(Filling, |feedback|)
    {
      for b := 0 to |feedback|
        invariant calls == old(calls) + ForAll(Opening(now), b)
      {
        calls := calls + [TickBegin(b, now)];
      }
      for b := 0 to |feedback|
        invariant calls == old(calls) + ForAll(Opening(now), |feedback|) + ForAll(Filling, b)
      {
        calls := calls + [FillSnapshot(b)];
      }
    }

    /** Step 4: the hook, if there is one, writes its command through the writer's calls. */
    method RunHook(script: seq<WriterCall>)
      modifies this`hook
      ensures hook == Written(Cleared(old(hook)), script)
    {
      hook := Cleared(hook);
      for i := 0 to |script|
        invariant hook == Written(Cleared(old(hook)), script[..i])
      {
        assert script[..i + 1][..i] == script[..i];
        hook := Write(hook, script[i]);
      }
      assert script[..|script|] == script;
    }

    /** Steps 6 and 7: broadcast where the policy asks for it, then send. */
    method CloseTick(now: nat)
      modifies this`calls
      ensures calls == old(calls) + ForAll(Broadcasting(feedback), |feedback|) + ForAll(Closing(now), |feedback|)
    {
      for b := 0 to |feedback|
        invariant calls == old(calls) + ForAll(Broadcasting(feedback), b)
      {
        var f := feedback[b];
        if f.BroadcastHeartbeat? || f.HeartbeatOnly? || f.UnicastPoll? { calls := calls + [Broadcast(b)]; }
      }
      for b := 0 to |feedback|
        invariant calls == old(calls) + ForAll(Broadcasting(feedback), |feedback|) + ForAll(Closing(now), b)
      {
        calls := calls + [TickEnd(b, now)];
      }
    }

    /** run_cycle(). The script is what the hook calls on its writer, empty without a hook. */
    method RunCycle(now: nat, script: seq<WriterCall>) returns (ghost r: Record)
      modifies this, commands
      ensures (View(), r) == Cycle(old(View()), policy, now)
      ensures hook == Written(Cleared(old(hook)), script) && hook.mask == old(hook.mask)
      ensures calls == old(calls) + TickCalls(r, policy, feedback, hook)
    {
      hide Consume, ForAll, Written, TickCalls;
      ghost var before, was := View(), calls;
      OpenTick(now);
      ConsumePending(now);
      RunHook(script);
      WritingMarksNoMask(Cleared(old(hook)), script);
      ghost var applied := if lastNs != 0 then Some(lastCmd) else None;
      ApplyToAll();
      CloseTick(now);
      ghost var acted := ApplyCommandTimeout(now);
      r := Record(now, before.pending, applied, acted);
      CallsAddUp(was, r, policy, feedback, hook);
    }
  }

  // ---------------------------------------------------------------- what a bus sees of a tick

  /** The calls to bus b, in order. */
  function OfBus(calls: seq<BusCall>, b: nat): seq<BusCall> {
    if calls == [] then [] else
    OfBus(calls[..|calls| - 1], b) + (if calls[|calls| - 1].bus == b then [calls[|calls| - 1]] else [])
  }

  lemma {:induction false} OfBusConcat(x: seq<BusCall>, y: seq<BusCall>, b: nat)
    ensures OfBus(x + y, b) == OfBus(x, b) + OfBus(y, b)
    decreases |y|
  {
    if y == [] {
      assert x + y == x;
    } else {
      var front := y[..|y| - 1];
      assert (x + y)[..|x + y| - 1] == x + front;
      OfBusConcat(x, front, b);
    }
  }

  lemma NoCalls(b: nat)
    ensures OfBus([], b) == []
  {}

  lemma OneBusOnly(ph: Phase, c: nat, b: nat)
    ensures OfBus(CallsTo(ph, c), b) == if c == b then CallsTo(ph, c) else []
  {
    var calls := CallsTo(ph, c);
    if |calls| == 2 {
      assert calls[..1] == [calls[0]] && [calls[0]][..0] == [];
      assert OfBus([calls[0]], b) == if c == b then [calls[0]] else [];
    } else if |calls| == 1 {
      assert calls[..0] == [];
    }
  }

  lemma {:induction false} PhaseOfBus(ph: Phase, buses: nat, b: nat)
    ensures OfBus(ForAll(ph, buses), b) == if b < buses then CallsTo(ph, b) else []
  {
    hide CallsTo, OfBus;
    if buses == 0 {
      NoCalls(b);
    } else {
      var c := buses - 1;
      PhaseOfBus(ph, c, b);
      OneBusOnly(ph, c, b);
      OfBusConcat(ForAll(ph, c), CallsTo(ph, c), b);
    }
  }

  /** In every tick each bus is opened, read into the snapshot, given the retained command and after
      it the hook's, asked to broadcast unless its policy is unicast only, and closed; the timeout
      acts after all frames are out. */
  lemma EachBusTicksInOrder(r: Record, p: Policy, feedback: seq<Config.FeedbackPolicy>, hook: HookCommand, b: nat)
    requires b < |feedback|
    ensures OfBus(TickCalls(r, p, feedback, hook), b)
         == [TickBegin(b, r.now)] + [FillSnapshot(b)]
            + ((if r.applied.Some? then [Apply(b, r.applied.value)] else [])
               + (if Counts(hook) then [Apply(b, AsSet(hook))] else []))
            + (if feedback[b] != Config.UnicastOnly then [Broadcast(b)] else [])
            + [TickEnd(b, r.now)]
            + (if r.fired then [Act(b, p.onTimeout)] else [])
  {
    hide OfBus, ForAll, Counts, AsSet;
    var n := |feedback|;
    var c0, c1, c2 := ForAll(Opening(r.now), n), ForAll(Filling, n), ForAll(Commanding(r.applied, hook), n);
    var c3, c4 := ForAll(Broadcasting(feedback), n), ForAll(Closing(r.now), n);
    var c5 := if r.fired then ForAll(Acting(p.onTimeout), n) else [];
    OfBusConcat(c0 + c1 + c2 + c3 + c4, c5, b);
    OfBusConcat(c0 + c1 + c2 + c3, c4, b);
    OfBusConcat(c0 + c1 + c2, c3, b);
    OfBusConcat(c0 + c1, c2, b);
    OfBusConcat(c0, c1, b);
    PhaseOfBus(Opening(r.now), n, b);
    PhaseOfBus(Filling, n, b);
    PhaseOfBus(Commanding(r.applied, hook), n, b);
    PhaseOfBus(Broadcasting(feedback), n, b);
    PhaseOfBus(Closing(r.now), n, b);
    PhaseOfBus(Acting(p.onTimeout), n, b);
    NoCalls(b);
    assert OfBus(c5, b) == if r.fired then [Act(b, p.onTimeout)] else [];
    assert OfBus(c3, b) == if feedback[b] != Config.UnicastOnly then [Broadcast(b)] else [];
  }

  /** A hook that writes nothing leaves nothing of the tick before. */
  lemma SilentHookMarksNothing(h: HookCommand)
    ensures AsSet(Written(Cleared(h), [])) == Interpolation.CommandSet(0, false, false, map[])
  {}

  /** What a writer call leaves for the bus to read, were it looked at. */
  lemma WriterMarksTarget(h: HookCommand, c: WriterCall)
    requires (c.WriteMit? || c.WriteMitSi?) && c.joint < |h.target|
    ensures var t := AsSet(Write(h, c)).target;
            && t.Keys == AsSet(h).target.Keys + {c.joint}
            && (forall k :: k in AsSet(h).target && k != c.joint ==> t[k] == AsSet(h).target[k])
            && t[c.joint].position == c.position && t[c.joint].velocity == c.velocity
            && t[c.joint].torque == c.torque && t[c.joint].siGain == c.WriteMitSi?
            && (c.WriteMit? ==> t[c.joint].kp == c.kp && t[c.joint].kd == c.kd)
            && (c.WriteMitSi? ==> t[c.joint].stiffness == c.stiffness && t[c.joint].damping == c.damping)
            && t[c.joint].mode == h.target[c.joint].mode && AsSet(Write(h, c)).seqNo == 0
  {}

  /** The hook asks for a stop or for a release of all torque. */
  predicate Stops(script: seq<WriterCall>) {
    WriteEstop in script || WriteZeroTorque in script
  }

  lemma {:induction false} WritingMarksNoMask(h: HookCommand, script: seq<WriterCall>)
    ensures var w := Written(h, script);
            && w.mask == h.mask
            && (w.estop <==> h.estop || WriteEstop in script)
            && (w.zeroTorqueAll <==> h.zeroTorqueAll || WriteZeroTorque in script)
  {
    if script != [] {
      var front := script[..|script| - 1];
      assert script == front + [script[|script| - 1]];
      WritingMarksNoMask(h, front);
    }
  }

  lemma {:induction false} SilentHook(applied: Option<CommandSet>, g: HookCommand, h: HookCommand, buses: nat)
    requires !Counts(g) && !Counts(h)
    ensures ForAll(Commanding(applied, g), buses) == ForAll(Commanding(applied, h), buses)
  {
    if buses > 0 {
      SilentHook(applied, g, h, buses - 1);
    }
  }

  lemma CallsToFirst(r: Record, p: Policy, feedback: seq<Config.FeedbackPolicy>, hook: HookCommand)
    requires feedback != []
    ensures |OfBus(TickCalls(r, p, feedback, hook), 0)|
         == 3 + (if r.applied.Some? then 1 else 0) + (if Counts(hook) then 1 else 0)
            + (if feedback[0] != Config.UnicastOnly then 1 else 0) + (if r.fired then 1 else 0)
  {
    hide TickCalls, OfBus, Counts, AsSet;
    EachBusTicksInOrder(r, p, feedback, hook, 0);
  }

  lemma SameCallsIff(r: Record, p: Policy, feedback: seq<Config.FeedbackPolicy>, g: HookCommand, h: HookCommand)
    requires feedback != [] && !Counts(h)
    ensures TickCalls(r, p, feedback, g) == TickCalls(r, p, feedback, h) <==> !Counts(g)
  {
    hide ForAll, OfBus, Counts, AsSet;
    if Counts(g) {
      CallsToFirst(r, p, feedback, g);
      CallsToFirst(r, p, feedback, h);
    } else {
      SilentHook(r.applied, g, h, |feedback|);
    }
  }

  /** Joint targets of a hook never reach a bus: the writer marks them in `block`, the tick looks at
      `mask`, and nothing ever sets that. A tick's calls depend on the hook exactly when it asks for
      a stop or a release, and a bus that is given such a command does not look at its targets. */
  lemma HookReachesBusIffStops(r: Record, p: Policy, feedback: seq<Config.FeedbackPolicy>,
        h: HookCommand, script: seq<WriterCall>)
    requires h.mask == 0 && feedback != []
    ensures var w := Written(Cleared(h), script);
            && w.mask == 0
            && (TickCalls(r, p, feedback, w) == TickCalls(r, p, feedback, Cleared(h)) <==> !Stops(script))
            && (AsSet(w).estop <==> WriteEstop in script)
            && (AsSet(w).zeroTorqueAll <==> WriteZeroTorque in script)
  {
    hide Written, ForAll, OfBus, TickCalls;
    WritingMarksNoMask(Cleared(h), script);
    SameCallsIff(r, p, feedback, Written(Cleared(h), script), Cleared(h));
  }

  // ---------------------------------------------------------------- runs

  datatype Event = Submit(cmd: CommandSet) | Tick(now: nat)

  /** The group together with everything submitted so far and the record of every tick. */
  datatype History = History(core: Core, submitted: seq<CommandSet>, log: seq<Record>)

  function Start(blank: CommandSet): Core {
    Core(None, blank, 0, 0, 0, false, false)
  }

  function Step(h: History, p: Policy, e: Event): History {
    match e
    case Submit(cmd) => h.(core := h.core.(pending := Some(cmd)), submitted := h.submitted + [cmd])
    case Tick(now) =>
      var (c, r) := Cycle(h.core, p, now);
      h.(core := c, log := h.log + [r])
  }

  function Run(h: History, p: Policy, es: seq<Event>): History
    decreases |es|
  {
    if es == [] then h else Run(Step(h, p, es[0]), p, es[1..])
  }

  function Begin(blank: CommandSet): History {
    History(Start(blank), [], [])
  }

  // ---------------------------------------------------------------- command conservation

  /** The producer numbers its commands 1, 2, 3, ...; 64 bits suffice. */
  predicate Numbered(submitted: seq<CommandSet>) {
    && |submitted| < WRAP64
    && forall k :: 0 <= k < |submitted| ==> submitted[k].seqNo == k + 1
  }

  function Consumptions(log: seq<Record>): nat {
    if log == [] then 0 else Consumptions(log[..|log| - 1]) + (if log[|log| - 1].consumed.Some? then 1 else 0)
  }

  /** The number of the first command that a tick consumed; 0 when there is none. */
  function FirstConsumed(log: seq<Record>): nat {
    if log == [] then 0 else
    var before := FirstConsumed(log[..|log| - 1]);
    var last := log[|log| - 1].consumed;
    if before == 0 && last.Some? then last.value.seqNo else before
  }

  /** Every consumed command is a submitted one, and their numbers rise. */
  predicate Genuine(log: seq<Record>, submitted: seq<CommandSet>) {
    && (forall i :: 0 <= i < |log| && log[i].consumed.Some? ==> log[i].consumed.value in submitted)
    && (forall i, j :: 0 <= i < j < |log| && log[i].consumed.Some? && log[j].consumed.Some? ==>
          log[i].consumed.value.seqNo < log[j].consumed.value.seqNo)
  }

  predicate Upto(log: seq<Record>, n: nat) {
    forall i :: 0 <= i < |log| && log[i].consumed.Some? ==> log[i].consumed.value.seqNo <= n
  }

  predicate Accounted(h: History) {
    var (c, n) := (h.core, |h.submitted|);
    && c.lastSeq <= n
    && (c.pending.None? ==> c.lastSeq == n)
    && (c.pending.Some? ==> n > c.lastSeq && c.pending.value == h.submitted[n - 1])
    && (c.lastSeq == 0 ==> Consumptions(h.log) == c.overwrites == FirstConsumed(h.log) == 0)
    && (c.lastSeq > 0 ==>
          && 1 <= FirstConsumed(h.log) <= c.lastSeq
          && Consumptions(h.log) + c.overwrites == c.lastSeq - FirstConsumed(h.log) + 1)
    && Upto(h.log, c.lastSeq) && Genuine(h.log, h.submitted)
  }

  lemma {:induction false} AccountedSubmit(h: History, cmd: CommandSet)
    requires Accounted(h) && Numbered(h.submitted + [cmd])
    ensures Accounted(h.(core := h.core.(pending := Some(cmd)), submitted := h.submitted + [cmd]))
  {
    hide Upto, Consumptions, FirstConsumed;
    assert (h.submitted + [cmd])[|h.submitted|] == cmd;
  }

  /** The overwrite arithmetic without wrap-around: the numbers skipped since the last command. */
  lemma ConsumeCounts(c: Core, p: Policy, now: nat)
    requires c.pending.Some? && c.lastSeq < c.pending.value.seqNo < WRAP64
    requires c.overwrites <= c.lastSeq
    ensures var (d, n) := (Cycle(c, p, now).0, c.pending.value.seqNo);
            && d.pending.None? && d.lastSeq == n
            && d.overwrites == c.overwrites + if c.lastSeq == 0 then 0 else n - c.lastSeq - 1
  {
    var n, last := c.pending.value.seqNo, c.lastSeq;
    assert (last + 1) % WRAP64 == last + 1;
    if last != 0 && n > last + 1 {
      assert Sub64(n, last + 1) == n - last - 1;
    }
  }

  /** What any command adds to the counter, for a producer that numbers as it likes: the numbers left
      out, and nothing when it repeats a number, goes back, or is the first. */
  lemma OverwritesCountGaps(c: Core, now: nat)
    requires c.pending.Some? && c.lastSeq < 0xFFFF_FFFF_FFFF_FFFF && c.pending.value.seqNo < WRAP64
    ensures var n := c.pending.value.seqNo;
            var skipped := if c.lastSeq != 0 && n > c.lastSeq + 1 then n - c.lastSeq - 1 else 0;
            Consume(c, now).overwrites
              == if skipped == 0 then c.overwrites else (c.overwrites + skipped) % 0x1_0000_0000_0000_0000
  {
    assert (c.lastSeq + 1) % WRAP64 == c.lastSeq + 1;
    var n := c.pending.value.seqNo;
    if n > c.lastSeq + 1 {
      assert Sub64(n, c.lastSeq + 1) == n - c.lastSeq - 1;
    }
  }

  lemma QuietCycleCounts(c: Core, p: Policy, now: nat)
    requires c.pending.None?
    ensures var d := Cycle(c, p, now).0;
            d.pending.None? && d.lastSeq == c.lastSeq && d.overwrites == c.overwrites
  {}

  lemma {:induction false} AccountedTick(h: History, p: Policy, now: nat)
    requires Accounted(h) && Numbered(h.submitted)
    ensures Accounted(Step(h, p, Tick(now)))
  {
    var r := Cycle(h.core, p, now).1;
    assert r.consumed == h.core.pending;
    hide Genuine, Upto, Cycle;
    var t := Step(h, p, Tick(now));
    assert t.log == h.log + [r] && t.log[..|t.log| - 1] == h.log;
    ConsumedInOrder(h.log, r, h.submitted, h.core.lastSeq);
    if h.core.pending.Some? {
      assert h.core.pending.value.seqNo == |h.submitted|;
      ConsumeCounts(h.core, p, now);
    } else {
      QuietCycleCounts(h.core, p, now);
    }
  }

  lemma {:induction false} AccountedStep(h: History, p: Policy, e: Event)
    requires Accounted(h) && Numbered(Step(h, p, e).submitted)
    ensures Accounted(Step(h, p, e))
  {
    match e
    case Submit(cmd) => AccountedSubmit(h, cmd);
    case Tick(now) => AccountedTick(h, p, now);
  }

  lemma ConsumedInOrder(log: seq<Record>, r: Record, submitted: seq<CommandSet>, last: nat)
    requires Genuine(log, submitted) && Upto(log, last)
    requires r.consumed.Some? ==> r.consumed.value in submitted && r.consumed.value.seqNo > last
    ensures Genuine(log + [r], submitted)
    ensures Upto(log + [r], if r.consumed.Some? then r.consumed.value.seqNo else last)
  {}

  lemma {:induction false} SubmittedGrows(h: History, p: Policy, es: seq<Event>)
    ensures h.submitted <= Run(h, p, es).submitted
    decreases |es|
  {
    if es != [] {
      SubmittedGrows(Step(h, p, es[0]), p, es[1..]);
    }
  }

  lemma {:induction false} AccountedRun(h: History, p: Policy, es: seq<Event>)
    requires Accounted(h) && Numbered(Run(h, p, es).submitted)
    ensures Accounted(Run(h, p, es))
    decreases |es|
  {
    if es != [] {
      var t := Step(h, p, es[0]);
      SubmittedGrows(t, p, es[1..]);
      assert Numbered(t.submitted) by {
        assert forall k :: 0 <= k < |t.submitted| ==> t.submitted[k] == Run(h, p, es).submitted[k];
      }
      AccountedStep(h, p, es[0]);
      AccountedRun(t, p, es[1..]);
    }
  }

  /** For a producer that numbers its commands from 1, in every interleaving of submits and ticks:
      from the first consumed command on, commands consumed plus overwrites make up the numbers from
      it to the last; and after a tick nothing is in flight, so these and the commands superseded
      before the first one are all that was submitted. Consumed commands are submitted ones, each
      consumed once and in order. */
  lemma CommandsAreConserved(blank: CommandSet, p: Policy, es: seq<Event>)
    requires Numbered(Run(Begin(blank), p, es).submitted)
    ensures var h := Run(Begin(blank), p, es);
            var first := FirstConsumed(h.log);
            && (first > 0 ==> Consumptions(h.log) + h.core.overwrites == h.core.lastSeq - first + 1)
            && (h.core.pending.None? && h.submitted != [] ==>
                  Consumptions(h.log) + h.core.overwrites + (first - 1) == |h.submitted|)
            && Genuine(h.log, h.submitted)
  {
    AccountedRun(Begin(blank), p, es);
  }

  lemma {:induction false} RunAppend(h: History, p: Policy, es: seq<Event>, e: Event)
    ensures Run(h, p, es + [e]) == Step(Run(h, p, es), p, e)
    decreases |es|
  {
    if es == [] {
      assert ([] + [e])[1..] == [];
    } else {
      assert (es + [e])[1..] == es[1..] + [e];
      RunAppend(Step(h, p, es[0]), p, es[1..], e);
    }
  }

  /** A tick leaves the mailbox empty, so `CommandsAreConserved` accounts for every submit there. */
  lemma TickEmptiesMailbox(blank: CommandSet, p: Policy, es: seq<Event>, now: nat)
    ensures Run(Begin(blank), p, es + [Tick(now)]).core.pending.None?
  {
    RunAppend(Begin(blank), p, es, Tick(now));
  }

  // ---------------------------------------------------------------- the timeout

  /** Tick times do not go back. */
  predicate Monotone(log: seq<Record>) {
    forall i, j :: 0 <= i <= j < |log| ==> log[i].now <= log[j].now
  }

  function LastConsumption(log: seq<Record>): (r: Option<nat>)
    ensures r.Some? ==> r.value < |log| && log[r.value].consumed.Some?
  {
    if log == [] then None
    else if log[|log| - 1].consumed.Some? then Some(|log| - 1)
    else LastConsumption(log[..|log| - 1])
  }

  /** What the last consumed command says about tick i: every tick applies it, and tick i fires
      when it is the first one more than the limit later. (A command consumed at time 0 is never
      applied: 0 stands for "no command yet".) */
  predicate TickRight(p: Policy, log: seq<Record>, i: nat)
    requires i < |log|
  {
    var last := LastConsumption(log[..i + 1]);
    if last.None? || log[last.value].now == 0 then
      log[i].applied.None? && !log[i].fired
    else
      var c := last.value;
      && log[i].applied == log[c].consumed
      && (log[i].fired <==>
            && p.timeoutMs != 0
            && log[i].now - log[c].now > p.timeoutMs * 1000000
            && forall k :: c <= k < i ==> log[k].now - log[c].now <= p.timeoutMs * 1000000)
  }

  predicate AllRight(p: Policy, log: seq<Record>) {
    forall i :: 0 <= i < |log| ==> TickRight(p, log, i)
  }

  predicate Watchful(h: History, p: Policy) {
    var (c, log) := (h.core, h.log);
    var last := LastConsumption(log);
    && (last.None? ==> c.lastNs == 0)
    && (last.Some? ==> c.lastNs == log[last.value].now && Some(c.lastCmd) == log[last.value].consumed)
    && (c.fired <==> Watching(c, p) && log != [] && log[|log| - 1].now - c.lastNs > p.timeoutMs * 1000000)
  }

  predicate Guarded(h: History, p: Policy) {
    AllRight(p, h.log) && Watchful(h, p)
  }

  /** What a tick does to the fields that the timeout reads. */
  lemma CycleFacts(h: History, p: Policy, now: nat) returns (t: History, r: Record)
    ensures t == Step(h, p, Tick(now)) && t.log == h.log + [r] && t.log[..|h.log|] == h.log && t.log[|h.log|] == r
    ensures r.now == now && r.consumed == h.core.pending
    ensures t.core.lastNs == if r.consumed.Some? then now else h.core.lastNs
    ensures t.core.lastCmd == if r.consumed.Some? then r.consumed.value else h.core.lastCmd
    ensures t.core.pending.None?
    ensures r.applied == if t.core.lastNs != 0 then Some(t.core.lastCmd) else None
    ensures var watching := p.timeoutMs != 0 && t.core.lastNs != 0;
            && r.fired == (watching && now - t.core.lastNs > p.timeoutMs * 1000000 && !h.core.fired)
            && t.core.fired == if watching then now - t.core.lastNs > p.timeoutMs * 1000000 else h.core.fired
  {
    t := Step(h, p, Tick(now));
    r := t.log[|h.log|];
    if h.core.pending.Some? {}
  }

  lemma {:induction false} TickRightGrows(p: Policy, log: seq<Record>, r: Record, i: nat)
    requires i < |log|
    ensures TickRight(p, log + [r], i) <==> TickRight(p, log, i)
  {
    assert (log + [r])[..i + 1] == log[..i + 1];
  }

  lemma {:induction false} AllRightGrows(p: Policy, log: seq<Record>, r: Record)
    requires AllRight(p, log) && TickRight(p, log + [r], |log|)
    ensures AllRight(p, log + [r])
  {
    hide TickRight;
    forall i | 0 <= i < |log|
      ensures TickRight(p, log + [r], i)
    {
      TickRightGrows(p, log, r, i);
    }
  }

  lemma {:induction false} GuardedStep(h: History, p: Policy, e: Event)
    requires Guarded(h, p) && Monotone(Step(h, p, e).log)
    ensures Guarded(Step(h, p, e), p)
  {
    hide TickRight, AllRight, Monotone;
    match e
    case Submit(cmd) =>
    case Tick(now) =>
      hide Step, Cycle, Watchful;
      var t, r := CycleFacts(h, p, now);
      NewTickRight(h, p, now);
      NewGuard(h, p, now);
      AllRightGrows(p, h.log, r);
  }

  lemma NoStepBack(log: seq<Record>, r: Record)
    requires Monotone(log + [r])
    ensures log != [] ==> log[|log| - 1].now <= r.now
  {
    if log != [] {
      assert (log + [r])[|log| - 1] == log[|log| - 1] && (log + [r])[|log|] == r;
    }
  }

  lemma {:induction false} NewGuard(h: History, p: Policy, now: nat)
    requires Guarded(h, p) && Monotone(Step(h, p, Tick(now)).log)
    ensures Watchful(Step(h, p, Tick(now)), p)
  {
    hide Step, Cycle, TickRight, AllRight, Monotone;
    var t, r := CycleFacts(h, p, now);
    var last := LastConsumption(h.log);
    assert last.Some? ==> t.log[last.value] == h.log[last.value];
    NoStepBack(h.log, r);
  }

  lemma {:induction false} NewTickRight(h: History, p: Policy, now: nat)
    requires Guarded(h, p) && Monotone(Step(h, p, Tick(now)).log)
    ensures TickRight(p, Step(h, p, Tick(now)).log, |h.log|)
  {
    hide Step, Cycle, AllRight;
    var t, r := CycleFacts(h, p, now);
    NewGuard(h, p, now);
    var n := |h.log|;
    assert t.log[..n + 1] == t.log;
    var last := LastConsumption(t.log);
    if last.Some? && t.log[last.value].now != 0 && last.value < n {
      assert last == LastConsumption(h.log);
      assert forall k :: last.value <= k < n ==> t.log[k].now <= t.log[n - 1].now;
    }
  }

  lemma {:induction false} MonotonePrefix(h: History, p: Policy, es: seq<Event>)
    requires Monotone(Run(h, p, es).log)
    ensures Monotone(h.log)
    decreases |es|
  {
    if es != [] {
      var t := Step(h, p, es[0]);
      MonotonePrefix(t, p, es[1..]);
      assert forall i :: 0 <= i < |h.log| ==> h.log[i] == t.log[i];
    }
  }

  lemma {:induction false} GuardedRun(h: History, p: Policy, es: seq<Event>)
    requires Guarded(h, p) && Monotone(Run(h, p, es).log)
    ensures Guarded(Run(h, p, es), p)
    decreases |es|
  {
    if es != [] {
      MonotonePrefix(Step(h, p, es[0]), p, es[1..]);
      GuardedStep(h, p, es[0]);
      GuardedRun(Step(h, p, es[0]), p, es[1..]);
    }
  }

  lemma {:induction false} LastConsumptionBetween(log: seq<Record>, i: nat, j: nat)
    requires i <= j < |log|
    requires var last := LastConsumption(log[..j + 1]); last.Some? && last.value <= i
    ensures LastConsumption(log[..i + 1]) == LastConsumption(log[..j + 1])
    decreases j - i
  {
    if i < j {
      assert log[..j + 1][..j] == log[..j];
      assert log[..j + 1][j] == log[j];
      LastConsumptionBetween(log, i, j - 1);
    }
  }

  /** Over any run with tick times that do not go back: at every tick the retained command and the
      timeout are right, and between two firings a command was consumed. */
  lemma TimeoutFiresOncePerSilence(blank: CommandSet, p: Policy, es: seq<Event>)
    requires Monotone(Run(Begin(blank), p, es).log)
    ensures var log := Run(Begin(blank), p, es).log;
            && (forall i :: 0 <= i < |log| ==> TickRight(p, log, i))
            && (forall i, j :: 0 <= i < j < |log| && log[i].fired && log[j].fired ==>
                  exists c :: i < c <= j && log[c].consumed.Some?)
  {
    GuardedRun(Begin(blank), p, es);
    var log := Run(Begin(blank), p, es).log;
    forall i, j | 0 <= i < j < |log| && log[i].fired && log[j].fired
      ensures exists c :: i < c <= j && log[c].consumed.Some?
    {
      FiringsAreSeparated(p, log, i, j);
    }
  }

  lemma {:induction false} FiringsAreSeparated(p: Policy, log: seq<Record>, i: nat, j: nat)
    requires i < j < |log| && TickRight(p, log, i) && TickRight(p, log, j) && log[i].fired && log[j].fired
    ensures exists c :: i < c <= j && log[c].consumed.Some?
  {
    var c := LastConsumption(log[..j + 1]).value;
    assert log[..j + 1][c] == log[c];
    if c <= i {
      LastConsumptionBetween(log, i, j);
      assert false;
    }
  }

  // ---------------------------------------------------------------- the latched stop

  /** A firing that stops the bus, with no other command consumed since than stops. */
  predicate StopStands(p: Policy, log: seq<Record>) {
    p.onTimeout.Estop?
    && exists i :: 0 <= i < |log| && log[i].fired
         && forall j :: i < j < |log| && log[j].consumed.Some? ==> log[j].consumed.value.estop
  }

  lemma {:induction false} StopStandsStep(p: Policy, log: seq<Record>, r: Record)
    ensures StopStands(p, log + [r]) <==>
              || (p.onTimeout.Estop? && r.fired)
              || (StopStands(p, log) && (r.consumed.Some? ==> r.consumed.value.estop))
  {
    var l := log + [r];
    assert l[|log|] == r && forall k :: 0 <= k < |log| ==> l[k] == log[k];
    if StopStands(p, log) && (r.consumed.Some? ==> r.consumed.value.estop) {
      var i :| 0 <= i < |log| && log[i].fired
               && forall j :: i < j < |log| && log[j].consumed.Some? ==> log[j].consumed.value.estop;
      assert l[i].fired;
    }
    if p.onTimeout.Estop? && r.fired {
      assert l[|log|].fired;
    }
    if StopStands(p, l) && !r.fired {
      var i :| 0 <= i < |l| && l[i].fired
               && forall j :: i < j < |l| && l[j].consumed.Some? ==> l[j].consumed.value.estop;
      assert i < |log| && log[i].fired;
      assert forall j :: i < j < |log| ==> l[j] == log[j];
    }
  }

  lemma {:induction false} LatchStep(h: History, p: Policy, e: Event)
    requires h.core.latched <==> StopStands(p, h.log)
    ensures Step(h, p, e).core.latched <==> StopStands(p, Step(h, p, e).log)
  {
    hide StopStands;
    match e
    case Submit(cmd) =>
    case Tick(now) => StopStandsStep(p, h.log, Cycle(h.core, p, now).1);
  }

  lemma {:induction false} LatchRun(h: History, p: Policy, es: seq<Event>)
    requires h.core.latched <==> StopStands(p, h.log)
    ensures Run(h, p, es).core.latched <==> StopStands(p, Run(h, p, es).log)
    decreases |es|
  {
    if es != [] {
      hide StopStands, Step;
      LatchStep(h, p, es[0]);
      LatchRun(Step(h, p, es[0]), p, es[1..]);
    }
  }

  /** Over any run the group reports a latched stop exactly while the timeout has stopped it and
      nothing but stops was consumed since. */
  lemma LatchedIffStopStands(blank: CommandSet, p: Policy, es: seq<Event>)
    ensures Run(Begin(blank), p, es).core.latched <==> StopStands(p, Run(Begin(blank), p, es).log)
  {
    LatchRun(Begin(blank), p, es);
  }

  // ---------------------------------------------------------------- how often it fires

  function Firings(log: seq<Record>): nat {
    if log == [] then 0 else Firings(log[..|log| - 1]) + (if log[|log| - 1].fired then 1 else 0)
  }

  /** A command consumed and not yet given up on is a firing still to come. */
  predicate Budgeted(h: History) {
    Firings(h.log) + (if h.core.fired || h.core.lastNs == 0 then 0 else 1) <= Consumptions(h.log)
    && (h.core.lastNs == 0 ==> !h.core.fired)
  }

  lemma {:induction false} BudgetedStep(h: History, p: Policy, e: Event)
    requires Budgeted(h) && Guarded(h, p) && Monotone(Step(h, p, e).log)
    ensures Budgeted(Step(h, p, e))
  {
    match e
    case Submit(cmd) =>
    case Tick(now) =>
      hide Step, Cycle, TickRight, AllRight, Monotone;
      var t, r := CycleFacts(h, p, now);
      NoStepBack(h.log, r);
  }

  lemma {:induction false} BudgetedRun(h: History, p: Policy, es: seq<Event>)
    requires Budgeted(h) && Guarded(h, p) && Monotone(Run(h, p, es).log)
    ensures Budgeted(Run(h, p, es))
    decreases |es|
  {
    if es != [] {
      hide Step, Guarded, Budgeted;
      MonotonePrefix(Step(h, p, es[0]), p, es[1..]);
      GuardedStep(h, p, es[0]);
      BudgetedStep(h, p, es[0]);
      BudgetedRun(Step(h, p, es[0]), p, es[1..]);
    }
  }

  /** The timeout never fires more often than commands were consumed. */
  lemma FiringsAtMostConsumptions(blank: CommandSet, p: Policy, es: seq<Event>)
    requires Monotone(Run(Begin(blank), p, es).log)
    ensures var log := Run(Begin(blank), p, es).log; Firings(log) <= Consumptions(log)
  {
    BudgetedRun(Begin(blank), p, es);
  }

  /** No silence goes unnoticed: a tick more than the limit after the last consumed command means
      that the timeout has fired since that command. */
  lemma {:induction false} SilenceIsNoticed(p: Policy, log: seq<Record>, i: nat)
    requires i < |log| && forall k :: 0 <= k < |log| ==> TickRight(p, log, k)
    requires p.timeoutMs != 0
    requires var last := LastConsumption(log[..i + 1]);
             last.Some? && log[last.value].now != 0 && log[i].now - log[last.value].now > p.timeoutMs * 1000000
    ensures exists k :: LastConsumption(log[..i + 1]).value < k <= i && log[k].fired
    decreases i
  {
    var c := LastConsumption(log[..i + 1]).value;
    if k :| c <= k < i && log[k].now - log[c].now > p.timeoutMs * 1000000 {
      LastConsumptionBetween(log, k, i);
      SilenceIsNoticed(p, log, k);
    } else {
      assert TickRight(p, log, i);
      assert log[i].fired && c < i;
    }
  }

  lemma CountLast(log: seq<Record>, r: Record)
    ensures Firings(log + [r]) == Firings(log) + (if r.fired then 1 else 0)
    ensures Consumptions(log + [r]) == Consumptions(log) + (if r.consumed.Some? then 1 else 0)
  {
    assert (log + [r])[..|log|] == log;
  }

  /** One silence that the timeout has noticed; a second turn of the clock notices it again. */
  lemma NoticedAgain(h: History, p: Policy, late: nat) returns (t: History)
    requires p.timeoutMs != 0 && late == p.timeoutMs * 1000000 + 2
    requires h.core.pending.None? && h.core.lastNs == 1
    ensures t == Step(Step(h, p, Tick(1)), p, Tick(late))
    ensures Firings(t.log) == Firings(h.log) + 1 && Consumptions(t.log) == Consumptions(h.log)
  {
    hide Cycle, Step, Firings, Consumptions;
    var h1, r1 := CycleFacts(h, p, 1);
    CountLast(h.log, r1);
    var h2, r2 := CycleFacts(h1, p, late);
    CountLast(h1.log, r2);
    t := h2;
  }

  lemma FirstConsumption(blank: CommandSet, cmd: CommandSet, p: Policy) returns (h: History)
    ensures h == Step(Step(Begin(blank), p, Submit(cmd)), p, Tick(1))
    ensures h.core.pending.None? && h.core.lastNs == 1 && !h.core.fired
    ensures Firings(h.log) == 0 && Consumptions(h.log) == 1
  {
    var h0 := Step(Begin(blank), p, Submit(cmd));
    assert h0.core == Start(blank).(pending := Some(cmd)) && h0.log == [];
    assert Firings([]) == Consumptions([]) == 0;
    hide Cycle, Step, Firings, Consumptions;
    var h1, r1 := CycleFacts(h0, p, 1);
    CountLast(h0.log, r1);
    h := h1;
  }

  lemma RunFive(h: History, p: Policy, a: Event, b: Event, c: Event, d: Event, e: Event)
    ensures Run(h, p, [a, b, c, d, e]) == Step(Step(Step(Step(Step(h, p, a), p, b), p, c), p, d), p, e)
  {
    hide Run, Step;
    RunAppend(h, p, [], a);
    RunAppend(h, p, [a], b);
    RunAppend(h, p, [a, b], c);
    RunAppend(h, p, [a, b, c], d);
    RunAppend(h, p, [a, b, c, d], e);
    assert [] + [a] == [a] && [a] + [b] == [a, b] && [a, b] + [c] == [a, b, c] && [a, b, c] + [d] == [a, b, c, d];
    assert [a, b, c, d] + [e] == [a, b, c, d, e];
    RunNone(h, p);
  }

  lemma RunNone(h: History, p: Policy)
    ensures Run(h, p, []) == h
  {}

  /** Why tick times must not go back: a clock that steps back and forth makes one silence fire
      twice. */
  lemma ClockSteppingBackFiresTwice(blank: CommandSet, cmd: CommandSet, p: Policy)
    requires p.timeoutMs != 0
    ensures var late := p.timeoutMs * 1000000 + 2;
            var log := Run(Begin(blank), p, [Submit(cmd), Tick(1), Tick(late), Tick(1), Tick(late)]).log;
            Firings(log) == 2 && Consumptions(log) == 1
  {
    var late := p.timeoutMs * 1000000 + 2;
    RunFive(Begin(blank), p, Submit(cmd), Tick(1), Tick(late), Tick(1), Tick(late));
    hide Run, Cycle, Step, Firings, Consumptions;
    var h1 := FirstConsumption(blank, cmd, p);
    var h2, r2 := CycleFacts(h1, p, late);
    CountLast(h1.log, r2);
    var h4 := NoticedAgain(h2, p, late);
  }
}
