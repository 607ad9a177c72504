/**
 The bus budget: `plan_bus` adds up frames per tick; here its result is tied to frames per second
 in closed form, and lighter inputs are shown to cost no more. Doubles are reals.
 */
module BusPlan {
  import opened Config

  const MAX_BROADCAST_NODE_ID: nat := 7

  datatype Input = Input(
    joints: nat, rate: real, fd: bool, nominal: nat, data: nat, maxNodeId: nat, feedback: FeedbackPolicy,
    heartbeatMs: nat, pollMs: nat, useBroadcast: bool, maxLoad: real, extra: real)

  /** `fix` stands for the advice kFixBusPlanning. */
  datatype Plan = Plan(
    feasible: bool, warn: bool, fix: bool, load: real, tx: real, rx: real, feedbackHz: real,
    usBroadcast: real, usUnicast: real, usHeartbeat: real, usPerTick: real)

  // ---------------------------------------------------------------- one frame

  function Ceil(x: real): int {
    -((-x).Floor)
  }

  function StuffBits(stuffable: real): real {
    Ceil(stuffable / 5.0) as real
  }

  /** Classic frames: all bits at the nominal rate. */
  function ClassicBits(bytes: nat): real {
    67.0 + 8.0 * bytes as real + StuffBits(39.0 + 8.0 * bytes as real + 15.0)
  }

  function DataBits(bytes: nat): real {
    var crc := if bytes <= 16 then 17.0 else 21.0;
    8.0 * bytes as real + crc + StuffBits(8.0 * bytes as real + crc)
  }

  /** A data rate of 0 stands for the nominal rate. */
  function DataRate(nominal: nat, data: nat): nat {
    if data != 0 then data else nominal
  }

  function FrameUs(bytes: nat, fd: bool, nominal: nat, data: nat): real {
    if nominal == 0 then 0.0
    else if !fd then ClassicBits(bytes) / nominal as real * 1000000.0
    else
      var arbitration := 40.0 + StuffBits(40.0);
      (arbitration / nominal as real
       + DataBits(bytes) / DataRate(nominal, data) as real
       + 13.0 / nominal as real) * 1000000.0
  }

  lemma CeilOfFifths(n: nat)
    ensures StuffBits(n as real) == ((n + 4) / 5) as real
  {
    var q, r := n / 5, n % 5;
    assert n as real / 5.0 == q as real + r as real / 5.0;
    assert -(n as real / 5.0) == (-q) as real - r as real / 5.0;
    assert Ceil(n as real / 5.0) == if r == 0 then q else q + 1;
  }

  /** A frame in whole bits: one stuff bit for every five bits begun, and on an FD bus the data and
      their checksum at the data rate. */
  lemma FrameInBits(bytes: nat, nominal: nat, data: nat)
    requires nominal > 0
    ensures var classic := 67 + 8 * bytes + (8 * bytes + 58) / 5;
            FrameUs(bytes, false, nominal, data) == classic as real / nominal as real * 1000000.0
    ensures var body := 8 * bytes + (if bytes <= 16 then 17 else 21);
            var fast := body + (body + 4) / 5;
            var rate := if data != 0 then data else nominal;
            FrameUs(bytes, true, nominal, data)
              == (48 as real / nominal as real + fast as real / rate as real + 13 as real / nominal as real) * 1000000.0
  {
    CeilOfFifths(40);
    CeilOfFifths(54 + 8 * bytes);
    CeilOfFifths(8 * bytes + 17);
    CeilOfFifths(8 * bytes + 21);
    hide StuffBits;
  }

  function BroadcastPayload(maxNodeId: nat): nat {
    (maxNodeId + 1) * 8
  }

  // ---------------------------------------------------------------- frames per second

  predicate Usable(i: Input) {
    i.joints > 0 && i.rate > 0.0
  }

  function MaxId(i: Input): nat {
    if i.maxNodeId != 0 then i.maxNodeId else i.joints
  }

  predicate CanBroadcast(i: Input) {
    i.useBroadcast && MaxId(i) <= MAX_BROADCAST_NODE_ID
  }

  function UsBroadcast(i: Input): real { FrameUs(BroadcastPayload(MaxId(i)), i.fd, i.nominal, i.data) }
  function UsUnicast(i: Input): real { FrameUs(8, i.fd, i.nominal, i.data) }
  function UsHeartbeat(i: Input): real { FrameUs(if i.fd then 18 else 8, i.fd, i.nominal, i.data) }

  function Broadcasts(i: Input): real {
    if CanBroadcast(i) then i.rate else 0.0
  }

  /** Unicast frames per second, requests and answers. */
  function Unicasts(i: Input): real {
    var n := i.joints as real;
    match i.feedback
    case UnicastOnly => if CanBroadcast(i) then (2.0 * n - 1.0) * i.rate else 2.0 * n * i.rate
    case UnicastPoll => if CanBroadcast(i) then 2.0 * i.rate else 2.0 * n * i.rate
    case BroadcastHeartbeat =>
      if !CanBroadcast(i) then n * i.rate
      else if i.pollMs > 0 then 2000.0 / i.pollMs as real else 0.0
    case HeartbeatOnly => if CanBroadcast(i) then 0.0 else n * i.rate
  }

  /** The answers among them. */
  function Answers(i: Input): real {
    match i.feedback
    case UnicastOnly => i.joints as real * i.rate
    case UnicastPoll => if CanBroadcast(i) then i.rate else i.joints as real * i.rate
    case BroadcastHeartbeat => if CanBroadcast(i) && i.pollMs > 0 then 1000.0 / i.pollMs as real else 0.0
    case HeartbeatOnly => 0.0
  }

  function Heartbeats(i: Input): real {
    if i.heartbeatMs != 0 then i.joints as real * 1000.0 / i.heartbeatMs as real else 0.0
  }

  /** The bus time that so many frames take. */
  function BusTime(frames: real, us: real): real {
    frames * us
  }

  /** The part of each second for which the bus is busy. */
  function Load(i: Input): real {
    (BusTime(Broadcasts(i), UsBroadcast(i)) + BusTime(Unicasts(i), UsUnicast(i))
     + BusTime(Heartbeats(i), UsHeartbeat(i)) + BusTime(i.extra, UsUnicast(i))) / 1000000.0
  }

  /** Feedback per joint: the faster of polling and heartbeats. */
  function FeedbackHz(i: Input): real
    requires Usable(i)
  {
    var n := i.joints as real;
    var beats := if i.heartbeatMs != 0 then 1000.0 / i.heartbeatMs as real else 0.0;
    match i.feedback
    case UnicastOnly => i.rate
    case UnicastPoll => Max(if CanBroadcast(i) then i.rate / n else 0.0, beats)
    case BroadcastHeartbeat =>
      Max(if CanBroadcast(i) && i.pollMs > 0 then 1000.0 / i.pollMs as real / n else 0.0, beats)
    case HeartbeatOnly => beats
  }

  function Max(a: real, b: real): real { if a < b then b else a }

  // ---------------------------------------------------------------- plan_bus

  lemma PollsPerSecond(rate: real, p: real)
    requires rate > 0.0 && p > 0.0
    ensures p / (1000.0 / rate) > 0.0
    ensures 1.0 / (p / (1000.0 / rate)) * rate == 1000.0 / p
  {
    var every := p / (1000.0 / rate);
    assert every == p * rate / 1000.0;
    assert 1.0 / every == 1000.0 / (p * rate);
  }

  lemma PollsPerJoint(rate: real, p: real, n: real)
    requires rate > 0.0 && p > 0.0 && n > 0.0
    ensures p / (1000.0 / rate) > 0.0 && n * (p / (1000.0 / rate)) > 0.0
    ensures rate / (n * (p / (1000.0 / rate))) == 1000.0 / p / n
  {
    var every := p / (1000.0 / rate);
    assert every == p * rate / 1000.0;
    assert n * every == n * p * rate / 1000.0;
    assert rate / (n * every) == 1000.0 / (n * p);
    assert 1000.0 / (n * p) == 1000.0 / p / n;
  }

  lemma FramesOfJoints(n: real, rate: real)
    ensures n * rate + n * rate == 2.0 * n * rate
    ensures n * rate + n * rate - rate == (2.0 * n - 1.0) * rate
  {}

  lemma PolledTick(rate: real, polls: real)
    ensures (1.0 + polls) * rate + polls * rate - rate == 2.0 * (polls * rate)
  {}

  /** The frames of one tick, requests and answers apart. */
  method PerTick(i: Input) returns (tx: real, rx: real)
    requires Usable(i)
    ensures tx >= 0.0 && rx >= 0.0
    ensures tx * i.rate + rx * i.rate - Broadcasts(i) == Unicasts(i) && rx * i.rate == Answers(i)
  {
    hide CanBroadcast;
    var n := i.joints as real;
    tx, rx := 0.0, 0.0;
    FramesOfJoints(n, i.rate);
    match i.feedback {
      case UnicastOnly =>
        tx, rx := n, n;
      case UnicastPoll =>
        if CanBroadcast(i) {
          tx, rx := 1.0 + 1.0, 1.0;
        } else {
          tx, rx := n, n;
        }
      case BroadcastHeartbeat =>
        tx := if CanBroadcast(i) then 1.0 else n;
        if CanBroadcast(i) && i.pollMs > 0 {
          PollsPerSecond(i.rate, i.pollMs as real);
          var tickMs := 1000.0 / i.rate;
          var pollEvery := i.pollMs as real / tickMs;
          var polls := 1.0 / pollEvery;
          PolledTick(i.rate, polls);
          tx, rx := tx + polls, rx + polls;
        }
      case HeartbeatOnly =>
        tx := if CanBroadcast(i) then 1.0 else n;
    }
  }

  /** How often a joint is polled. */
  method PollRate(i: Input) returns (pollHz: real)
    requires Usable(i)
    ensures pollHz == match i.feedback
                      case UnicastPoll => if CanBroadcast(i) then i.rate / i.joints as real else 0.0
                      case BroadcastHeartbeat =>
                        if CanBroadcast(i) && i.pollMs > 0 then 1000.0 / i.pollMs as real / i.joints as real else 0.0
                      case _ => 0.0
  {
    hide CanBroadcast;
    var n := i.joints as real;
    pollHz := 0.0;
    if i.feedback.UnicastPoll? && CanBroadcast(i) {
      pollHz := i.rate / n;
    }
    if i.feedback.BroadcastHeartbeat? && CanBroadcast(i) && i.pollMs > 0 {
      PollsPerJoint(i.rate, i.pollMs as real, n);
      var tickMs := 1000.0 / i.rate;
      var pollEvery := i.pollMs as real / tickMs;
      pollHz := i.rate / (n * pollEvery);
    }
  }

  /** The budget of one bus. Frames are conserved (broadcast, unicast and heartbeat frames are what
      is sent and received), and so is bus time (ticks and foreign frames make up the load). */
  method PlanBus(i: Input) returns (r: Plan)
    ensures i.joints == 0 || i.rate <= 0.0 ==> r == Plan(false, false, true, 0.0, 0.0, 0.0, 0.0, 0.0, 0.0, 0.0, 0.0)
    ensures i.joints > 0 && i.rate > 0.0 ==>
              && r.tx + r.rx == Broadcasts(i) + Unicasts(i) + Heartbeats(i)
              && r.rx == Answers(i) + Heartbeats(i)
              && r.load == Load(i)
              && r.load * 1000000.0 == BusTime(i.rate, r.usPerTick) + BusTime(i.extra, r.usUnicast)
              && r.usBroadcast == UsBroadcast(i) && r.usUnicast == UsUnicast(i) && r.usHeartbeat == UsHeartbeat(i)
              && r.feedbackHz == FeedbackHz(i)
              && (r.feasible <==> Load(i) <= i.maxLoad)
              && (r.warn <==> i.maxLoad * 0.75 < Load(i) <= i.maxLoad)
              && (r.fix <==> !r.feasible || r.warn || (i.useBroadcast && !CanBroadcast(i)))
  {
    hide FrameUs, Unicasts, BusTime;
    r := Plan(false, false, false, 0.0, 0.0, 0.0, 0.0, 0.0, 0.0, 0.0, 0.0);
    if i.joints == 0 || i.rate <= 0.0 {
      return r.(fix := true);
    }
    var b := FrameUs(BroadcastPayload(MaxId(i)), i.fd, i.nominal, i.data);
    var u := FrameUs(8, i.fd, i.nominal, i.data);
    var h := FrameUs(if i.fd then 18 else 8, i.fd, i.nominal, i.data);
    var txPerTick, rxPerTick := PerTick(i);
    var pollHz := PollRate(i);
    var beats := if i.heartbeatMs != 0 then i.joints as real * 1000.0 / i.heartbeatMs as real else 0.0;
    var tx, polled := txPerTick * i.rate, rxPerTick * i.rate;
    var rx := polled + beats;
    var bcast := if CanBroadcast(i) then 1.0 * i.rate else 0.0;
    var unicast := tx + polled - bcast;
    var load := (BusTime(bcast, b) + BusTime(unicast, u) + BusTime(beats, h) + BusTime(i.extra, u)) / 1000000.0;
    var usPerTick := (BusTime(bcast, b) + BusTime(unicast, u)) / i.rate + BusTime(beats, h) / i.rate;
    TickShare(i.rate, BusTime(bcast, b) + BusTime(unicast, u), BusTime(beats, h));
    var beatsHz := if i.heartbeatMs != 0 then 1000.0 / i.heartbeatMs as real else 0.0;
    var feedbackHz := match i.feedback
      case UnicastOnly => i.rate
      case UnicastPoll => Max(pollHz, beatsHz)
      case BroadcastHeartbeat => Max(pollHz, beatsHz)
      case HeartbeatOnly => beatsHz;
    var feasible := load <= i.maxLoad;
    var warn := feasible && load > i.maxLoad * 0.75;
    var broken := !CanBroadcast(i) && i.useBroadcast && MaxId(i) > MAX_BROADCAST_NODE_ID;
    r := Plan(feasible, warn, if broken || !feasible then true else warn, load, tx, rx, feedbackHz, b, u, h, usPerTick);
  }

  lemma TickShare(rate: real, x: real, y: real)
    requires rate > 0.0
    ensures BusTime(rate, x / rate + y / rate) == x + y
  {
    var p, q := x / rate, y / rate;
    assert rate * p == x && rate * q == y;
    assert rate * (p + q) == rate * p + rate * q;
  }

  // ---------------------------------------------------------------- what the figures are

  /** The feedback rate is the heartbeats' or the polling's, whichever is faster; a bus that answers
      every tick has the rate of the ticks. */
  lemma FeedbackIsTheFaster(i: Input)
    requires Usable(i)
    ensures var beats := if i.heartbeatMs == 0 then 0.0 else 1000.0 / i.heartbeatMs as real;
            var polls := if !CanBroadcast(i) then 0.0
                         else if i.feedback.UnicastPoll? then i.rate / i.joints as real
                         else if i.feedback.BroadcastHeartbeat? && i.pollMs > 0
                              then 1000.0 / i.pollMs as real / i.joints as real
                         else 0.0;
            && (i.feedback.UnicastOnly? ==> FeedbackHz(i) == i.rate)
            && (!i.feedback.UnicastOnly? ==>
                  && FeedbackHz(i) >= beats && FeedbackHz(i) >= polls
                  && (FeedbackHz(i) == beats || FeedbackHz(i) == polls))
  {
    hide CanBroadcast;
    assert i.heartbeatMs != 0 ==> 1000.0 / i.heartbeatMs as real > 0.0;
  }

  /** Half of the unicast frames are answers, but for the frame per tick that a broadcast saves; only
      commands sent one by one where heartbeats are to answer go unanswered. */
  lemma EveryRequestIsAnswered(i: Input)
    ensures i.feedback.UnicastOnly? && CanBroadcast(i) ==> Unicasts(i) + i.rate == 2.0 * Answers(i)
    ensures (i.feedback.UnicastOnly? && !CanBroadcast(i)) || i.feedback.UnicastPoll? ==>
              Unicasts(i) == 2.0 * Answers(i)
    ensures i.feedback.BroadcastHeartbeat? && CanBroadcast(i) ==> Unicasts(i) == 2.0 * Answers(i)
    ensures i.feedback.HeartbeatOnly? || (i.feedback.BroadcastHeartbeat? && !CanBroadcast(i)) ==> Answers(i) == 0.0
  {
    hide CanBroadcast;
    FramesOfJoints(i.joints as real, i.rate);
  }

  /** Broadcasting needs every node id within 7; without a configured highest one the ids are taken
      to be 1 to the number of joints. */
  lemma BroadcastsUpToSeven(i: Input)
    ensures CanBroadcast(i) <==> i.useBroadcast && (if i.maxNodeId == 0 then i.joints else i.maxNodeId) <= 7
  {}

  /** Six joints at 1 kHz on an FD bus of 1 and 5 Mbit/s, as in the design's comparison. */
  const SIX: Input :=
    Input(6, 1000.0, true, 1000000, 5000000, 6, UnicastOnly, 0, 0, true, 0.6, 0.0)

  lemma FastFrame(bytes: nat, bits: nat)
    requires bits == 8 * bytes + (if bytes <= 16 then 17 else 21)
    ensures FrameUs(bytes, true, 1000000, 5000000) == 61.0 + (bits + (bits + 4) / 5) as real / 5.0
    ensures FrameUs(bytes, false, 1000000, 5000000) == (67 + 8 * bytes + (8 * bytes + 58) / 5) as real
  {
    FrameInBits(bytes, 1000000, 5000000);
    hide FrameUs;
  }

  lemma SixFrames()
    ensures UsBroadcast(SIX) == 173.6 && UsUnicast(SIX) == 80.6 && UsHeartbeat(SIX) == 100.6
    ensures UsBroadcast(SIX.(maxNodeId := 7)) == 189.0
    ensures UsBroadcast(SIX.(fd := false)) == 616.0 && UsUnicast(SIX.(fd := false)) == 155.0
  {
    hide FrameUs;
    FastFrame(64, 533);
    FastFrame(56, 469);
    FastFrame(8, 81);
    FastFrame(18, 165);
  }

  /** The load from the three frame rates and frame times. */
  lemma LoadFrom(i: Input, b: real, u: real, h: real, broadcasts: real, unicasts: real, beats: real)
    requires CanBroadcast(i) ==> UsBroadcast(i) == b
    requires UsUnicast(i) == u && (beats != 0.0 ==> UsHeartbeat(i) == h)
    requires Broadcasts(i) == broadcasts && Unicasts(i) == unicasts && Heartbeats(i) == beats
    ensures Load(i) * 1000000.0 == broadcasts * b + unicasts * u + beats * h + i.extra * u
  {
    hide FrameUs, Unicasts, Heartbeats;
    assert broadcasts == 0.0 || CanBroadcast(i);
    assert 0.0 * UsBroadcast(i) == 0.0 && 0.0 * UsHeartbeat(i) == 0.0;
    assert Load(i) == (broadcasts * UsBroadcast(i) + unicasts * u + beats * UsHeartbeat(i) + i.extra * u) / 1000000.0;
  }

  /** The loads that the design compares, to the digit: unicast only is beyond the bus, and a classic
      bus cannot do it at all. */
  lemma UnicastScenarios()
    ensures Load(SIX) == 1.0602 && FeedbackHz(SIX) == 1000.0
    ensures var beat := SIX.(heartbeatMs := 5);
            && Load(beat) == 1.18092 && FeedbackHz(beat) == 1000.0
            && Answers(beat) + Heartbeats(beat) == 7200.0
            && Broadcasts(beat) + Unicasts(beat) - Answers(beat) == 6000.0
    ensures Load(SIX.(fd := false)) == 2.321
  {
    hide FrameUs, Load;
    SixFrames();
    LoadFrom(SIX, 173.6, 80.6, 100.6, 1000.0, 11000.0, 0.0);
    LoadFrom(SIX.(heartbeatMs := 5), 173.6, 80.6, 100.6, 1000.0, 11000.0, 1200.0);
    LoadFrom(SIX.(fd := false), 616.0, 155.0, 155.0, 1000.0, 11000.0, 0.0);
  }

  /** Polling and heartbeats fit. */
  lemma FeedbackScenarios()
    ensures var poll := SIX.(feedback := UnicastPoll, heartbeatMs := 10);
            Load(poll) == 0.39516 && FeedbackHz(poll) == 1000.0 / 6.0
    ensures var beat := SIX.(feedback := BroadcastHeartbeat, heartbeatMs := 5);
            Load(beat) == 0.29432 && FeedbackHz(beat) == 200.0
    ensures var both := SIX.(feedback := BroadcastHeartbeat, pollMs := 10);
            Load(both) == 0.18972 && FeedbackHz(both) == 100.0 / 6.0
    ensures Load(SIX.(feedback := HeartbeatOnly, extra := 100.0)) == 0.18166
  {
    hide FrameUs, Load;
    SixFrames();
    var poll := SIX.(feedback := UnicastPoll, heartbeatMs := 10);
    LoadFrom(poll, 173.6, 80.6, 100.6, 1000.0, 2000.0, 600.0);
    var beat := SIX.(feedback := BroadcastHeartbeat, heartbeatMs := 5);
    LoadFrom(beat, 173.6, 80.6, 100.6, 1000.0, 0.0, 1200.0);
    var both := SIX.(feedback := BroadcastHeartbeat, pollMs := 10);
    LoadFrom(both, 173.6, 80.6, 100.6, 1000.0, 200.0, 0.0);
    LoadFrom(SIX.(feedback := HeartbeatOnly, extra := 100.0), 173.6, 80.6, 100.6, 1000.0, 0.0, 0.0);
  }

  /** Beyond the broadcast bitmap every joint is sent its own frame. */
  lemma EightJointScenario()
    ensures var eight := SIX.(joints := 8, maxNodeId := 8, feedback := HeartbeatOnly, heartbeatMs := 5);
            Load(eight) == 0.80576 && FeedbackHz(eight) == 200.0
  {
    hide FrameUs, Load;
    SixFrames();
    var eight := SIX.(joints := 8, maxNodeId := 8, feedback := HeartbeatOnly, heartbeatMs := 5);
    LoadFrom(eight, 0.0, 80.6, 100.6, 0.0, 8000.0, 1600.0);
  }

  // ---------------------------------------------------------------- lighter is cheaper

  lemma Products(a: real, b: real, x: real, y: real)
    requires 0.0 <= a <= b && 0.0 <= x <= y
    ensures 0.0 <= BusTime(a, x) <= BusTime(b, y)
  {
    assert a * x <= a * y <= b * y;
  }

  lemma Quotients(x: real, y: real, a: real, b: real)
    requires 0.0 <= x <= y && 0.0 < b <= a
    ensures 0.0 <= x / a <= y / b
  {
    assert x / a <= y / a;
    assert y / a <= y / b by {
      assert y / a == y / b * (b / a);
      assert b / a <= 1.0;
    }
  }

  lemma CeilGrows(x: real, y: real)
    requires 0.0 <= x <= y
    ensures 0 <= Ceil(x) <= Ceil(y)
  {
    assert (-y).Floor <= (-x).Floor <= 0;
  }

  lemma StuffGrows(x: real, y: real)
    requires 0.0 <= x <= y
    ensures 0.0 <= StuffBits(x) <= StuffBits(y)
  {
    CeilGrows(x / 5.0, y / 5.0);
    hide Ceil;
  }

  lemma BitsGrow(a: nat, b: nat)
    requires a <= b
    ensures 0.0 <= ClassicBits(a) <= ClassicBits(b) && 0.0 <= DataBits(a) <= DataBits(b)
  {
    StuffGrows(39.0 + 8.0 * a as real + 15.0, 39.0 + 8.0 * b as real + 15.0);
    var ca, cb := if a <= 16 then 17.0 else 21.0, if b <= 16 then 17.0 else 21.0;
    StuffGrows(8.0 * a as real + ca, 8.0 * b as real + cb);
  }

  /** Longer payloads take longer; faster rates shorten a frame, where a data rate of 0 counts as
      the nominal rate. */
  lemma FrameTimeMonotone(a: nat, b: nat, fd: bool, nominal: nat, data: nat, nominal': nat, data': nat)
    requires a <= b && 0 < nominal' <= nominal && DataRate(nominal', data') <= DataRate(nominal, data)
    ensures 0.0 <= FrameUs(a, fd, nominal, data) <= FrameUs(b, fd, nominal', data')
  {
    hide StuffBits, ClassicBits, DataBits;
    BitsGrow(a, b);
    var fast, slow := nominal as real, nominal' as real;
    if fd {
      StuffGrows(40.0, 40.0);
      var arbitration := 40.0 + StuffBits(40.0);
      Quotients(arbitration, arbitration, fast, slow);
      Quotients(DataBits(a), DataBits(b), DataRate(nominal, data) as real, DataRate(nominal', data') as real);
      Quotients(13.0, 13.0, fast, slow);
    } else {
      Quotients(ClassicBits(a), ClassicBits(b), fast, slow);
    }
  }

  /** a asks no more of the bus than b: not more joints, rate or foreign frames, not a longer
      broadcast, not slower bit rates, not more frequent heartbeats or polls. */
  ghost predicate Lighter(a: Input, b: Input) {
    && a.fd == b.fd && a.feedback == b.feedback
    && CanBroadcast(a) == CanBroadcast(b) && (CanBroadcast(a) ==> MaxId(a) <= MaxId(b))
    && 0 < a.joints <= b.joints && 0.0 < a.rate <= b.rate && 0.0 <= a.extra <= b.extra
    && 0 < b.nominal <= a.nominal && DataRate(b.nominal, b.data) <= DataRate(a.nominal, a.data)
    && (a.heartbeatMs == 0 || 0 < b.heartbeatMs <= a.heartbeatMs)
    && (a.pollMs == 0 || 0 < b.pollMs <= a.pollMs)
  }

  lemma Inverses(x: real, a: nat, b: nat)
    requires x >= 0.0 && (a == 0 || 0 < b <= a)
    ensures a != 0 ==> 0.0 <= x / a as real <= x / b as real
    ensures b != 0 ==> 0.0 <= x / b as real
  {
    if a != 0 { Quotients(x, x, a as real, b as real); }
    if b != 0 { Quotients(x, x, b as real, b as real); }
  }

  lemma FewerJointFrames(n: real, m: real, r: real, q: real)
    requires 1.0 <= n <= m && 0.0 < r <= q
    ensures 0.0 <= n * r <= m * q
    ensures 0.0 <= 2.0 * n * r <= 2.0 * m * q
    ensures 0.0 <= (2.0 * n - 1.0) * r <= (2.0 * m - 1.0) * q
  {
    Products(n, m, r, q);
    Products(2.0 * n, 2.0 * m, r, q);
    Products(2.0 * n - 1.0, 2.0 * m - 1.0, r, q);
  }

  lemma FewerUnicasts(a: Input, b: Input)
    requires Lighter(a, b)
    ensures 0.0 <= Unicasts(a) <= Unicasts(b)
  {
    FewerJointFrames(a.joints as real, b.joints as real, a.rate, b.rate);
    Inverses(2000.0, a.pollMs, b.pollMs);
    hide CanBroadcast, DataRate;
    match a.feedback
    case UnicastOnly =>
    case UnicastPoll =>
    case BroadcastHeartbeat =>
    case HeartbeatOnly =>
  }

  lemma FewerHeartbeats(a: Input, b: Input)
    requires 0 < a.joints <= b.joints && (a.heartbeatMs == 0 || 0 < b.heartbeatMs <= a.heartbeatMs)
    ensures 0.0 <= Heartbeats(a) <= Heartbeats(b)
  {
    var n, m := a.joints as real * 1000.0, b.joints as real * 1000.0;
    if a.heartbeatMs != 0 {
      Quotients(n, m, a.heartbeatMs as real, b.heartbeatMs as real);
    } else if b.heartbeatMs != 0 {
      Quotients(m, m, b.heartbeatMs as real, b.heartbeatMs as real);
    }
  }

  lemma ShorterFrames(a: Input, b: Input)
    requires Lighter(a, b)
    ensures CanBroadcast(a) ==> 0.0 <= UsBroadcast(a) <= UsBroadcast(b)
    ensures 0.0 <= UsUnicast(a) <= UsUnicast(b)
    ensures 0.0 <= UsHeartbeat(a) <= UsHeartbeat(b)
  {
    hide FrameUs;
    if CanBroadcast(a) {
      FrameTimeMonotone(BroadcastPayload(MaxId(a)), BroadcastPayload(MaxId(b)), a.fd, a.nominal, a.data,
                        b.nominal, b.data);
    }
    FrameTimeMonotone(8, 8, a.fd, a.nominal, a.data, b.nominal, b.data);
    var h := if a.fd then 18 else 8;
    FrameTimeMonotone(h, h, a.fd, a.nominal, a.data, b.nominal, b.data);
  }

  /** The budget is monotone: a lighter input has no higher load, so what is feasible stays feasible
      when joints or rates are taken away or limits raised. */
  lemma LighterIsCheaper(a: Input, b: Input)
    requires Lighter(a, b)
    ensures 0.0 <= Load(a) <= Load(b)
    ensures Load(b) <= b.maxLoad <= a.maxLoad ==> Load(a) <= a.maxLoad
  {
    FewerUnicasts(a, b);
    FewerHeartbeats(a, b);
    ShorterFrames(a, b);
    hide FrameUs, Unicasts, Heartbeats, UsBroadcast, UsUnicast, UsHeartbeat, BusTime, CanBroadcast, MaxId, DataRate;
    Products(Unicasts(a), Unicasts(b), UsUnicast(a), UsUnicast(b));
    Products(Heartbeats(a), Heartbeats(b), UsHeartbeat(a), UsHeartbeat(b));
    Products(a.extra, b.extra, UsUnicast(a), UsUnicast(b));
    if CanBroadcast(a) {
      Products(a.rate, b.rate, UsBroadcast(a), UsBroadcast(b));
    } else {
      NoFrames(UsBroadcast(a));
      NoFrames(UsBroadcast(b));
    }
  }

  lemma NoFrames(us: real)
    ensures BusTime(0.0, us) == 0.0
  {}

  // ---------------------------------------------------------------- more joints, node id inferred

  /** Without a configured node id the number of joints stands in for it, so that growing from i's
      joints to m can end broadcasting. */
  predicate EndsBroadcast(i: Input, m: nat) {
    CanBroadcast(i) && !CanBroadcast(i.(joints := m))
  }

  /** The unicast frames per second that then take the place of the broadcasts, and come on top. */
  function AddedUnicasts(i: Input, m: nat): real {
    var more := m as real - i.joints as real;
    match i.feedback
    case UnicastOnly => (2.0 * more + 1.0) * i.rate
    case UnicastPoll => (2.0 * m as real - 2.0) * i.rate
    case BroadcastHeartbeat => m as real * i.rate - (if i.pollMs > 0 then 2000.0 / i.pollMs as real else 0.0)
    case HeartbeatOnly => m as real * i.rate
  }

  function AddedHeartbeats(i: Input, m: nat): real {
    if i.heartbeatMs != 0 then (m as real - i.joints as real) * 1000.0 / i.heartbeatMs as real else 0.0
  }

  lemma AddedFrames(i: Input, m: nat)
    requires EndsBroadcast(i, m)
    ensures Unicasts(i) + AddedUnicasts(i, m) == Unicasts(i.(joints := m))
    ensures Heartbeats(i) + AddedHeartbeats(i, m) == Heartbeats(i.(joints := m))
  {
    hide CanBroadcast;
    var n, k, r := i.joints as real, m as real, i.rate;
    assert (2.0 * n - 1.0) * r + (2.0 * (k - n) + 1.0) * r == 2.0 * k * r;
    assert 2.0 * r + (2.0 * k - 2.0) * r == 2.0 * k * r;
    if i.heartbeatMs != 0 {
      var h := i.heartbeatMs as real;
      assert n * 1000.0 / h + (k - n) * 1000.0 / h == k * 1000.0 / h;
    }
  }

  lemma BusTimeAdds(a: real, b: real, us: real)
    ensures BusTime(a, us) + BusTime(b, us) == BusTime(a + b, us)
  {}

  /** The exact condition, for every policy: with an inferred node id, more joints never lower the
      load unless they end broadcasting; and then they do not exactly when the broadcasts saved took
      no longer than the frames that come instead. All terms are frame times of can_frame_us(). */
  lemma MoreJointsCostMoreIff(i: Input, m: nat)
    requires Usable(i) && i.maxNodeId == 0 && i.joints <= m && i.extra >= 0.0
    ensures Load(i) <= Load(i.(joints := m)) <==>
              (EndsBroadcast(i, m) ==>
                 BusTime(i.rate, UsBroadcast(i))
                 <= BusTime(AddedUnicasts(i, m), UsUnicast(i)) + BusTime(AddedHeartbeats(i, m), UsHeartbeat(i)))
  {
    var big := i.(joints := m);
    assert UsUnicast(big) == UsUnicast(i) && UsHeartbeat(big) == UsHeartbeat(i);
    if EndsBroadcast(i, m) {
      AddedFrames(i, m);
      hide FrameUs, Unicasts, Heartbeats, AddedUnicasts, AddedHeartbeats, UsBroadcast, UsUnicast, UsHeartbeat, BusTime;
      BusTimeAdds(Unicasts(i), AddedUnicasts(i, m), UsUnicast(i));
      BusTimeAdds(Heartbeats(i), AddedHeartbeats(i, m), UsHeartbeat(i));
      NoFrames(UsBroadcast(big));
    } else if i.nominal == 0 {
      NoBitRate(i);
      NoBitRate(big);
    } else {
      hide Load;
      LighterIsCheaper(i, big);
    }
  }

  lemma NoBitRate(i: Input)
    requires i.nominal == 0
    ensures Load(i) == 0.0
  {}

  // ---------------------------------------------------------------- the condition can fail

  lemma SlowDataFrames()
    ensures FrameUs(64, true, 1000000, 100000) == 6461.0
    ensures FrameUs(8, true, 1000000, 100000) == 1041.0
  {
    assert (-8.0).Floor == -8 && (-106.6).Floor == -107 && (-16.2).Floor == -17;
    assert StuffBits(40.0) == 8.0 && StuffBits(533.0) == 107.0 && StuffBits(81.0) == 17.0;
    assert DataBits(64) == 640.0 && DataBits(8) == 98.0;
  }

  /** On a slow data phase one broadcast of 64 bytes takes longer than the three unicast frames that
      the eighth joint brings under the unicast-only policy, and the load drops. */
  lemma EighthJointCanLowerLoad()
    ensures var seven := Input(7, 1.0, true, 1000000, 100000, 0, UnicastOnly, 0, 0, true, 1.0, 0.0);
            Load(seven.(joints := 8)) < Load(seven)
  {
    SlowDataFrames();
    hide FrameUs;
    var seven := Input(7, 1.0, true, 1000000, 100000, 0, UnicastOnly, 0, 0, true, 1.0, 0.0);
    assert UsBroadcast(seven) == 6461.0 && UsUnicast(seven) == 1041.0;
    assert UsUnicast(seven.(joints := 8)) == 1041.0;
  }

  // ---------------------------------------------------------------- from a configuration

  /** The highest node id of the joints. */
  method HighestNodeId(bus: BusCfg) returns (id: nat)
    requires bus.jointCount <= MAX_JOINTS_PER_BUS == |bus.joints|
    ensures forall j :: 0 <= j < bus.jointCount ==> bus.joints[j].nodeId <= id
    ensures id == 0 || exists j :: 0 <= j < bus.jointCount && bus.joints[j].nodeId == id
  {
    id := 0;
    for j := 0 to bus.jointCount
      invariant forall k :: 0 <= k < j ==> bus.joints[k].nodeId <= id
      invariant id == 0 || exists k :: 0 <= k < j && bus.joints[k].nodeId == id
    {
      if bus.joints[j].nodeId > id { id := bus.joints[j].nodeId; }
    }
  }

  /** plan_bus() on an accepted bus: the node id is a configured one, so broadcasting ends exactly
      when some joint's id is beyond the bitmap. */
  method PlanConfig(bus: BusCfg, rate: real) returns (i: Input, r: Plan)
    requires |bus.joints| == MAX_JOINTS_PER_BUS && ValidBus(bus) && rate > 0.0
    ensures Usable(i) && i.maxNodeId > 0
    ensures CanBroadcast(i) <==> forall j :: 0 <= j < bus.jointCount ==> bus.joints[j].nodeId <= MAX_BROADCAST_NODE_ID
    ensures r.load == Load(i) && (r.feasible <==> Load(i) <= bus.maxBusLoad)
    ensures !CanBroadcast(i) ==> r.fix
  {
    hide Load;
    var id := HighestNodeId(bus);
    assert ValidJoint(bus.joints[0]);
    i := Input(bus.jointCount, rate, bus.isFd, bus.nominalBitrate, bus.dataBitrate, id, bus.feedback,
               bus.heartbeatMs, bus.pollPeriodMs, true, bus.maxBusLoad, 0.0);
    r := PlanBus(i);
  }
}
