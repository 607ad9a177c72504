/**
 `validate_config`: the nested search loops of the configuration gate against a declarative
 predicate, and what an accepted configuration gives: the tick groups partition the buses and,
 with them, the global joint indices.
 */
module Config {

  const MAX_JOINTS_PER_BUS: nat := 16
  const MAX_BUSES: nat := 8
  const MAX_TICK_GROUPS: nat := 4
  const MAX_JOINTS: nat := MAX_JOINTS_PER_BUS * MAX_BUSES
  const JOINT_NAME_LEN: nat := 64
  const BUS_NAME_LEN: nat := 32
  const WRAP32: nat := 0x1_0000_0000

  datatype HalKind = Virtual | SocketCan | Slcan | Pcan
  datatype FeedbackPolicy = BroadcastHeartbeat | HeartbeatOnly | UnicastPoll | UnicastOnly
  datatype ExitAction = Disable | Hold | ZeroTorque | Estop | NoAction

  datatype JointCfg = JointCfg(
    name: string, nodeId: nat, mode: nat, hasPositionLimit: bool, positionMin: real, positionMax: real)

  datatype DescCfg = DescCfg(retries: nat, timeoutMs: nat, filtered: bool, hasFilterPaths: bool, filterCount: nat)

  datatype BusCfg = BusCfg(
    name: string, hal: HalKind, channel: string, serialBaud: nat, masterId: nat,
    isFd: bool, nominalBitrate: nat, dataBitrate: nat, maxBusLoad: real,
    feedback: FeedbackPolicy, heartbeatMs: nat, pollPeriodMs: nat, desc: DescCfg,
    jointCount: nat, joints: seq<JointCfg>)

  datatype TickGroupCfg = TickGroupCfg(name: string, rateHz: nat, busCount: nat, busIndex: seq<nat>)

  datatype RtCfg = RtCfg(enabled: bool, priority: int, deadlinePolicy: bool)

  /** The configuration; counts are separate from the fixed arrays, as in the struct. */
  datatype Config = Config(
    busCount: nat, buses: seq<BusCfg>, groupCount: nat, groups: seq<TickGroupCfg>,
    rt: RtCfg, commandTimeoutMs: nat, autoEnable: bool, onExit: ExitAction)
  {
    /** The array lengths of the struct. */
    ghost predicate Shaped() {
      && |buses| == MAX_BUSES && |groups| == MAX_TICK_GROUPS
      && (forall b :: 0 <= b < MAX_BUSES ==> |buses[b].joints| == MAX_JOINTS_PER_BUS)
      && (forall g :: 0 <= g < MAX_TICK_GROUPS ==> |groups[g].busIndex| == MAX_BUSES)
    }
  }

  datatype Status = InvalidArgument | NotSupported

  /** `OutOfBounds`: the loop over a group's bus list runs past the end of its array. */
  datatype Verdict = Accepted | Rejected(status: Status) | OutOfBounds

  const REFUSED: Verdict := Rejected(InvalidArgument)

  // ---------------------------------------------------------------- the specification

  ghost predicate ValidRt(rt: RtCfg) {
    rt.enabled ==> 1 <= rt.priority <= 99 && !rt.deadlinePolicy
  }

  ghost predicate ValidMode(mode: nat) {
    mode == 4 || 8 <= mode <= 11
  }

  ghost predicate ValidJoint(jc: JointCfg) {
    && 0 < |jc.name| < JOINT_NAME_LEN
    && 1 <= jc.nodeId <= 254
    && (jc.hasPositionLimit ==> jc.positionMin < jc.positionMax)
    && ValidMode(jc.mode)
  }

  ghost predicate ValidDesc(d: DescCfg) {
    && d.retries <= 10 && d.timeoutMs <= 60000
    && (d.filtered ==> d.hasFilterPaths && d.filterCount > 0)
  }

  /** The bus alone, without its joints. */
  ghost predicate ValidLink(bus: BusCfg) {
    && 0 < |bus.name| < BUS_NAME_LEN
    && 1 <= bus.masterId <= 254
    && (bus.hal.Virtual? || bus.channel != "")
    && (bus.hal.Slcan? ==> bus.serialBaud > 0)
    && bus.nominalBitrate > 0
    && (bus.isFd ==> bus.dataBitrate > 0)
    && 0.0 < bus.maxBusLoad <= 1.0
    && (bus.feedback.BroadcastHeartbeat? || bus.feedback.HeartbeatOnly? ==> bus.heartbeatMs > 0)
    && (bus.feedback.UnicastPoll? ==> bus.pollPeriodMs > 0)
    && ValidDesc(bus.desc)
    && 1 <= bus.jointCount <= MAX_JOINTS_PER_BUS
  }

  ghost predicate ValidBus(bus: BusCfg)
    requires |bus.joints| == MAX_JOINTS_PER_BUS
  {
    && ValidLink(bus)
    && forall j :: 0 <= j < bus.jointCount ==> ValidJoint(bus.joints[j])
  }

  ghost predicate IsJoint(cfg: Config, b: int, j: int)
    requires cfg.Shaped()
  {
    0 <= b < cfg.busCount && b < MAX_BUSES && 0 <= j < cfg.buses[b].jointCount && j < MAX_JOINTS_PER_BUS
  }

  /** No joint name occurs twice, on whatever bus; no node id occurs twice on one bus. */
  ghost predicate UniqueJoints(cfg: Config)
    requires cfg.Shaped()
  {
    forall b, j, b2, j2 :: IsJoint(cfg, b, j) && IsJoint(cfg, b2, j2) && (b, j) != (b2, j2) ==>
      && cfg.buses[b].joints[j].name != cfg.buses[b2].joints[j2].name
      && (b == b2 ==> cfg.buses[b].joints[j].nodeId != cfg.buses[b2].joints[j2].nodeId)
  }

  ghost predicate Distinct<T>(s: seq<T>) {
    forall i, k :: 0 <= i < k < |s| ==> s[i] != s[k]
  }

  /** A bus list whose first n entries are existing buses, each named once. */
  ghost predicate ValidList(cfg: Config, list: seq<nat>) {
    (forall i :: 0 <= i < |list| ==> list[i] < cfg.busCount) && Distinct(list)
  }

  ghost predicate ValidGroup(cfg: Config, grp: TickGroupCfg)
    requires |grp.busIndex| == MAX_BUSES
  {
    && grp.name != "" && 1 <= grp.rateHz <= 4000
    && 1 <= grp.busCount <= MAX_BUSES && ValidList(cfg, grp.busIndex[..grp.busCount])
  }

  /** Entry i of group g names bus b. */
  ghost predicate Drives(cfg: Config, g: int, i: int, b: int)
    requires cfg.Shaped()
  {
    0 <= g < cfg.groupCount && g < MAX_TICK_GROUPS && 0 <= i < cfg.groups[g].busCount && i < MAX_BUSES
    && cfg.groups[g].busIndex[i] == b
  }

  /** Bus b is driven by exactly one entry of one group. */
  ghost predicate DrivenOnce(cfg: Config, b: int)
    requires cfg.Shaped()
  {
    && (exists g, i :: Drives(cfg, g, i, b))
    && (forall g, i, g2, i2 :: Drives(cfg, g, i, b) && Drives(cfg, g2, i2, b) ==> g == g2 && i == i2)
  }

  ghost predicate ValidConfig(cfg: Config)
    requires cfg.Shaped()
  {
    && 1 <= cfg.busCount <= MAX_BUSES && 1 <= cfg.groupCount <= MAX_TICK_GROUPS
    && ValidRt(cfg.rt)
    && (forall b :: 0 <= b < cfg.busCount ==> ValidBus(cfg.buses[b]))
    && UniqueJoints(cfg)
    && (forall g :: 0 <= g < cfg.groupCount ==> ValidGroup(cfg, cfg.groups[g]))
    && (forall b :: 0 <= b < cfg.busCount ==> DrivenOnce(cfg, b))
    && cfg.commandTimeoutMs <= 60000
    && !(cfg.autoEnable && cfg.onExit.NoAction?)
  }

  // ---------------------------------------------------------------- joint counts

  /** The sum of the joint counts of the first n buses. */
  function JointSum(buses: seq<BusCfg>, n: nat): nat
    requires n <= |buses|
  {
    if n == 0 then 0 else JointSum(buses, n - 1) + buses[n - 1].jointCount
  }

  lemma {:induction false} JointSumBound(buses: seq<BusCfg>, n: nat)
    requires n <= |buses| && forall b :: 0 <= b < n ==> buses[b].jointCount <= MAX_JOINTS_PER_BUS
    ensures JointSum(buses, n) <= n * MAX_JOINTS_PER_BUS
  {
    if n > 0 {
      JointSumBound(buses, n - 1);
    }
  }

  /** total_joint_count(): 32-bit unsigned addition. */
  method TotalJointCount(cfg: Config) returns (n: nat)
    requires cfg.Shaped()
    ensures n == JointSum(cfg.buses, if cfg.busCount < MAX_BUSES then cfg.busCount else MAX_BUSES) % WRAP32
  {
    n := 0;
    var i := 0;
    while i < cfg.busCount && i < MAX_BUSES
      invariant i <= cfg.busCount && i <= MAX_BUSES
      invariant n == JointSum(cfg.buses, i) % WRAP32
    {
      n := (n + cfg.buses[i].jointCount) % WRAP32;
      i := i + 1;
    }
  }

  // ---------------------------------------------------------------- the checks

  method CheckLink(bus: BusCfg) returns (ok: bool)
    ensures ok <==> ValidLink(bus)
  {
    if bus.name == "" { return false; }
    if |bus.name| >= BUS_NAME_LEN { return false; }
    if bus.masterId == 0 || bus.masterId > 254 { return false; }
    if bus.channel == "" && !bus.hal.Virtual? { return false; }
    if bus.hal.Slcan? && bus.serialBaud == 0 { return false; }
    if bus.nominalBitrate == 0 { return false; }
    if bus.isFd && bus.dataBitrate == 0 { return false; }
    if bus.maxBusLoad <= 0.0 || bus.maxBusLoad > 1.0 { return false; }
    var usesHeartbeat := bus.feedback.BroadcastHeartbeat? || bus.feedback.HeartbeatOnly?;
    if usesHeartbeat && bus.heartbeatMs == 0 { return false; }
    if bus.feedback.UnicastPoll? && bus.pollPeriodMs == 0 { return false; }
    if bus.desc.retries > 10 { return false; }
    if bus.desc.timeoutMs > 60000 { return false; }
    if bus.desc.filtered && (!bus.desc.hasFilterPaths || bus.desc.filterCount == 0) { return false; }
    if bus.jointCount == 0 { return false; }
    if bus.jointCount > MAX_JOINTS_PER_BUS { return false; }
    return true;
  }

  /** No earlier joint of the same bus has this name or node id. */
  ghost predicate NewOnBus(bus: BusCfg, j: nat)
    requires j < |bus.joints|
  {
    forall k :: 0 <= k < j ==>
      bus.joints[k].name != bus.joints[j].name && bus.joints[k].nodeId != bus.joints[j].nodeId
  }

  ghost predicate NameOn(bus: BusCfg, name: string) {
    exists k :: 0 <= k < bus.jointCount && k < |bus.joints| && bus.joints[k].name == name
  }

  /** No joint of the first b buses has this name. */
  ghost predicate NewName(cfg: Config, b: nat, name: string)
    requires cfg.Shaped() && b <= MAX_BUSES
  {
    forall b2 :: 0 <= b2 < b ==> !NameOn(cfg.buses[b2], name)
  }

  /** One joint, after all joints of the buses before b were found in order. */
  method CheckJoint(cfg: Config, b: nat, j: nat) returns (ok: bool)
    requires cfg.Shaped() && b < MAX_BUSES && j < MAX_JOINTS_PER_BUS
    requires forall b2 :: 0 <= b2 < b ==> cfg.buses[b2].jointCount <= MAX_JOINTS_PER_BUS
    ensures ok <==> && ValidJoint(cfg.buses[b].joints[j]) && NewOnBus(cfg.buses[b], j)
                    && NewName(cfg, b, cfg.buses[b].joints[j].name)
  {
    var bus := cfg.buses[b];
    var jc := bus.joints[j];
    if jc.name == "" { return false; }
    if |jc.name| >= JOINT_NAME_LEN { return false; }
    if jc.nodeId == 0 || jc.nodeId > 254 { return false; }
    for k := 0 to j
      invariant forall k2 :: 0 <= k2 < k ==> bus.joints[k2].name != jc.name && bus.joints[k2].nodeId != jc.nodeId
    {
      if bus.joints[k].name == jc.name { return false; }
      if bus.joints[k].nodeId == jc.nodeId { return false; }
    }
    for b2 := 0 to b
      invariant NewName(cfg, b2, jc.name)
    {
      for j2 := 0 to cfg.buses[b2].jointCount
        invariant forall k :: 0 <= k < j2 ==> cfg.buses[b2].joints[k].name != jc.name
      {
        if cfg.buses[b2].joints[j2].name == jc.name {
          assert NameOn(cfg.buses[b2], jc.name);
          return false;
        }
      }
    }
    if jc.hasPositionLimit && !(jc.positionMin < jc.positionMax) { return false; }
    match jc.mode {
      case 4 => return true;
      case 8 => return true;
      case 9 => return true;
      case 10 => return true;
      case 11 => return true;
      case _ => return false;
    }
  }

  /** Everything the loop asks of bus b. */
  ghost predicate BusPasses(cfg: Config, b: nat)
    requires cfg.Shaped() && b < MAX_BUSES
  {
    var bus := cfg.buses[b];
    && ValidBus(bus)
    && forall j :: 0 <= j < bus.jointCount ==> NewOnBus(bus, j) && NewName(cfg, b, bus.joints[j].name)
  }

  method CheckBus(cfg: Config, b: nat) returns (ok: bool)
    requires cfg.Shaped() && b < MAX_BUSES
    requires forall b2 :: 0 <= b2 < b ==> cfg.buses[b2].jointCount <= MAX_JOINTS_PER_BUS
    ensures ok <==> BusPasses(cfg, b)
  {
    var bus := cfg.buses[b];
    var good := CheckLink(bus);
    if !good { return false; }
    for j := 0 to bus.jointCount
      invariant forall k :: 0 <= k < j ==>
                  ValidJoint(bus.joints[k]) && NewOnBus(bus, k) && NewName(cfg, b, bus.joints[k].name)
    {
      good := CheckJoint(cfg, b, j);
      if !good { return false; }
    }
    return true;
  }

  /** Searching backwards from every joint finds exactly the repeated names and node ids. */
  lemma BusesPassIffUnique(cfg: Config)
    requires cfg.Shaped() && cfg.busCount <= MAX_BUSES
    ensures (forall b :: 0 <= b < cfg.busCount ==> BusPasses(cfg, b)) <==>
              (forall b :: 0 <= b < cfg.busCount ==> ValidBus(cfg.buses[b])) && UniqueJoints(cfg)
  {
    if forall b :: 0 <= b < cfg.busCount ==> BusPasses(cfg, b) {
      assert forall b :: 0 <= b < cfg.busCount ==> BusPasses(cfg, b) ==> ValidBus(cfg.buses[b]);
      forall b, j, b2, j2 | IsJoint(cfg, b, j) && IsJoint(cfg, b2, j2) && (b, j) != (b2, j2)
        ensures cfg.buses[b].joints[j].name != cfg.buses[b2].joints[j2].name
        ensures b == b2 ==> cfg.buses[b].joints[j].nodeId != cfg.buses[b2].joints[j2].nodeId
      {
        if b < b2 || (b == b2 && j < j2) {
          PassedJointsDiffer(cfg, b, j, b2, j2);
        } else {
          PassedJointsDiffer(cfg, b2, j2, b, j);
        }
      }
    }
    if (forall b :: 0 <= b < cfg.busCount ==> ValidBus(cfg.buses[b])) && UniqueJoints(cfg) {
      forall b | 0 <= b < cfg.busCount
        ensures BusPasses(cfg, b)
      {
        UniqueJointsPass(cfg, b);
      }
    }
  }

  lemma PassedJointsDiffer(cfg: Config, b: nat, j: nat, b2: nat, j2: nat)
    requires cfg.Shaped() && IsJoint(cfg, b, j) && IsJoint(cfg, b2, j2)
    requires (b < b2 || (b == b2 && j < j2)) && BusPasses(cfg, b2)
    ensures cfg.buses[b].joints[j].name != cfg.buses[b2].joints[j2].name
    ensures b == b2 ==> cfg.buses[b].joints[j].nodeId != cfg.buses[b2].joints[j2].nodeId
  {
    assert NewOnBus(cfg.buses[b2], j2) && NewName(cfg, b2, cfg.buses[b2].joints[j2].name);
    if b < b2 {
      assert !NameOn(cfg.buses[b], cfg.buses[b2].joints[j2].name);
    }
  }

  lemma UniqueJointsPass(cfg: Config, b: nat)
    requires cfg.Shaped() && b < cfg.busCount <= MAX_BUSES
    requires (forall k :: 0 <= k < cfg.busCount ==> ValidBus(cfg.buses[k])) && UniqueJoints(cfg)
    ensures BusPasses(cfg, b)
  {
    var bus := cfg.buses[b];
    forall j | 0 <= j < bus.jointCount
      ensures NewOnBus(bus, j) && NewName(cfg, b, bus.joints[j].name)
    {
      assert IsJoint(cfg, b, j);
      forall k | 0 <= k < j
        ensures bus.joints[k].name != bus.joints[j].name && bus.joints[k].nodeId != bus.joints[j].nodeId
      {
        assert IsJoint(cfg, b, k);
      }
      forall b2 | 0 <= b2 < b
        ensures !NameOn(cfg.buses[b2], bus.joints[j].name)
      {
        assert forall j2 :: 0 <= j2 < cfg.buses[b2].jointCount ==> IsJoint(cfg, b2, j2);
      }
    }
  }

  // ---------------------------------------------------------------- tick groups

  /** The loop reads a ninth entry of the list: bus_count is not compared with the array's length. */
  ghost predicate Overruns(cfg: Config, grp: TickGroupCfg)
    requires |grp.busIndex| == MAX_BUSES
  {
    && grp.name != "" && 1 <= grp.rateHz <= 4000
    && grp.busCount > MAX_BUSES && ValidList(cfg, grp.busIndex)
  }

  method CheckGroup(cfg: Config, grp: TickGroupCfg) returns (v: Verdict)
    requires |grp.busIndex| == MAX_BUSES
    ensures v == if ValidGroup(cfg, grp) then Accepted else if Overruns(cfg, grp) then OutOfBounds else REFUSED
  {
    if grp.name == "" { return REFUSED; }
    if grp.rateHz == 0 || grp.rateHz > 4000 { return REFUSED; }
    if grp.busCount == 0 { return REFUSED; }
    for i := 0 to grp.busCount
      invariant i <= MAX_BUSES && ValidList(cfg, grp.busIndex[..i])
    {
      if i >= MAX_BUSES {
        assert grp.busIndex[..i] == grp.busIndex;
        return OutOfBounds;
      }
      if grp.busIndex[i] >= cfg.busCount {
        BadEntry(cfg, grp, i);
        return REFUSED;
      }
      for k := 0 to i
        invariant forall k2 :: 0 <= k2 < k ==> grp.busIndex[k2] != grp.busIndex[i]
      {
        if grp.busIndex[k] == grp.busIndex[i] {
          BadEntry(cfg, grp, i);
          return REFUSED;
        }
      }
      GoodEntry(cfg, grp.busIndex, i);
    }
    return Accepted;
  }

  lemma GoodEntry(cfg: Config, list: seq<nat>, i: nat)
    requires i < |list| && ValidList(cfg, list[..i]) && list[i] < cfg.busCount
    requires forall k :: 0 <= k < i ==> list[k] != list[i]
    ensures ValidList(cfg, list[..i + 1])
  {
    assert list[..i + 1] == list[..i] + [list[i]];
    assert forall k :: 0 <= k < i ==> list[..i][k] == list[k];
  }

  lemma BadEntry(cfg: Config, grp: TickGroupCfg, i: nat)
    requires |grp.busIndex| == MAX_BUSES && i < grp.busCount && i < MAX_BUSES
    requires grp.busIndex[i] >= cfg.busCount || exists k :: 0 <= k < i && grp.busIndex[k] == grp.busIndex[i]
    ensures !ValidGroup(cfg, grp) && !Overruns(cfg, grp)
  {
    if grp.busCount <= MAX_BUSES {
      var list := grp.busIndex[..grp.busCount];
      assert list[i] == grp.busIndex[i] && forall k :: 0 <= k < i ==> list[k] == grp.busIndex[k];
    }
  }

  function Range(n: nat): seq<nat> {
    seq(n, (i: nat) => i)
  }

  ghost function Below(n: nat): (s: set<nat>)
    ensures |s| == n && forall x: nat :: x in s <==> x < n
  {
    if n == 0 then {} else Below(n - 1) + {n - 1}
  }

  ghost function Elements(list: seq<nat>): (s: set<nat>)
    ensures forall x: nat :: x in s <==> x in list
    ensures Distinct(list) ==> |s| == |list|
  {
    if list == [] then {} else
    var n := |list| - 1;
    assert forall x :: x in list <==> x in list[..n] || x == list[n];
    assert Distinct(list) ==> list[n] !in list[..n];
    Elements(list[..n]) + {list[n]}
  }

  lemma {:induction false} DistinctMultiplicity(list: seq<nat>, x: nat)
    requires Distinct(list)
    ensures multiset(list)[x] == if x in list then 1 else 0
  {
    if list != [] {
      var n := |list| - 1;
      DistinctMultiplicity(list[..n], x);
      assert list == list[..n] + [list[n]];
    }
  }

  lemma SubsetCardinality(a: set<nat>, b: set<nat>)
    requires a <= b
    ensures |a| <= |b| && (a != b ==> |a| < |b|)
  {
    assert b == a + (b - a);
    assert |b| == |a| + |b - a|;
  }

  /** The pigeonhole principle: n values below n without repetition are a permutation. */
  lemma DistinctFits(list: seq<nat>, n: nat)
    requires Distinct(list) && forall i :: 0 <= i < |list| ==> list[i] < n
    ensures |list| <= n
    ensures |list| == n ==> multiset(list) == multiset(Range(n))
  {
    SubsetCardinality(Elements(list), Below(n));
    if |list| == n {
      forall x: nat
        ensures x in list <==> x < n
      {
        assert x in Elements(list) <==> x in Below(n);
      }
      SameElements(list, n);
    }
  }

  lemma SameElements(list: seq<nat>, n: nat)
    requires Distinct(list) && forall x: nat :: x in list <==> x < n
    ensures multiset(list) == multiset(Range(n))
  {
    forall x: nat
      ensures multiset(list)[x] == multiset(Range(n))[x]
    {
      DistinctMultiplicity(list, x);
      DistinctMultiplicity(Range(n), x);
      if x < n { assert Range(n)[x] == x; }
    }
  }

  /** Only a list that names all of eight buses can send the loop past its end. */
  lemma OverrunNeedsEveryBus(cfg: Config, grp: TickGroupCfg)
    requires |grp.busIndex| == MAX_BUSES && cfg.busCount <= MAX_BUSES && Overruns(cfg, grp)
    ensures cfg.busCount == MAX_BUSES && multiset(grp.busIndex) == multiset(Range(MAX_BUSES))
  {
    DistinctFits(grp.busIndex, cfg.busCount);
  }

  // ---------------------------------------------------------------- one driver per bus

  ghost function Flatten(lists: seq<seq<nat>>): seq<nat> {
    if lists == [] then [] else Flatten(lists[..|lists| - 1]) + lists[|lists| - 1]
  }

  function Count(s: seq<nat>, b: nat): nat {
    multiset(s)[b]
  }

  lemma CountAdds(s: seq<nat>, t: seq<nat>, b: nat)
    ensures Count(s + t, b) == Count(s, b) + Count(t, b)
  {}

  lemma CountAppend(s: seq<nat>, x: nat, b: nat)
    ensures Count(s + [x], b) == Count(s, b) + (if x == b then 1 else 0)
  {}

  /** Some list of the first n names b. */
  ghost predicate Named(lists: seq<seq<nat>>, b: nat) {
    exists g :: 0 <= g < |lists| && b in lists[g]
  }

  ghost predicate NamedTwice(lists: seq<seq<nat>>, b: nat) {
    exists g, g2 :: 0 <= g < g2 < |lists| && b in lists[g] && b in lists[g2]
  }

  /** Over lists without repetition, the number of occurrences is the number of lists. */
  lemma {:induction false} CountLists(lists: seq<seq<nat>>, b: nat)
    requires forall g :: 0 <= g < |lists| ==> Distinct(lists[g])
    ensures Count(Flatten(lists), b) == 0 <==> !Named(lists, b)
    ensures Count(Flatten(lists), b) == 1 <==> Named(lists, b) && !NamedTwice(lists, b)
  {
    if lists != [] {
      hide Distinct, Count;
      var n := |lists| - 1;
      var front, last := lists[..n], lists[n];
      CountLists(front, b);
      CountAdds(Flatten(front), last, b);
      assert Count(last, b) == if b in last then 1 else 0 by {
        DistinctMultiplicity(last, b);
        CountIsMultiplicity(last, b);
      }
      NamedGrows(lists, b);
    } else {
      CountEmpty(b);
    }
  }

  lemma CountEmpty(b: nat)
    ensures Count([], b) == 0
  {}

  lemma CountIsMultiplicity(s: seq<nat>, b: nat)
    ensures Count(s, b) == multiset(s)[b]
  {}

  lemma NamedGrows(lists: seq<seq<nat>>, b: nat)
    requires lists != []
    ensures var (front, last) := (lists[..|lists| - 1], lists[|lists| - 1]);
            && (Named(lists, b) <==> Named(front, b) || b in last)
            && (NamedTwice(lists, b) <==> NamedTwice(front, b) || (Named(front, b) && b in last))
  {
    var n := |lists| - 1;
    var front := lists[..n];
    assert forall g :: 0 <= g < n ==> front[g] == lists[g];
    if NamedTwice(front, b) {
      var g, g2 :| 0 <= g < g2 < n && b in front[g] && b in front[g2];
      assert b in lists[g] && b in lists[g2];
    }
    if Named(front, b) {
      var g :| 0 <= g < n && b in front[g];
      assert b in lists[g];
    }
  }

  /** The bus lists of the groups. */
  function Lists(cfg: Config): (lists: seq<seq<nat>>)
    requires cfg.groupCount <= |cfg.groups|
    requires forall g :: 0 <= g < cfg.groupCount ==> cfg.groups[g].busCount <= |cfg.groups[g].busIndex|
    ensures |lists| == cfg.groupCount
    ensures forall g :: 0 <= g < cfg.groupCount ==> lists[g] == cfg.groups[g].busIndex[..cfg.groups[g].busCount]
  {
    seq(cfg.groupCount, g requires 0 <= g < cfg.groupCount => cfg.groups[g].busIndex[..cfg.groups[g].busCount])
  }

  ghost predicate ShortLists(cfg: Config)
    requires cfg.Shaped()
  {
    && cfg.groupCount <= MAX_TICK_GROUPS
    && forall g :: 0 <= g < cfg.groupCount ==>
         cfg.groups[g].busCount <= MAX_BUSES && Distinct(cfg.groups[g].busIndex[..cfg.groups[g].busCount])
  }

  /** Counting the occurrences of b, group by group and entry by entry. */
  method CountHits(cfg: Config, b: nat) returns (hits: nat)
    requires cfg.Shaped() && ShortLists(cfg)
    ensures hits == Count(Flatten(Lists(cfg)), b)
  {
    hide Count;
    ghost var lists := Lists(cfg);
    hits := 0;
    CountEmpty(b);
    for g := 0 to cfg.groupCount
      invariant hits == Count(Flatten(lists[..g]), b)
    {
      ghost var list := lists[g];
      assert lists[..g + 1][..g] == lists[..g] && lists[..g + 1][g] == list;
      ghost var before := Flatten(lists[..g]);
      assert before + list[..0] == before;
      for i := 0 to cfg.groups[g].busCount
        invariant hits == Count(before + list[..i], b)
      {
        assert before + list[..i + 1] == (before + list[..i]) + [list[i]];
        CountAppend(before + list[..i], list[i], b);
        if cfg.groups[g].busIndex[i] == b { hits := hits + 1; }
      }
      assert list[..cfg.groups[g].busCount] == list;
    }
    assert lists[..cfg.groupCount] == lists;
  }

  /** Counting hits decides whether exactly one entry of one group names the bus. */
  lemma OneHitIffDrivenOnce(cfg: Config, b: nat)
    requires cfg.Shaped() && ShortLists(cfg)
    ensures Count(Flatten(Lists(cfg)), b) == 1 <==> DrivenOnce(cfg, b)
  {
    hide Count, Flatten;
    var lists := Lists(cfg);
    CountLists(lists, b);
    assert forall g, i :: Drives(cfg, g, i, b) ==> lists[g][i] == b && b in lists[g];
    forall g | 0 <= g < |lists| && b in lists[g]
      ensures exists i :: Drives(cfg, g, i, b)
    {
      var i :| 0 <= i < |lists[g]| && lists[g][i] == b;
      assert Drives(cfg, g, i, b);
    }
    if Named(lists, b) && !NamedTwice(lists, b) {
      assert DrivenOnce(cfg, b);
    }
  }

  // ---------------------------------------------------------------- validate_config

  ghost predicate BoundsOk(cfg: Config) {
    1 <= cfg.busCount <= MAX_BUSES && 1 <= cfg.groupCount <= MAX_TICK_GROUPS
  }

  /** All that is checked before the tick groups. */
  ghost predicate BusesOk(cfg: Config)
    requires cfg.Shaped()
  {
    && BoundsOk(cfg) && ValidRt(cfg.rt)
    && (forall b :: 0 <= b < cfg.busCount ==> ValidBus(cfg.buses[b]))
    && UniqueJoints(cfg)
  }

  /** The first group that is not valid has a list too long for its array, and it names all buses. */
  ghost predicate GroupsOverrun(cfg: Config)
    requires cfg.Shaped() && cfg.groupCount <= MAX_TICK_GROUPS
  {
    exists g :: 0 <= g < cfg.groupCount && Overruns(cfg, cfg.groups[g])
             && forall k :: 0 <= k < g ==> ValidGroup(cfg, cfg.groups[k])
  }

  method CheckOverview(cfg: Config) returns (v: Verdict)
    requires cfg.Shaped()
    ensures v == if !BoundsOk(cfg) || JointSum(cfg.buses, cfg.busCount) % WRAP32 > MAX_JOINTS then REFUSED
                 else if ValidRt(cfg.rt) then Accepted
                 else if 1 <= cfg.rt.priority <= 99 then Rejected(NotSupported)
                 else REFUSED
  {
    if cfg.busCount == 0 { return REFUSED; }
    if cfg.busCount > MAX_BUSES { return REFUSED; }
    if cfg.groupCount == 0 { return REFUSED; }
    if cfg.groupCount > MAX_TICK_GROUPS { return REFUSED; }
    var total := TotalJointCount(cfg);
    if total > MAX_JOINTS { return REFUSED; }
    if cfg.rt.enabled {
      if cfg.rt.priority < 1 || cfg.rt.priority > 99 { return REFUSED; }
      if cfg.rt.deadlinePolicy { return Rejected(NotSupported); }
    }
    return Accepted;
  }

  method CheckGroups(cfg: Config) returns (v: Verdict)
    requires cfg.Shaped() && BoundsOk(cfg)
    ensures v == if forall g :: 0 <= g < cfg.groupCount ==> ValidGroup(cfg, cfg.groups[g]) then Accepted
                 else if GroupsOverrun(cfg) then OutOfBounds else REFUSED
  {
    for g := 0 to cfg.groupCount
      invariant forall k :: 0 <= k < g ==> ValidGroup(cfg, cfg.groups[k])
    {
      v := CheckGroup(cfg, cfg.groups[g]);
      if v != Accepted {
        if v == OutOfBounds { assert GroupsOverrun(cfg); }
        return;
      }
    }
    return Accepted;
  }

  method CheckDrivers(cfg: Config) returns (ok: bool)
    requires cfg.Shaped() && BoundsOk(cfg)
    requires forall g :: 0 <= g < cfg.groupCount ==> ValidGroup(cfg, cfg.groups[g])
    ensures ok <==> forall b :: 0 <= b < cfg.busCount ==> DrivenOnce(cfg, b)
  {
    for b := 0 to cfg.busCount
      invariant forall k :: 0 <= k < b ==> DrivenOnce(cfg, k)
    {
      var hits := CountHits(cfg, b);
      OneHitIffDrivenOnce(cfg, b);
      if hits == 0 { return false; }
      if hits > 1 { return false; }
    }
    return true;
  }

  /** The gate accepts exactly the valid configurations. Apart from acceptance: only an enabled
      deadline policy is "not supported"; and the search of a group's bus list leaves its array
      exactly when everything before is fine and that list names all eight buses and goes on. */
  method ValidateConfig(cfg: Config) returns (v: Verdict)
    requires cfg.Shaped()
    ensures v == Accepted <==> ValidConfig(cfg)
    ensures v == OutOfBounds <==> BusesOk(cfg) && GroupsOverrun(cfg)
    ensures v == Rejected(NotSupported) <==>
              && BoundsOk(cfg) && JointSum(cfg.buses, cfg.busCount) % WRAP32 <= MAX_JOINTS
              && cfg.rt.enabled && 1 <= cfg.rt.priority <= 99 && cfg.rt.deadlinePolicy
  {
    hide ValidBus, BusPasses, ValidGroup, Overruns, DrivenOnce, UniqueJoints;
    BusesNeedNoTotal(cfg);
    v := CheckOverview(cfg);
    if v != Accepted { return; }
    for b := 0 to cfg.busCount
      invariant forall k :: 0 <= k < b ==> BusPasses(cfg, k) && cfg.buses[k].jointCount <= MAX_JOINTS_PER_BUS
    {
      var good := CheckBus(cfg, b);
      if !good {
        BusesPassIffUnique(cfg);
        return REFUSED;
      }
      PassedCount(cfg, b);
    }
    BusesPassIffUnique(cfg);
    v := CheckGroups(cfg);
    if v != Accepted {
      return;
    }
    NoOverrun(cfg);
    var driven := CheckDrivers(cfg);
    if !driven { return REFUSED; }
    if cfg.commandTimeoutMs > 60000 { return REFUSED; }
    if cfg.autoEnable && cfg.onExit.NoAction? { return REFUSED; }
    return Accepted;
  }

  lemma PassedCount(cfg: Config, b: nat)
    requires cfg.Shaped() && b < MAX_BUSES && BusPasses(cfg, b)
    ensures cfg.buses[b].jointCount <= MAX_JOINTS_PER_BUS
  {}

  lemma NoOverrun(cfg: Config)
    requires cfg.Shaped() && cfg.groupCount <= MAX_TICK_GROUPS
    requires forall g :: 0 <= g < cfg.groupCount ==> ValidGroup(cfg, cfg.groups[g])
    ensures !GroupsOverrun(cfg)
  {
    forall g | 0 <= g < cfg.groupCount
      ensures !Overruns(cfg, cfg.groups[g])
    {
      assert ValidGroup(cfg, cfg.groups[g]);
    }
  }

  /** The total check refuses nothing that the checks of the buses would let pass. */
  lemma BusesNeedNoTotal(cfg: Config)
    requires cfg.Shaped()
    ensures BoundsOk(cfg) && (forall b :: 0 <= b < cfg.busCount ==> ValidBus(cfg.buses[b])) ==>
              JointSum(cfg.buses, cfg.busCount) % WRAP32 <= MAX_JOINTS
  {
    if BoundsOk(cfg) && forall b :: 0 <= b < cfg.busCount ==> ValidBus(cfg.buses[b]) {
      assert forall b :: 0 <= b < cfg.busCount ==>
               ValidBus(cfg.buses[b]) ==> cfg.buses[b].jointCount <= MAX_JOINTS_PER_BUS;
      JointSumBound(cfg.buses, cfg.busCount);
    }
  }

  // ---------------------------------------------------------------- a list that runs on

  function OneJointBus(name: string): BusCfg {
    BusCfg(name, Virtual, "", 0, 1, false, 1000000, 0, 0.5, UnicastOnly, 0, 0, DescCfg(0, 0, false, false, 0),
           1, seq(MAX_JOINTS_PER_BUS, _ => JointCfg(name, 1, 4, false, 0.0, 0.0)))
  }

  /** Names of different lengths. */
  function NameOf(b: nat): (name: string)
    ensures |name| == b + 1
  {
    seq(b + 1, _ => 'j')
  }

  /** Eight buses of one joint each, and one group that lists all of them and claims so many entries. */
  function EightBuses(claimed: nat): (cfg: Config)
    ensures cfg.busCount == |cfg.buses| == MAX_BUSES && cfg.groupCount == 1 && |cfg.groups| == MAX_TICK_GROUPS
    ensures forall b :: 0 <= b < MAX_BUSES ==> cfg.buses[b] == OneJointBus(NameOf(b))
    ensures forall g :: 0 <= g < MAX_TICK_GROUPS ==>
              cfg.groups[g] == TickGroupCfg("group", 1000, claimed, Range(MAX_BUSES))
    ensures cfg.rt == RtCfg(false, 0, false) && cfg.commandTimeoutMs == 0 && !cfg.autoEnable
  {
    Config(MAX_BUSES, seq(MAX_BUSES, (b: nat) => OneJointBus(NameOf(b))),
           1, seq(MAX_TICK_GROUPS, _ => TickGroupCfg("group", 1000, claimed, Range(MAX_BUSES))),
           RtCfg(false, 0, false), 0, false, Disable)
  }

  lemma OneJointBusIsValid(name: string)
    requires 0 < |name| < BUS_NAME_LEN
    ensures |OneJointBus(name).joints| == MAX_JOINTS_PER_BUS && ValidBus(OneJointBus(name))
  {}

  lemma EightBusesAreValid(claimed: nat)
    ensures EightBuses(claimed).Shaped() && BusesOk(EightBuses(claimed))
  {
    hide EightBuses, NameOf, ValidBus, Range;
    var cfg := EightBuses(claimed);
    forall b | 0 <= b < MAX_BUSES
      ensures |cfg.buses[b].joints| == MAX_JOINTS_PER_BUS && ValidBus(cfg.buses[b])
    {
      OneJointBusIsValid(NameOf(b));
    }
    assert cfg.Shaped() by { RangeShape(); }
    assert forall b, j :: IsJoint(cfg, b, j) ==> j == 0 && |cfg.buses[b].joints[j].name| == b + 1;
  }

  lemma RangeShape()
    ensures |Range(MAX_BUSES)| == MAX_BUSES
  {}

  /** The loop over a bus list can run past its array: this configuration passes every check before. */
  lemma OverrunIsReached()
    ensures EightBuses(9).Shaped() && BusesOk(EightBuses(9)) && GroupsOverrun(EightBuses(9))
  {
    EightBusesAreValid(9);
    hide EightBuses, NameOf, ValidBus, UniqueJoints;
    var cfg := EightBuses(9);
    assert Overruns(cfg, cfg.groups[0]);
  }

  /** With the count right, the same configuration is accepted. */
  lemma FullConfigIsAccepted()
    ensures EightBuses(8).Shaped() && ValidConfig(EightBuses(8))
  {
    EightBusesAreValid(8);
    hide EightBuses, NameOf, ValidBus, UniqueJoints;
    var cfg := EightBuses(8);
    assert cfg.groups[0].busIndex[..8] == Range(MAX_BUSES);
    assert ValidGroup(cfg, cfg.groups[0]);
    forall b | 0 <= b < MAX_BUSES
      ensures DrivenOnce(cfg, b)
    {
      assert Drives(cfg, 0, b, b);
    }
  }

  /** The limits that an accepted configuration keeps, in figures. */
  lemma AcceptedIsBounded(cfg: Config)
    requires cfg.Shaped() && ValidConfig(cfg)
    ensures 1 <= cfg.busCount <= 8 && 1 <= cfg.groupCount <= 4 && JointSum(cfg.buses, cfg.busCount) <= 128
    ensures forall b :: 0 <= b < cfg.busCount ==>
              1 <= |cfg.buses[b].name| <= 31 && 1 <= cfg.buses[b].jointCount <= 16
    ensures forall b, j :: IsJoint(cfg, b, j) ==>
              var jc := cfg.buses[b].joints[j];
              1 <= |jc.name| <= 63 && 1 <= jc.nodeId <= 254 && jc.mode in {4, 8, 9, 10, 11}
    ensures forall g :: 0 <= g < cfg.groupCount ==> 1 <= cfg.groups[g].rateHz <= 4000
  {
    hide UniqueJoints, DrivenOnce, ValidList;
    forall b | 0 <= b < cfg.busCount
      ensures ValidBus(cfg.buses[b]) && cfg.buses[b].jointCount <= 16
    {}
    JointSumBound(cfg.buses, cfg.busCount);
    forall b, j | IsJoint(cfg, b, j)
      ensures ValidJoint(cfg.buses[b].joints[j])
    {}
  }

  // ---------------------------------------------------------------- what acceptance gives

  /** The sum of the bus counts of the first n groups. */
  function BusSum(groups: seq<TickGroupCfg>, n: nat): nat
    requires n <= |groups|
  {
    if n == 0 then 0 else BusSum(groups, n - 1) + groups[n - 1].busCount
  }

  lemma ValidGroupsHaveShortLists(cfg: Config)
    requires cfg.Shaped() && ValidConfig(cfg)
    ensures ShortLists(cfg)
  {
    forall g | 0 <= g < cfg.groupCount
      ensures cfg.groups[g].busCount <= MAX_BUSES && Distinct(cfg.groups[g].busIndex[..cfg.groups[g].busCount])
    {
      assert ValidGroup(cfg, cfg.groups[g]);
    }
  }

  lemma {:induction false} FlattenLength(cfg: Config, n: nat)
    requires cfg.Shaped() && ShortLists(cfg) && n <= cfg.groupCount
    ensures |Flatten(Lists(cfg)[..n])| == BusSum(cfg.groups, n)
  {
    if n > 0 {
      FlattenLength(cfg, n - 1);
      assert Lists(cfg)[..n][..n - 1] == Lists(cfg)[..n - 1];
    }
  }

  lemma {:induction false} FlattenBounded(lists: seq<seq<nat>>, n: nat)
    requires forall g, i :: 0 <= g < |lists| && 0 <= i < |lists[g]| ==> lists[g][i] < n
    ensures forall k :: 0 <= k < |Flatten(lists)| ==> Flatten(lists)[k] < n
  {
    if lists != [] {
      FlattenBounded(lists[..|lists| - 1], n);
      var last := lists[|lists| - 1];
      assert forall i :: 0 <= i < |last| ==> last[i] < n;
    }
  }

  lemma CountBounds(s: seq<nat>, n: nat)
    requires forall k :: 0 <= k < |s| ==> s[k] < n
    requires forall b :: 0 <= b < n ==> Count(s, b) == 1
    ensures multiset(s) == multiset(Range(n))
  {
    forall x: nat
      ensures multiset(s)[x] == multiset(Range(n))[x]
    {
      DistinctMultiplicity(Range(n), x);
      if x < n {
        assert Count(s, x) == 1 && Range(n)[x] == x;
      } else {
        assert x !in s;
      }
    }
  }

  /** The tick groups partition the buses: their lists, put together, are a permutation of
      0 .. bus_count, so their lengths add up to bus_count. */
  lemma GroupsPartitionBuses(cfg: Config)
    requires cfg.Shaped() && ValidConfig(cfg)
    ensures ShortLists(cfg)
    ensures multiset(Flatten(Lists(cfg))) == multiset(Range(cfg.busCount))
    ensures BusSum(cfg.groups, cfg.groupCount) == cfg.busCount
  {
    hide Flatten, Count;
    ValidGroupsHaveShortLists(cfg);
    var lists := Lists(cfg);
    forall g, i | 0 <= g < |lists| && 0 <= i < |lists[g]|
      ensures lists[g][i] < cfg.busCount
    {
      assert ValidGroup(cfg, cfg.groups[g]);
    }
    FlattenBounded(lists, cfg.busCount);
    forall b | 0 <= b < cfg.busCount
      ensures Count(Flatten(lists), b) == 1
    {
      OneHitIffDrivenOnce(cfg, b);
    }
    CountBounds(Flatten(lists), cfg.busCount);
    FlattenLength(cfg, cfg.groupCount);
    assert lists[..cfg.groupCount] == lists;
    assert |Flatten(lists)| == |multiset(Flatten(lists))| == |multiset(Range(cfg.busCount))| == cfg.busCount;
  }

  /** Global joint index k belongs to bus b. */
  ghost predicate OwnsJoint(buses: seq<BusCfg>, b: nat, k: nat)
    requires b < |buses|
  {
    JointSum(buses, b) <= k < JointSum(buses, b + 1)
  }

  lemma {:induction false} JointSumGrows(buses: seq<BusCfg>, a: nat, b: nat)
    requires a <= b <= |buses|
    ensures JointSum(buses, a) <= JointSum(buses, b)
  {
    if a < b {
      JointSumGrows(buses, a, b - 1);
    }
  }

  lemma {:induction false} BusOfJoint(buses: seq<BusCfg>, n: nat, k: nat) returns (b: nat)
    requires n <= |buses| && k < JointSum(buses, n)
    ensures b < n && OwnsJoint(buses, b, k)
    ensures forall b2 :: 0 <= b2 < |buses| && OwnsJoint(buses, b2, k) ==> b2 == b
  {
    if k < JointSum(buses, n - 1) {
      b := BusOfJoint(buses, n - 1, k);
    } else {
      b := n - 1;
      forall b2 | 0 <= b2 < |buses| && OwnsJoint(buses, b2, k)
        ensures b2 == b
      {
        if b2 < b { JointSumGrows(buses, b2 + 1, b); }
        if b2 > b { JointSumGrows(buses, b + 1, b2); }
      }
    }
  }

  /** Entry i of group g drives the bus that global joint index k belongs to. */
  ghost predicate Serves(cfg: Config, g: int, i: int, k: nat)
    requires cfg.Shaped()
  {
    && 0 <= g < cfg.groupCount && g < MAX_TICK_GROUPS && 0 <= i < cfg.groups[g].busCount && i < MAX_BUSES
    && cfg.groups[g].busIndex[i] < MAX_BUSES
    && OwnsJoint(cfg.buses, cfg.groups[g].busIndex[i], k)
  }

  /** Different groups own disjoint sets of global joint indices, and together all of them: every
      joint is served by exactly one entry of one group. */
  lemma EveryJointHasOneThread(cfg: Config, k: nat)
    requires cfg.Shaped() && ValidConfig(cfg) && k < JointSum(cfg.buses, cfg.busCount)
    ensures exists g, i :: Serves(cfg, g, i, k)
    ensures forall g, i, g2, i2 :: Serves(cfg, g, i, k) && Serves(cfg, g2, i2, k) ==> g == g2 && i == i2
  {
    var b := BusOfJoint(cfg.buses, cfg.busCount, k);
    assert DrivenOnce(cfg, b);
    var g, i :| Drives(cfg, g, i, b);
    assert Serves(cfg, g, i, k);
    forall g, i, g2, i2 | Serves(cfg, g, i, k) && Serves(cfg, g2, i2, k)
      ensures g == g2 && i == i2
    {
      assert Drives(cfg, g, i, b) && Drives(cfg, g2, i2, b);
    }
  }
}
