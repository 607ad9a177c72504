/**
 The global joint index: `find_joint` and `bus_joint_base` number the joints bus by bus,
 `locate_joint` goes back, and `map_joints` finds the joints of a robot description by name.
 */
module JointIndex {
  import opened Wrappers
  import opened Config

  /** The global index of joint j of bus b. */
  function Index(cfg: Config, b: nat, j: nat): nat
    requires b <= |cfg.buses|
  {
    JointSum(cfg.buses, b) + j
  }

  /** static_cast<int> of a 32-bit unsigned value. */
  function ToInt32(x: nat): (r: int)
    ensures -0x8000_0000 <= r < 0x8000_0000 && (x - r) % 0x1_0000_0000 == 0
  {
    var w := x % WRAP32;
    if w < WRAP32 / 2 then w else w - WRAP32
  }

  function Total(cfg: Config): nat
    requires cfg.busCount <= |cfg.buses|
  {
    JointSum(cfg.buses, cfg.busCount)
  }

  // ---------------------------------------------------------------- name to index

  ghost predicate HasName(cfg: Config, b: int, j: int, name: string)
    requires cfg.Shaped()
  {
    IsJoint(cfg, b, j) && cfg.buses[b].joints[j].name == name
  }

  function Least(a: nat, b: nat): nat { if a < b then a else b }

  /** bus_joint_base(): a bus that does not exist counts all buses. */
  method BusJointBase(cfg: Config, busIndex: nat) returns (base: nat)
    requires cfg.Shaped()
    ensures base == JointSum(cfg.buses, Least(busIndex, Least(cfg.busCount, MAX_BUSES))) % WRAP32
  {
    base := 0;
    var i := 0;
    while i < busIndex && i < cfg.busCount && i < MAX_BUSES
      invariant i <= busIndex && i <= cfg.busCount && i <= MAX_BUSES
      invariant base == JointSum(cfg.buses, i) % WRAP32
    {
      base := (base + cfg.buses[i].jointCount) % WRAP32;
      i := i + 1;
    }
  }

  lemma NarrowingAfterWrap(base: nat, j: nat)
    ensures ToInt32(base % WRAP32 + j) == ToInt32(base + j)
  {}

  /** find_joint() on any configuration: the first joint of that name in bus order, or -1. */
  method FindJoint(cfg: Config, name: string) returns (r: int, bus: nat, local: nat)
    requires cfg.Shaped()
    ensures (name != "" && exists b, j :: HasName(cfg, b, j, name)) ==>
              && HasName(cfg, bus, local, name) && r == ToInt32(Index(cfg, bus, local))
              && forall b, j :: HasName(cfg, b, j, name) ==> bus < b || (bus == b && local <= j)
    ensures (name == "" || !exists b, j :: HasName(cfg, b, j, name)) ==> r == -1 && bus == 0 && local == 0
  {
    hide ToInt32;
    bus, local := 0, 0;
    if name == "" { return -1, 0, 0; }
    var b := 0;
    while b < cfg.busCount && b < MAX_BUSES
      invariant forall b2, j2 :: b2 < b ==> !HasName(cfg, b2, j2, name)
    {
      var j := 0;
      while j < cfg.buses[b].jointCount && j < MAX_JOINTS_PER_BUS
        invariant forall b2, j2 :: b2 < b || (b2 == b && j2 < j) ==> !HasName(cfg, b2, j2, name)
      {
        if cfg.buses[b].joints[j].name == name {
          assert HasName(cfg, b, j, name);
          var base := BusJointBase(cfg, b);
          NarrowingAfterWrap(JointSum(cfg.buses, b), j);
          return ToInt32(base + j), b, j;
        }
        j := j + 1;
      }
      b := b + 1;
    }
    return -1, 0, 0;
  }

  // ---------------------------------------------------------------- index to position

  /** The position that a global index stands for. */
  ghost predicate At(cfg: Config, k: nat, b: nat, j: nat)
    requires cfg.busCount <= |cfg.buses|
  {
    b < cfg.busCount && j < cfg.buses[b].jointCount && k == Index(cfg, b, j)
  }

  /** locate_joint(): counts through the buses. */
  method LocateJoint(cfg: Config, global: nat) returns (r: Option<(nat, nat)>)
    requires cfg.Shaped() && cfg.busCount <= MAX_BUSES
    ensures r.Some? <==> global < Total(cfg)
    ensures r.Some? ==> At(cfg, global, r.value.0, r.value.1)
  {
    var seen := 0;
    for b := 0 to cfg.busCount
      invariant seen == JointSum(cfg.buses, b) <= global
    {
      for k := 0 to cfg.buses[b].jointCount
        invariant seen == JointSum(cfg.buses, b) + k <= global
      {
        if seen == global {
          JointSumGrows(cfg.buses, b + 1, cfg.busCount);
          return Some((b, k));
        }
        seen := seen + 1;
      }
    }
    return None;
  }

  /** Index is a bijection between positions and 0 .. total. */
  lemma IndexIsBijective(cfg: Config, k: nat)
    requires cfg.Shaped() && cfg.busCount <= MAX_BUSES
    ensures k < Total(cfg) <==> exists b: nat, j: nat :: At(cfg, k, b, j)
    ensures forall b: nat, j: nat, b2: nat, j2: nat :: At(cfg, k, b, j) && At(cfg, k, b2, j2) ==> b == b2 && j == j2
  {
    if k < Total(cfg) {
      var b := BusOfJoint(cfg.buses, cfg.busCount, k);
      assert At(cfg, k, b, k - JointSum(cfg.buses, b));
    }
    forall b: nat, j: nat | At(cfg, k, b, j)
      ensures k < Total(cfg) && OwnsJoint(cfg.buses, b, k)
    {
      JointSumGrows(cfg.buses, b + 1, cfg.busCount);
    }
    if k < Total(cfg) {
      var b := BusOfJoint(cfg.buses, cfg.busCount, k);
    }
  }

  /** In an accepted configuration the total is at most 128, so indices survive the narrowing. */
  lemma IndexFits(cfg: Config, b: nat, j: nat)
    requires cfg.Shaped() && ValidConfig(cfg) && IsJoint(cfg, b, j)
    ensures At(cfg, Index(cfg, b, j), b, j)
    ensures Index(cfg, b, j) < Total(cfg) <= MAX_JOINTS
    ensures ToInt32(Index(cfg, b, j)) == Index(cfg, b, j)
  {
    assert forall k :: 0 <= k < cfg.busCount ==> ValidBus(cfg.buses[k]);
    JointSumBound(cfg.buses, cfg.busCount);
    JointSumGrows(cfg.buses, b + 1, cfg.busCount);
  }

  /** find_joint() then locate_joint(), and back: for an accepted configuration the name of joint
      j of bus b is found at bus_joint_base(b) + j, and that index leads back to (b, j). */
  method FindAndLocate(cfg: Config, b: nat, j: nat) returns (k: int, back: Option<(nat, nat)>)
    requires cfg.Shaped() && ValidConfig(cfg) && IsJoint(cfg, b, j)
    ensures k == Index(cfg, b, j) && back == Some((b, j))
  {
    var name := cfg.buses[b].joints[j].name;
    assert ValidBus(cfg.buses[b]);
    assert HasName(cfg, b, j, name);
    var bus, local;
    k, bus, local := FindJoint(cfg, name);
    assert (bus, local) == (b, j);
    IndexFits(cfg, b, j);
    IndexIsBijective(cfg, Index(cfg, b, j));
    back := LocateJoint(cfg, k);
  }

  // ---------------------------------------------------------------- all joints in index order

  /** The joints of the first n buses, one after the other. */
  ghost function AllJoints(buses: seq<BusCfg>, n: nat): seq<JointCfg>
    requires n <= |buses| && forall b :: 0 <= b < n ==> buses[b].jointCount <= |buses[b].joints|
  {
    if n == 0 then [] else AllJoints(buses, n - 1) + buses[n - 1].joints[..buses[n - 1].jointCount]
  }

  lemma {:induction false} AllJointsLength(buses: seq<BusCfg>, n: nat)
    requires n <= |buses| && forall b :: 0 <= b < n ==> buses[b].jointCount <= |buses[b].joints|
    ensures |AllJoints(buses, n)| == JointSum(buses, n)
  {
    if n > 0 {
      AllJointsLength(buses, n - 1);
    }
  }

  lemma {:induction false} AllJointsAt(buses: seq<BusCfg>, n: nat, b: nat, j: nat)
    requires n <= |buses| && forall b :: 0 <= b < n ==> buses[b].jointCount <= |buses[b].joints|
    requires b < n && j < buses[b].jointCount
    ensures JointSum(buses, b) + j < |AllJoints(buses, n)|
    ensures AllJoints(buses, n)[JointSum(buses, b) + j] == buses[b].joints[j]
  {
    AllJointsLength(buses, n - 1);
    if b < n - 1 {
      AllJointsAt(buses, n - 1, b, j);
    }
  }

  ghost predicate Sized(cfg: Config)
  {
    && cfg.Shaped() && cfg.busCount <= MAX_BUSES
    && forall b :: 0 <= b < cfg.busCount ==> cfg.buses[b].jointCount <= MAX_JOINTS_PER_BUS
  }

  lemma ValidIsSized(cfg: Config)
    requires cfg.Shaped() && ValidConfig(cfg)
    ensures Sized(cfg)
  {
    assert forall b :: 0 <= b < cfg.busCount ==> ValidBus(cfg.buses[b]);
  }

  ghost function Joints(cfg: Config): seq<JointCfg>
    requires Sized(cfg)
  {
    AllJoints(cfg.buses, cfg.busCount)
  }

  lemma JointAt(cfg: Config, k: nat, b: nat, j: nat)
    requires Sized(cfg) && At(cfg, k, b, j)
    ensures k < |Joints(cfg)| == Total(cfg) && Joints(cfg)[k] == cfg.buses[b].joints[j] && IsJoint(cfg, b, j)
  {
    AllJointsLength(cfg.buses, cfg.busCount);
    AllJointsAt(cfg.buses, cfg.busCount, b, j);
  }

  /** The names in index order do not repeat, so a name stands for at most one index. */
  lemma NamesDistinct(cfg: Config, k: nat, k2: nat)
    requires Sized(cfg) && UniqueJoints(cfg) && k < |Joints(cfg)| && k2 < |Joints(cfg)|
    requires Joints(cfg)[k].name == Joints(cfg)[k2].name
    ensures k == k2
  {
    AllJointsLength(cfg.buses, cfg.busCount);
    IndexIsBijective(cfg, k);
    IndexIsBijective(cfg, k2);
    var b: nat, j: nat :| At(cfg, k, b, j);
    var b2: nat, j2: nat :| At(cfg, k2, b2, j2);
    JointAt(cfg, k, b, j);
    JointAt(cfg, k2, b2, j2);
  }

  // ---------------------------------------------------------------- map_joints

  const CURRENT_MODE: nat := 11

  /** The joint that a name of the robot description stands for, if any. */
  ghost predicate Means(cfg: Config, name: string, k: nat)
    requires Sized(cfg)
  {
    k < |Joints(cfg)| && Joints(cfg)[k].name == name
  }

  ghost predicate Known(cfg: Config, name: string)
    requires Sized(cfg)
  {
    exists k: nat :: Means(cfg, name, k)
  }

  ghost predicate Drivable(cfg: Config, name: string)
    requires Sized(cfg)
  {
    exists k: nat :: Means(cfg, name, k) && Joints(cfg)[k].mode != CURRENT_MODE
  }

  class SystemInterface {
    const cfg: Config
    const urdf: seq<string>   // info_.joints
    var jointName: seq<string>
    var jointIndex: seq<nat>
    var jointMode: seq<nat>

    constructor (c: Config, names: seq<string>)
      ensures cfg == c && urdf == names && jointName == [] && jointIndex == [] && jointMode == []
    {
      cfg, urdf, jointName, jointIndex, jointMode := c, names, [], [], [];
    }

    ghost predicate NamesCollected()
      requires Sized(cfg)
      reads this
    {
      && |jointName| == |Joints(cfg)|
      && forall k :: 0 <= k < |jointName| ==> jointName[k] == Joints(cfg)[k].name
    }

    /** The first n names are mapped. */
    ghost predicate Mapped(n: nat)
      requires Sized(cfg)
      reads this
    {
      && n <= |urdf| == |jointIndex| == |jointMode|
      && forall i :: 0 <= i < n ==>
           Means(cfg, urdf[i], jointIndex[i]) && jointMode[i] == Joints(cfg)[jointIndex[i]].mode
    }

    method CollectNames()
      requires Sized(cfg)
      modifies this`jointName
      ensures NamesCollected()
    {
      jointName := [];
      for b := 0 to cfg.busCount
        invariant |jointName| == |AllJoints(cfg.buses, b)|
        invariant forall k :: 0 <= k < |jointName| ==> jointName[k] == AllJoints(cfg.buses, b)[k].name
      {
        ghost var before := AllJoints(cfg.buses, b);
        for k := 0 to cfg.buses[b].jointCount
          invariant |jointName| == |before| + k
          invariant forall i :: 0 <= i < |jointName| ==> jointName[i] == (before + cfg.buses[b].joints[..k])[i].name
        {
          jointName := jointName + [cfg.buses[b].joints[k].name];
        }
      }
    }

    method FindName(need: string) returns (found: nat)
      ensures found <= |jointName|
      ensures found < |jointName| ==> jointName[found] == need
      ensures found == |jointName| ==> need !in jointName
    {
      found := |jointName|;
      for g := 0 to |jointName|
        invariant need !in jointName[..g]
      {
        if jointName[g] == need { return g; }
      }
      assert jointName[..|jointName|] == jointName;
    }

    /** The first loop over the robot description. */
    method MapNames() returns (ok: bool)
      requires Sized(cfg) && NamesCollected()
      modifies this`jointIndex, this`jointMode
      ensures ok <==> forall i :: 0 <= i < |urdf| ==> Known(cfg, urdf[i])
      ensures ok ==> Mapped(|urdf|)
    {
      jointIndex, jointMode := seq(|urdf|, _ => 0), seq(|urdf|, _ => 4);
      for i := 0 to |urdf|
        invariant Mapped(i)
      {
        var found := FindName(urdf[i]);
        if found == |jointName| {
          assert forall k :: 0 <= k < |jointName| ==> jointName[k] != urdf[i];
          assert !Known(cfg, urdf[i]);
          return false;
        }
        assert Means(cfg, urdf[i], found);
        jointIndex := jointIndex[i := found];
        AllJointsLength(cfg.buses, cfg.busCount);
        var located := LocateJoint(cfg, found);
        if located.Some? {
          var (bus, local) := located.value;
          JointAt(cfg, found, bus, local);
          jointMode := jointMode[i := cfg.buses[bus].joints[local].mode];
        }
      }
      return true;
    }

    /** The last loop: a joint in current mode cannot be driven through this interface. */
    method RefuseCurrent() returns (ok: bool)
      requires Sized(cfg) && Mapped(|urdf|)
      ensures ok <==> forall i :: 0 <= i < |urdf| ==> jointMode[i] != CURRENT_MODE
    {
      for i := 0 to |jointIndex|
        invariant forall k :: 0 <= k < i ==> jointMode[k] != CURRENT_MODE
      {
        AllJointsLength(cfg.buses, cfg.busCount);
        var located := LocateJoint(cfg, jointIndex[i]);
        if located.Some? {
          var (bus, local) := located.value;
          JointAt(cfg, jointIndex[i], bus, local);
          if cfg.buses[bus].joints[local].mode == CURRENT_MODE { return false; }
        }
      }
      return true;
    }

    /** map_joints() on an accepted configuration succeeds exactly when every name of the robot
        description is a configured joint not in current mode; then every entry holds that joint's
        index and mode, and two entries share an index only if they share a name. */
    method MapJoints() returns (ok: bool)
      requires cfg.Shaped() && ValidConfig(cfg)
      modifies this
      ensures Sized(cfg)
      ensures ok <==> forall i :: 0 <= i < |urdf| ==> Drivable(cfg, urdf[i])
      ensures ok ==> && Mapped(|urdf|)
                     && forall i, k :: 0 <= i < |urdf| && 0 <= k < |urdf| ==>
                          (jointIndex[i] == jointIndex[k] <==> urdf[i] == urdf[k])
    {
      ValidIsSized(cfg);
      CollectNames();
      ok := MapNames();
      if !ok {
        assert exists i :: 0 <= i < |urdf| && !Known(cfg, urdf[i]);
        assert forall i :: 0 <= i < |urdf| ==> Drivable(cfg, urdf[i]) ==> Known(cfg, urdf[i]);
        return;
      }
      ok := RefuseCurrent();
      forall i, k | 0 <= i < |urdf| && 0 <= k < |urdf|
        ensures jointIndex[i] == jointIndex[k] <==> urdf[i] == urdf[k]
      {
        if urdf[i] == urdf[k] { NamesDistinct(cfg, jointIndex[i], jointIndex[k]); }
      }
      forall i | 0 <= i < |urdf|
        ensures Drivable(cfg, urdf[i]) <==> jointMode[i] != CURRENT_MODE
      {
        assert Means(cfg, urdf[i], jointIndex[i]);
        forall k: nat | Means(cfg, urdf[i], k)
          ensures k == jointIndex[i]
        {
          NamesDistinct(cfg, k, jointIndex[i]);
        }
      }
    }
  }

  /** map_joints() and find_joint() number the joints alike. */
  method SameIndexAsFindJoint(cfg: Config, name: string, k: nat) returns (r: int, bus: nat, local: nat)
    requires cfg.Shaped() && ValidConfig(cfg)
    requires Sized(cfg) && Means(cfg, name, k)
    ensures r == k && At(cfg, k, bus, local)
  {
    AllJointsLength(cfg.buses, cfg.busCount);
    IndexIsBijective(cfg, k);
    ghost var b: nat, j: nat :| At(cfg, k, b, j);
    JointAt(cfg, k, b, j);
    assert ValidBus(cfg.buses[b]) && HasName(cfg, b, j, name);
    IndexFits(cfg, b, j);
    r, bus, local := FindJoint(cfg, name);
    assert (bus, local) == (b, j);
  }
}
