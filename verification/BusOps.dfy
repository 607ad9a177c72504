/**
 `read_params` and `write_params`: the batching of reads by joint against one-at-a-time reads, and
 the classification of writes with the rule for saving to flash. The device is a function from
 joint and path to an answer for reads, and one answer per item for writes.
 */
module BusOps {
  import opened Wrappers
  import opened Param

  const MAX_PARAM_BATCH: nat := 16

  datatype Status = Ok | InvalidArgument | InvalidState | Timeout | Transport | Protocol | NotFound | NotSupported
                  | NoMemory | Unverified | Internal

  /** jsdk_status_t; `Other` is every code without a case of its own. */
  datatype SdkStatus = SdkOk | SdkInvalidArg | SdkNoMemory | SdkNotFound | SdkBadState | SdkTransport | SdkUnsupported
                     | SdkTimeout | SdkProtocol | SdkBusy | SdkParse | Other

  function MapSdk(st: SdkStatus): (r: Status)
    ensures r.Ok? <==> st.SdkOk?
    ensures !r.Unverified?
    ensures (r.InvalidArgument? <==> st.SdkInvalidArg?) && (r.NotFound? <==> st.SdkNotFound?)
    ensures (r.NoMemory? <==> st.SdkNoMemory?) && (r.Timeout? <==> st.SdkTimeout?)
    ensures (r.Transport? <==> st.SdkTransport?) && (r.NotSupported? <==> st.SdkUnsupported?)
    ensures r.InvalidState? <==> st.SdkBadState? || st.SdkBusy?
    ensures r.Protocol? <==> st.SdkProtocol? || st.SdkParse?
  {
    match st
    case SdkOk => Ok
    case SdkInvalidArg => InvalidArgument
    case SdkNoMemory => NoMemory
    case SdkNotFound => NotFound
    case SdkBadState => InvalidState
    case SdkTransport => Transport
    case SdkUnsupported => NotSupported
    case SdkTimeout => Timeout
    case SdkProtocol => Protocol
    case SdkBusy => InvalidState
    case SdkParse => Protocol
    case Other => Internal
  }

  datatype Reply = Reply(status: SdkStatus, value: ParamValue)

  /** What the descriptor says about a path. */
  datatype Endpoint = Endpoint(ty: ParamType, writable: bool)

  /** A null path is the empty one: both are refused alike. */
  datatype ReadItem = ReadItem(joint: nat, path: string, declared: ParamType, value: ParamValue, status: Status)

  /** One call of jsdk_joint_param_get_batch(). */
  datatype Batch = Batch(joint: nat, paths: seq<string>)

  predicate Addressed(it: ReadItem, joints: nat) {
    it.joint < joints && it.path != ""
  }

  /** The part of the device that reads see. */
  datatype Device = Device(joints: nat, reply: (nat, string) -> Reply, lookup: string -> Option<Endpoint>)
  {
    function Cleared(it: ReadItem): ReadItem {
      it.(value := NoValue, declared := Unsupported,
          status := if Addressed(it, joints) then it.status else InvalidArgument)
    }

    function Answered(it: ReadItem): ReadItem {
      var r := reply(it.joint, it.path);
      Cleared(it).(value := r.value, status := MapSdk(r.status))
    }

    function Declared(it: ReadItem): ReadItem {
      if !it.status.Ok? then it else
      match lookup(it.path)
      case None => it
      case Some(e) => it.(declared := e.ty)
    }

    /** What reading this item alone gives. */
    function ReadOne(it: ReadItem): ReadItem {
      if Addressed(it, joints) then Declared(Answered(it)) else Cleared(it)
    }

    function Settled(it: ReadItem): ReadItem {
      if Addressed(it, joints) then Answered(it) else Cleared(it)
    }
  }

  // ---------------------------------------------------------------- which batches

  /** The positions, below n, of the items for joint j. */
  function Indices(ins: seq<ReadItem>, joints: nat, j: nat, n: nat): (r: seq<nat>)
    requires n <= |ins|
    ensures forall m :: 0 <= m < |r| ==> r[m] < n && Addressed(ins[r[m]], joints) && ins[r[m]].joint == j
  {
    if n == 0 then [] else
    var last := if Addressed(ins[n - 1], joints) && ins[n - 1].joint == j then [n - 1] else [];
    Indices(ins, joints, j, n - 1) + last
  }

  /** Consecutive pieces of 16, the last one possibly shorter. */
  function Chunks(s: seq<nat>): (r: seq<seq<nat>>)
    ensures forall c :: 0 <= c < |r| ==> 0 < |r[c]| <= MAX_PARAM_BATCH
  {
    if s == [] then []
    else if |s| <= MAX_PARAM_BATCH then [s]
    else [s[..MAX_PARAM_BATCH]] + Chunks(s[MAX_PARAM_BATCH..])
  }

  function Paths(ins: seq<ReadItem>, idx: seq<nat>): (r: seq<string>)
    requires forall m :: 0 <= m < |idx| ==> idx[m] < |ins|
    ensures |r| == |idx| && forall m :: 0 <= m < |idx| ==> r[m] == ins[idx[m]].path
  {
    seq(|idx|, m requires 0 <= m < |idx| => ins[idx[m]].path)
  }

  predicate Within(chunks: seq<seq<nat>>, n: nat) {
    forall c, m :: 0 <= c < |chunks| && 0 <= m < |chunks[c]| ==> chunks[c][m] < n
  }

  function Sends(ins: seq<ReadItem>, j: nat, chunks: seq<seq<nat>>): (r: seq<Batch>)
    requires Within(chunks, |ins|)
    ensures |r| == |chunks|
    ensures forall c :: 0 <= c < |r| ==> r[c] == Batch(j, Paths(ins, chunks[c]))
  {
    seq(|chunks|, c requires 0 <= c < |chunks| => Batch(j, Paths(ins, chunks[c])))
  }

  lemma {:induction false} ChunksWithin(s: seq<nat>, n: nat)
    requires forall m :: 0 <= m < |s| ==> s[m] < n
    ensures Within(Chunks(s), n)
  {
    if |s| > MAX_PARAM_BATCH {
      ChunksWithin(s[MAX_PARAM_BATCH..], n);
    }
  }

  lemma {:induction false} ChunkAppends(s: seq<nat>, t: seq<nat>)
    requires |s| % MAX_PARAM_BATCH == 0 && 0 < |t| <= MAX_PARAM_BATCH
    ensures Chunks(s + t) == Chunks(s) + [t]
  {
    if s == [] {
      assert s + t == t;
    } else if |s| == MAX_PARAM_BATCH {
      assert (s + t)[..MAX_PARAM_BATCH] == s && (s + t)[MAX_PARAM_BATCH..] == t;
    } else {
      var n := MAX_PARAM_BATCH;
      ChunkAppends(s[n..], t);
      assert (s + t)[..n] == s[..n] && (s + t)[n..] == s[n..] + t;
    }
  }

  /** The calls for joint j. */
  function JointBatches(ins: seq<ReadItem>, joints: nat, j: nat): seq<Batch> {
    ChunksWithin(Indices(ins, joints, j, |ins|), |ins|);
    Sends(ins, j, Chunks(Indices(ins, joints, j, |ins|)))
  }

  /** The calls for the joints below n. */
  function AllBatches(ins: seq<ReadItem>, joints: nat, n: nat): seq<Batch> {
    if n == 0 then [] else AllBatches(ins, joints, n - 1) + JointBatches(ins, joints, n - 1)
  }

  // ---------------------------------------------------------------- counting

  /** How many of the items settled so far are, or are not, kOk. */
  function Score(fin: seq<ReadItem>, done: seq<bool>, ok: bool): nat
    requires |fin| == |done|
  {
    if fin == [] then 0 else
    var n := |fin| - 1;
    Score(fin[..n], done[..n], ok) + (if done[n] && fin[n].status.Ok? == ok then 1 else 0)
  }

  lemma {:induction false} ScoreOne(fin: seq<ReadItem>, done: seq<bool>, k: nat, ok: bool)
    requires |fin| == |done| && k < |fin| && !done[k]
    ensures Score(fin, done[k := true], ok) == Score(fin, done, ok) + (if fin[k].status.Ok? == ok then 1 else 0)
  {
    var n := |fin| - 1;
    if k < n {
      assert done[k := true][..n] == done[..n][k := true];
      ScoreOne(fin[..n], done[..n], k, ok);
    } else {
      assert done[k := true][..n] == done[..n];
    }
  }

  lemma {:induction false} ScoreNone(fin: seq<ReadItem>, done: seq<bool>, ok: bool)
    requires |fin| == |done| && forall k :: 0 <= k < |done| ==> !done[k]
    ensures Score(fin, done, ok) == 0
  {
    if fin != [] {
      ScoreNone(fin[..|fin| - 1], done[..|fin| - 1], ok);
    }
  }

  lemma {:induction false} ScoreAll(fin: seq<ReadItem>, done: seq<bool>)
    requires |fin| == |done| && forall k :: 0 <= k < |done| ==> done[k]
    ensures Score(fin, done, true) + Score(fin, done, false) == |fin|
    ensures Score(fin, done, false) == 0 <==> forall k :: 0 <= k < |fin| ==> fin[k].status.Ok?
  {
    if fin != [] {
      ScoreAll(fin[..|fin| - 1], done[..|fin| - 1]);
    }
  }

  function Results(dev: Device, ins: seq<ReadItem>): (r: seq<ReadItem>)
    ensures |r| == |ins| && forall k :: 0 <= k < |ins| ==> r[k] == dev.Settled(ins[k])
  {
    seq(|ins|, k requires 0 <= k < |ins| => dev.Settled(ins[k]))
  }

  // ---------------------------------------------------------------- read_params

  /** The items of `ins` while some of them are settled, with the two counters. */
  ghost predicate Progress(dev: Device, now: seq<ReadItem>, ins: seq<ReadItem>, done: seq<bool>, ok: nat, bad: nat) {
    && |now| == |ins| == |done|
    && (forall k :: 0 <= k < |ins| ==> now[k] == if done[k] then dev.Settled(ins[k]) else dev.Cleared(ins[k]))
    && ok == Score(Results(dev, ins), done, true)
    && bad == Score(Results(dev, ins), done, false)
  }

  lemma SettleOne(dev: Device, now: seq<ReadItem>, ins: seq<ReadItem>, done: seq<bool>, ok: nat, bad: nat, i: nat)
    requires Progress(dev, now, ins, done, ok, bad) && i < |ins| && !done[i]
    ensures var it := dev.Settled(ins[i]);
            Progress(dev, now[i := it], ins, done[i := true],
                     ok + (if it.status.Ok? then 1 else 0), bad + (if it.status.Ok? then 0 else 1))
  {
    ScoreOne(Results(dev, ins), done, i, true);
    ScoreOne(Results(dev, ins), done, i, false);
    hide Score;
  }

  /** The items of joint j at the positions idx wait to be sent. */
  ghost predicate Waiting(dev: Device, ins: seq<ReadItem>, done: seq<bool>, j: nat, idx: seq<nat>) {
    && |done| == |ins|
    && (forall m :: 0 <= m < |idx| ==> idx[m] < |ins| && !done[idx[m]])
    && (forall m :: 0 <= m < |idx| ==> Addressed(ins[idx[m]], dev.joints) && ins[idx[m]].joint == j)
    && (forall m, k :: 0 <= m < k < |idx| ==> idx[m] < idx[k])
  }

  /** What a caller gets for one item, in terms of the device alone. */
  predicate IsRead(was: ReadItem, it: ReadItem, dev: Device) {
    && it.joint == was.joint && it.path == was.path
    && if was.joint < dev.joints && was.path != "" then
         var r := dev.reply(was.joint, was.path);
         var found := dev.lookup(was.path);
         && it.value == r.value
         && it.status == MapSdk(r.status)
         && (it.status.Ok? <==> r.status.SdkOk?)
         && it.declared == if r.status.SdkOk? && found.Some? then found.value.ty else Unsupported
       else
         it.value == NoValue && it.status == InvalidArgument && it.declared == Unsupported
  }

  lemma ReadOneIsRead(it: ReadItem, dev: Device)
    ensures IsRead(it, dev.ReadOne(it), dev)
  {}

  class BusReader {
    const dev: Device
    var windowOk: bool         // open, configured and not active
    var batches: seq<Batch>    // the calls made so far

    constructor (d: Device)
      ensures dev == d && batches == [] && !windowOk
    {
      dev, batches, windowOk := d, [], false;
    }

    /** The first loop: clears every item and settles those that cannot be sent. */
    method ClearItems(items: array<ReadItem>) returns (bad: nat, ghost done: seq<bool>)
      modifies items
      ensures |done| == items.Length
      ensures forall k :: 0 <= k < |done| ==> done[k] == !Addressed(old(items[k]), dev.joints)
      ensures Progress(dev, items[..], old(items[..]), done, 0, bad)
    {
      ghost var ins := items[..];
      ghost var fin := Results(dev, ins);
      done := seq(items.Length, _ => false);
      bad := 0;
      ScoreNone(fin, done, true);
      ScoreNone(fin, done, false);
      hide Score, Results;
      for i := 0 to items.Length
        invariant |done| == items.Length
        invariant forall k :: 0 <= k < |done| ==> done[k] == (k < i && !Addressed(ins[k], dev.joints))
        invariant forall k :: 0 <= k < i ==> items[k] == dev.Cleared(ins[k])
        invariant forall k :: i <= k < items.Length ==> items[k] == ins[k]
        invariant Score(fin, done, true) == 0 && bad == Score(fin, done, false)
      {
        var it := items[i];
        if it.joint >= dev.joints || it.path == "" {
          items[i] := it.(value := NoValue, declared := Unsupported, status := InvalidArgument);
          bad := bad + 1;
          ScoreOne(fin, done, i, true);
          ScoreOne(fin, done, i, false);
          done := done[i := true];
        } else {
          items[i] := it.(value := NoValue, declared := Unsupported);
        }
      }
    }

    /** jsdk_joint_param_get_batch() for the waiting items, which are settled by its answers. */
    method Flush(items: array<ReadItem>, ghost ins: seq<ReadItem>, j: nat, idx: seq<nat>,
                 ok: nat, bad: nat, ghost done: seq<bool>)
      returns (ok': nat, bad': nat, ghost done': seq<bool>)
      requires Progress(dev, items[..], ins, done, ok, bad) && Waiting(dev, ins, done, j, idx)
      modifies items, this`batches
      ensures |done'| == |done| && forall k :: 0 <= k < |done| ==> done'[k] == (done[k] || k in idx)
      ensures Progress(dev, items[..], ins, done', ok', bad')
      ensures batches == old(batches) + [Batch(j, Paths(ins, idx))]
    {
      hide Score, Results;
      var paths := [];
      for k := 0 to |idx|
        invariant paths == Paths(ins, idx)[..k]
      {
        assert items[..][idx[k]].path == ins[idx[k]].path;
        paths := paths + [items[idx[k]].path];
      }
      assert paths == Paths(ins, idx);
      batches := batches + [Batch(j, paths)];
      ok', bad', done' := ok, bad, done;
      for k := 0 to |idx|
        modifies items
        invariant |done'| == |done| && forall i :: 0 <= i < |done| ==> done'[i] == (done[i] || i in idx[..k])
        invariant Progress(dev, items[..], ins, done', ok', bad')
      {
        var i := idx[k];
        assert idx[..k + 1] == idx[..k] + [i];
        ghost var was := items[..];
        SettleOne(dev, was, ins, done', ok', bad', i);
        var r := dev.reply(j, items[i].path);
        items[i] := items[i].(value := r.value, status := MapSdk(r.status));
        assert items[..] == was[i := dev.Settled(ins[i])];
        if items[i].status.Ok? { ok' := ok' + 1; } else { bad' := bad' + 1; }
        done' := done'[i := true];
      }
      assert idx[..|idx|] == idx;
    }

    /** One pass of the outer loop: the items of joint j, in batches of 16. */
    method ReadJoint(items: array<ReadItem>, ghost ins: seq<ReadItem>, j: nat, ok: nat, bad: nat, ghost done: seq<bool>)
      returns (ok': nat, bad': nat, ghost done': seq<bool>)
      requires j < dev.joints
      requires Progress(dev, items[..], ins, done, ok, bad) && DoneBelow(dev, ins, done, j)
      modifies items, this`batches
      ensures Progress(dev, items[..], ins, done', ok', bad') && DoneBelow(dev, ins, done', j + 1)
      ensures batches == old(batches) + JointBatches(ins, dev.joints, j)
    {
      hide Progress, Sent, Waiting, Pending, DoneBelow, JointBatches, Paths;
      ok', bad', done' := ok, bad, done;
      var idx: seq<nat> := [];
      ghost var sent: seq<nat>, calls: seq<Batch> := [], [];
      SameShape(dev, items[..], ins, done, ok, bad);
      NothingSent(dev, ins, done, j);
      for i := 0 to items.Length
        modifies items, this`batches
        invariant |ins| == items.Length && |idx| < MAX_PARAM_BATCH
        invariant Progress(dev, items[..], ins, done', ok', bad')
        invariant batches == old(batches) + calls && Sent(ins, dev.joints, j, i, sent, idx, calls)
        invariant Waiting(dev, ins, done', j, idx) && Pending(dev, ins, done', j, i, idx)
      {
        SameItem(dev, items[..], ins, done', ok', bad', i);
        if items[i].joint == j && items[i].path != "" {
          AnotherWaits(dev, ins, done', j, i, idx, sent, calls);
          idx := idx + [i];
          if |idx| == MAX_PARAM_BATCH {
            ghost var was := done';
            ok', bad', done' := Flush(items, ins, j, idx, ok', bad', done');
            FlushSends(dev, ins, was, done', j, i + 1, idx, sent, calls);
            sent, calls := sent + idx, calls + [Batch(j, Paths(ins, idx))];
            idx := [];
          }
        } else {
          NoneWaits(dev, ins, done', j, i, idx, sent, calls);
        }
      }
      if |idx| > 0 {
        ghost var was := done';
        ok', bad', done' := Flush(items, ins, j, idx, ok', bad', done');
        FlushSends(dev, ins, was, done', j, items.Length, idx, sent, calls);
        sent, calls := sent + idx, calls + [Batch(j, Paths(ins, idx))];
        idx := [];
      }
      AllSent(dev, ins, done', j, sent, calls);
    }

    /** The last loop: the declared type of every item that was read. */
    method DeclareTypes(items: array<ReadItem>)
      modifies items
      ensures forall k :: 0 <= k < items.Length ==> items[k] == dev.Declared(old(items[k]))
    {
      for i := 0 to items.Length
        invariant forall k :: 0 <= k < i ==> items[k] == dev.Declared(old(items[k]))
        invariant forall k :: i <= k < items.Length ==> items[k] == old(items[k])
      {
        if items[i].status.Ok? {
          match dev.lookup(items[i].path) {
            case None =>
            case Some(e) => items[i] := items[i].(declared := e.ty);
          }
        }
      }
    }

    /** The loops over the joints. */
    method SettleItems(items: array<ReadItem>) returns (ok: nat, bad: nat)
      modifies items, this`batches
      ensures forall k :: 0 <= k < items.Length ==> items[k] == dev.Settled(old(items[k]))
      ensures batches == old(batches) + AllBatches(old(items[..]), dev.joints, dev.joints)
      ensures ok == CountOk(items[..]) && ok + bad == items.Length
      ensures bad == 0 <==> forall k :: 0 <= k < items.Length ==> items[k].status.Ok?
    {
      hide Progress, JointBatches, CountOk;
      ghost var ins := items[..];
      ghost var done: seq<bool>;
      ok := 0;
      bad, done := ClearItems(items);
      SameShape(dev, items[..], ins, done, 0, bad);
      for j := 0 to dev.joints
        invariant Progress(dev, items[..], ins, done, ok, bad) && DoneBelow(dev, ins, done, j)
        invariant batches == old(batches) + AllBatches(ins, dev.joints, j)
      {
        hide DoneBelow;
        ok, bad, done := ReadJoint(items, ins, j, ok, bad, done);
      }
      AllSettled(dev, items[..], ins, done, ok, bad);
      assert forall k :: 0 <= k < items.Length ==> items[..][k] == items[k];
    }

    /** Batching changes nothing: every item ends as if it had been read alone; the calls are those
        of `AllBatches`; the counters are the numbers of items that are and are not kOk, and the
        overall status is kOk exactly when every item's is. */
    method ReadParams(items: array<ReadItem>) returns (overall: Status, ok: nat, bad: nat)
      modifies items, this`batches
      ensures items.Length == 0 ==> overall == InvalidArgument && batches == old(batches)
      ensures items.Length > 0 && !windowOk ==>
                overall == InvalidState && batches == old(batches) && items[..] == old(items[..])
      ensures items.Length > 0 && windowOk ==>
                && (forall k :: 0 <= k < items.Length ==> items[k] == dev.ReadOne(old(items[k])))
                && (forall k :: 0 <= k < items.Length ==> IsRead(old(items[k]), items[k], dev))
                && batches == old(batches) + AllBatches(old(items[..]), dev.joints, dev.joints)
                && ok == CountOk(items[..]) && ok + bad == items.Length
                && overall == if forall k :: 0 <= k < items.Length ==> items[k].status.Ok? then Ok else Protocol
    {
      hide CountOk, AllBatches;
      ok, bad := 0, 0;
      if items.Length == 0 { return InvalidArgument, 0, 0; }
      if !windowOk { return InvalidState, 0, 0; }
      ghost var ins := items[..];
      ok, bad := SettleItems(items);
      ghost var settled := items[..];
      DeclareTypes(items);
      DeclaredIsReadOne(dev, settled, ins);
      SameCount(settled, items[..]);
      forall k | 0 <= k < items.Length
        ensures IsRead(ins[k], items[k], dev)
      {
        ReadOneIsRead(ins[k], dev);
      }
      overall := if bad == 0 then Ok else Protocol;
    }
  }

  function CountOk(items: seq<ReadItem>): nat {
    if items == [] then 0
    else CountOk(items[..|items| - 1]) + (if items[|items| - 1].status.Ok? then 1 else 0)
  }

  lemma {:induction false} ScoreIsCount(fin: seq<ReadItem>, done: seq<bool>)
    requires |fin| == |done| && forall k :: 0 <= k < |done| ==> done[k]
    ensures Score(fin, done, true) == CountOk(fin)
  {
    if fin != [] {
      ScoreIsCount(fin[..|fin| - 1], done[..|fin| - 1]);
    }
  }

  lemma {:induction false} SameCount(a: seq<ReadItem>, b: seq<ReadItem>)
    requires |a| == |b| && forall k :: 0 <= k < |a| ==> a[k].status == b[k].status
    ensures CountOk(a) == CountOk(b)
  {
    if a != [] {
      SameCount(a[..|a| - 1], b[..|b| - 1]);
    }
  }

  lemma AllSettled(dev: Device, now: seq<ReadItem>, ins: seq<ReadItem>, done: seq<bool>, ok: nat, bad: nat)
    requires Progress(dev, now, ins, done, ok, bad) && DoneBelow(dev, ins, done, dev.joints)
    ensures |now| == |ins| && forall k :: 0 <= k < |ins| ==> now[k] == dev.Settled(ins[k])
    ensures ok == CountOk(now) && ok + bad == |now|
    ensures bad == 0 <==> forall k :: 0 <= k < |now| ==> now[k].status.Ok?
  {
    assert forall k :: 0 <= k < |ins| ==> done[k];
    assert now == Results(dev, ins);
    ScoreAll(now, done);
    ScoreIsCount(now, done);
    hide Score, CountOk;
  }

  lemma DeclaredIsReadOne(dev: Device, settled: seq<ReadItem>, ins: seq<ReadItem>)
    requires |settled| == |ins| && forall k :: 0 <= k < |ins| ==> settled[k] == dev.Settled(ins[k])
    ensures forall k :: 0 <= k < |ins| ==> dev.Declared(settled[k]) == dev.ReadOne(ins[k])
    ensures forall k :: 0 <= k < |ins| ==> dev.Declared(settled[k]).status == settled[k].status
  {}

  /** Settled are the items that cannot be sent and those of the joints below j. */
  ghost predicate DoneBelow(dev: Device, ins: seq<ReadItem>, done: seq<bool>, j: nat) {
    |done| == |ins| && forall k :: 0 <= k < |ins| ==> done[k] == (!Addressed(ins[k], dev.joints) || ins[k].joint < j)
  }

  /** Within the pass for joint j: also its items before i, but for those at the positions idx. */
  ghost predicate Pending(dev: Device, ins: seq<ReadItem>, done: seq<bool>, j: nat, i: nat, idx: seq<nat>) {
    && |done| == |ins|
    && (forall m :: 0 <= m < |idx| ==> idx[m] < i)
    && forall k :: 0 <= k < |ins| ==>
         done[k] == (!Addressed(ins[k], dev.joints) || ins[k].joint < j || (ins[k].joint == j && k < i && k !in idx))
  }

  /** Of the first i items, those for joint j at the positions `sent` have gone out, with `calls`. */
  ghost predicate Sent(ins: seq<ReadItem>, joints: nat, j: nat, i: nat, sent: seq<nat>, idx: seq<nat>,
        calls: seq<Batch>)
  {
    && i <= |ins| && sent + idx == Indices(ins, joints, j, i)
    && (idx != [] ==> |sent| % MAX_PARAM_BATCH == 0) && |idx| <= MAX_PARAM_BATCH
    && Within(Chunks(sent), |ins|) && calls == Sends(ins, j, Chunks(sent))
    && (idx == [] ==> i == |ins| || |sent| % MAX_PARAM_BATCH == 0)
  }

  lemma SameShape(dev: Device, now: seq<ReadItem>, ins: seq<ReadItem>, done: seq<bool>, ok: nat, bad: nat)
    requires Progress(dev, now, ins, done, ok, bad)
    ensures |now| == |ins| == |done|
  {}

  /** Settling an item changes neither its joint nor its path. */
  lemma SameItem(dev: Device, now: seq<ReadItem>, ins: seq<ReadItem>, done: seq<bool>, ok: nat, bad: nat, i: nat)
    requires Progress(dev, now, ins, done, ok, bad) && i < |ins|
    ensures i < |now| && now[i].joint == ins[i].joint && now[i].path == ins[i].path
  {}

  lemma NothingSent(dev: Device, ins: seq<ReadItem>, done: seq<bool>, j: nat)
    requires DoneBelow(dev, ins, done, j)
    ensures Sent(ins, dev.joints, j, 0, [], [], [])
    ensures Waiting(dev, ins, done, j, []) && Pending(dev, ins, done, j, 0, [])
  {}

  lemma AnotherWaits(dev: Device, ins: seq<ReadItem>, done: seq<bool>, j: nat, i: nat, idx: seq<nat>,
        sent: seq<nat>, calls: seq<Batch>)
    requires Waiting(dev, ins, done, j, idx) && Pending(dev, ins, done, j, i, idx)
    requires Sent(ins, dev.joints, j, i, sent, idx, calls) && |idx| < MAX_PARAM_BATCH
    requires i < |ins| && ins[i].joint == j < dev.joints && ins[i].path != ""
    ensures Waiting(dev, ins, done, j, idx + [i]) && Pending(dev, ins, done, j, i + 1, idx + [i])
    ensures Sent(ins, dev.joints, j, i + 1, sent, idx + [i], calls)
  {
    hide Chunks, Sends;
    assert sent + (idx + [i]) == (sent + idx) + [i];
  }

  lemma NoneWaits(dev: Device, ins: seq<ReadItem>, done: seq<bool>, j: nat, i: nat, idx: seq<nat>,
        sent: seq<nat>, calls: seq<Batch>)
    requires Waiting(dev, ins, done, j, idx) && Pending(dev, ins, done, j, i, idx)
    requires Sent(ins, dev.joints, j, i, sent, idx, calls)
    requires i < |ins| && !(ins[i].joint == j && ins[i].path != "")
    ensures Pending(dev, ins, done, j, i + 1, idx)
    ensures Sent(ins, dev.joints, j, i + 1, sent, idx, calls)
  {
    hide Chunks, Sends;
  }

  lemma FlushSends(dev: Device, ins: seq<ReadItem>, done: seq<bool>, done': seq<bool>, j: nat, i: nat, idx: seq<nat>,
                   sent: seq<nat>, calls: seq<Batch>)
    requires Waiting(dev, ins, done, j, idx) && Pending(dev, ins, done, j, i, idx)
    requires Sent(ins, dev.joints, j, i, sent, idx, calls) && idx != [] && (i == |ins| || |idx| == MAX_PARAM_BATCH)
    requires |done'| == |done| && forall k :: 0 <= k < |done| ==> done'[k] == (done[k] || k in idx)
    ensures forall m :: 0 <= m < |idx| ==> idx[m] < |ins|
    ensures Waiting(dev, ins, done', j, []) && Pending(dev, ins, done', j, i, [])
    ensures Sent(ins, dev.joints, j, i, sent + idx, [], calls + [Batch(j, Paths(ins, idx))])
  {
    ChunkAppends(sent, idx);
    hide Chunks;
    assert sent + idx + [] == sent + idx;
  }

  lemma AllSent(dev: Device, ins: seq<ReadItem>, done: seq<bool>, j: nat, sent: seq<nat>, calls: seq<Batch>)
    requires Pending(dev, ins, done, j, |ins|, []) && Sent(ins, dev.joints, j, |ins|, sent, [], calls)
    ensures calls == JointBatches(ins, dev.joints, j) && DoneBelow(dev, ins, done, j + 1)
  {
    hide Chunks, Indices;
    assert sent + [] == sent;
  }

  // ---------------------------------------------------------------- every item goes out once

  function RequestsOf(b: Batch): (r: seq<(nat, string)>)
    ensures |r| == |b.paths| && forall m :: 0 <= m < |r| ==> r[m] == (b.joint, b.paths[m])
  {
    seq(|b.paths|, m requires 0 <= m < |b.paths| => (b.joint, b.paths[m]))
  }

  /** The requests of a run of calls, in the order in which the device sees them. */
  function Requests(batches: seq<Batch>): seq<(nat, string)> {
    if batches == [] then [] else Requests(batches[..|batches| - 1]) + RequestsOf(batches[|batches| - 1])
  }

  function Asked(ins: seq<ReadItem>, idx: seq<nat>): (r: seq<(nat, string)>)
    requires forall m :: 0 <= m < |idx| ==> idx[m] < |ins|
    ensures |r| == |idx| && forall m :: 0 <= m < |idx| ==> r[m] == (ins[idx[m]].joint, ins[idx[m]].path)
  {
    seq(|idx|, m requires 0 <= m < |idx| => (ins[idx[m]].joint, ins[idx[m]].path))
  }

  /** The positions that go out for the joints below n, in order. */
  function Order(ins: seq<ReadItem>, joints: nat, n: nat): (r: seq<nat>)
    ensures forall m :: 0 <= m < |r| ==> r[m] < |ins|
  {
    if n == 0 then [] else Order(ins, joints, n - 1) + Indices(ins, joints, n - 1, |ins|)
  }

  lemma {:induction false} IndexOnce(ins: seq<ReadItem>, joints: nat, j: nat, n: nat, k: nat)
    requires n <= |ins|
    ensures k in Indices(ins, joints, j, n) <==> k < n && Addressed(ins[k], joints) && ins[k].joint == j
    ensures Once(Indices(ins, joints, j, n), k)
  {
    if n > 0 {
      hide Addressed;
      IndexOnce(ins, joints, j, n - 1, k);
    }
  }

  /** k stands at no two places of s. */
  ghost predicate Once(s: seq<nat>, k: nat) {
    forall m, i :: 0 <= m < i < |s| && s[m] == k ==> s[i] != k
  }

  lemma OnceAdds(a: seq<nat>, b: seq<nat>, k: nat)
    requires Once(a, k) && Once(b, k) && !(k in a && k in b)
    ensures Once(a + b, k) && (k in a + b <==> k in a || k in b)
  {
    forall m, i | 0 <= m < i < |a + b| && (a + b)[m] == k
      ensures (a + b)[i] != k
    {
      if i >= |a| { assert (a + b)[i] == b[i - |a|]; }
      if m >= |a| { assert (a + b)[m] == b[m - |a|]; }
    }
  }

  ghost predicate InOrder(ins: seq<ReadItem>, joints: nat, n: nat, k: nat) {
    && Once(Order(ins, joints, n), k)
    && (k in Order(ins, joints, n) <==> k < |ins| && Addressed(ins[k], joints) && ins[k].joint < n)
  }

  lemma OrderGrows(ins: seq<ReadItem>, joints: nat, n: nat, k: nat)
    requires InOrder(ins, joints, n, k)
    ensures InOrder(ins, joints, n + 1, k)
  {
    hide Addressed, Indices, Once;
    var a, b := Order(ins, joints, n), Indices(ins, joints, n, |ins|);
    assert Order(ins, joints, n + 1) == a + b;
    hide Order;
    IndexOnce(ins, joints, n, |ins|, k);
    OnceAdds(a, b, k);
  }

  lemma NoneInOrder(ins: seq<ReadItem>, joints: nat, k: nat)
    ensures InOrder(ins, joints, 0, k)
  {
    hide Addressed;
    assert Order(ins, joints, 0) == [];
  }

  lemma {:induction false} OrderOnce(ins: seq<ReadItem>, joints: nat, n: nat, k: nat)
    ensures InOrder(ins, joints, n, k)
  {
    hide InOrder;
    if n == 0 {
      NoneInOrder(ins, joints, k);
    } else {
      OrderOnce(ins, joints, n - 1, k);
      OrderGrows(ins, joints, n - 1, k);
    }
  }

  lemma {:induction false} RequestsAdd(a: seq<Batch>, b: seq<Batch>)
    ensures Requests(a + b) == Requests(a) + Requests(b)
  {
    hide RequestsOf;
    if b == [] {
      assert a + b == a;
    } else {
      var n := |b| - 1;
      RequestsAdd(a, b[..n]);
      assert (a + b)[..|a + b| - 1] == a + b[..n] && (a + b)[|a + b| - 1] == b[n];
    }
  }

  lemma AskedAdds(ins: seq<ReadItem>, a: seq<nat>, b: seq<nat>)
    requires forall m :: 0 <= m < |a| ==> a[m] < |ins|
    requires forall m :: 0 <= m < |b| ==> b[m] < |ins|
    ensures Asked(ins, a + b) == Asked(ins, a) + Asked(ins, b)
  {}

  lemma {:induction false} ChunksAsk(ins: seq<ReadItem>, j: nat, s: seq<nat>)
    requires forall m :: 0 <= m < |s| ==> s[m] < |ins| && ins[s[m]].joint == j
    ensures Within(Chunks(s), |ins|) && Requests(Sends(ins, j, Chunks(s))) == Asked(ins, s)
    ensures |Chunks(s)| == (|s| + MAX_PARAM_BATCH - 1) / MAX_PARAM_BATCH
  {
    ChunksWithin(s, |ins|);
    if |s| > MAX_PARAM_BATCH {
      var a, b := s[..MAX_PARAM_BATCH], s[MAX_PARAM_BATCH..];
      ChunksAsk(ins, j, b);
      OneChunk(ins, j, a);
      assert Sends(ins, j, Chunks(s)) == Sends(ins, j, [a]) + Sends(ins, j, Chunks(b));
      RequestsAdd(Sends(ins, j, [a]), Sends(ins, j, Chunks(b)));
      assert a + b == s;
      AskedAdds(ins, a, b);
    } else if s != [] {
      OneChunk(ins, j, s);
    }
  }

  lemma OneBatch(b: Batch)
    ensures Requests([b]) == RequestsOf(b)
  {
    assert [b][..0] == [];
  }

  lemma OneChunk(ins: seq<ReadItem>, j: nat, s: seq<nat>)
    requires forall m :: 0 <= m < |s| ==> s[m] < |ins| && ins[s[m]].joint == j
    ensures Requests(Sends(ins, j, [s])) == Asked(ins, s)
  {
    var b := Batch(j, Paths(ins, s));
    assert Sends(ins, j, [s]) == [b];
    OneBatch(b);
  }

  lemma JointAsks(ins: seq<ReadItem>, joints: nat, j: nat)
    ensures Requests(JointBatches(ins, joints, j)) == Asked(ins, Indices(ins, joints, j, |ins|))
  {
    ChunksAsk(ins, j, Indices(ins, joints, j, |ins|));
    hide Requests, Chunks, Sends, Indices, Asked;
  }

  lemma AskBoth(ins: seq<ReadItem>, a: seq<Batch>, b: seq<Batch>, s: seq<nat>, t: seq<nat>)
    requires forall m :: 0 <= m < |s| ==> s[m] < |ins|
    requires forall m :: 0 <= m < |t| ==> t[m] < |ins|
    requires Requests(a) == Asked(ins, s) && Requests(b) == Asked(ins, t)
    ensures Requests(a + b) == Asked(ins, s + t)
  {
    RequestsAdd(a, b);
    AskedAdds(ins, s, t);
    hide Requests, Asked;
  }

  lemma BatchesAskMore(ins: seq<ReadItem>, joints: nat, n: nat)
    requires Requests(AllBatches(ins, joints, n)) == Asked(ins, Order(ins, joints, n))
    ensures Requests(AllBatches(ins, joints, n + 1)) == Asked(ins, Order(ins, joints, n + 1))
  {
    hide Requests, Asked, JointBatches, Indices;
    var a, b := AllBatches(ins, joints, n), JointBatches(ins, joints, n);
    var s, t := Order(ins, joints, n), Indices(ins, joints, n, |ins|);
    assert AllBatches(ins, joints, n + 1) == a + b && Order(ins, joints, n + 1) == s + t;
    hide AllBatches, Order;
    JointAsks(ins, joints, n);
    AskBoth(ins, a, b, s, t);
  }

  lemma NoneAsked(ins: seq<ReadItem>, joints: nat)
    ensures Requests(AllBatches(ins, joints, 0)) == Asked(ins, Order(ins, joints, 0))
  {
    assert AllBatches(ins, joints, 0) == [] && Order(ins, joints, 0) == [];
    assert Requests([]) == [] && Asked(ins, []) == [];
  }

  lemma {:induction false} BatchesAsk(ins: seq<ReadItem>, joints: nat, n: nat)
    ensures Requests(AllBatches(ins, joints, n)) == Asked(ins, Order(ins, joints, n))
  {
    hide Requests, Asked, AllBatches, Order;
    if n == 0 {
      NoneAsked(ins, joints);
    } else {
      BatchesAsk(ins, joints, n - 1);
      BatchesAskMore(ins, joints, n - 1);
    }
  }

  lemma {:induction false} BatchSizes(ins: seq<ReadItem>, joints: nat, n: nat)
    ensures forall c :: 0 <= c < |AllBatches(ins, joints, n)| ==>
              1 <= |AllBatches(ins, joints, n)[c].paths| <= MAX_PARAM_BATCH && AllBatches(ins, joints, n)[c].joint < n
  {
    if n > 0 {
      BatchSizes(ins, joints, n - 1);
    }
  }

  /** What the device sees of one read_params(): `order` lists every item that can be sent, each
      once; the requests are those items in that order; no batch is empty or larger than 16. */
  lemma EachItemIsSentOnce(ins: seq<ReadItem>, joints: nat) returns (order: seq<nat>)
    ensures forall m :: 0 <= m < |order| ==> order[m] < |ins|
    ensures forall k: nat :: Once(order, k) && (k in order <==> k < |ins| && Addressed(ins[k], joints))
    ensures Requests(AllBatches(ins, joints, joints)) == Asked(ins, order)
    ensures forall c :: 0 <= c < |AllBatches(ins, joints, joints)| ==>
              1 <= |AllBatches(ins, joints, joints)[c].paths| <= MAX_PARAM_BATCH
  {
    hide Once, Requests, Order, AllBatches;
    order := Order(ins, joints, joints);
    forall k: nat
      ensures Once(order, k) && (k in order <==> k < |ins| && Addressed(ins[k], joints))
    {
      OrderOnce(ins, joints, joints, k);
    }
    BatchesAsk(ins, joints, joints);
    BatchSizes(ins, joints, joints);
  }

  /** No joint needs more calls than its items, rounded up to whole batches. */
  lemma FewestCalls(ins: seq<ReadItem>, joints: nat, j: nat)
    ensures |JointBatches(ins, joints, j)| == (|Indices(ins, joints, j, |ins|)| + MAX_PARAM_BATCH - 1) / MAX_PARAM_BATCH
  {
    ChunksAsk(ins, j, Indices(ins, joints, j, |ins|));
  }

  // ---------------------------------------------------------------- write_params

  datatype WriteItem = WriteItem(
    joint: nat, path: string, requested: ParamValue,
    declared: ParamType, value: ParamValue, verified: bool, consumed: bool, persisted: bool, status: Status)

  /** What the device answers to a write, and to the read-back after it. */
  datatype WriteAnswer = WriteAnswer(write: SdkStatus, read: SdkStatus, value: ParamValue)

  datatype WriteCall = WriteCall(joint: nat, path: string, value: ParamValue)

  /** How the three counters see an item. */
  datatype Verdict = Accepted | Unsure | Refused

  function VerdictOf(st: Status): Verdict {
    match st
    case Ok => Accepted
    case Unverified => Unsure
    case _ => Refused
  }

  predicate HasAt(s: string, part: string, i: nat) {
    i + |part| <= |s| && s[i..i + |part|] == part
  }

  predicate Contains(s: string, part: string) {
    exists i :: 0 <= i <= |s| && HasAt(s, part, i)
  }

  /** is_firmware_consumed_path() */
  predicate FirmwareConsumes(path: string) {
    Contains(path, "requested_state")
  }

  /** The marked paths are those that contain the words, anywhere. */
  lemma FirmwareConsumesIff(path: string)
    ensures FirmwareConsumes(path) <==> exists a: string, b: string :: path == a + "requested_state" + b
  {
    var part := "requested_state";
    if i :| 0 <= i <= |path| && HasAt(path, part, i) {
      assert path == path[..i] + part + path[i + |part|..];
    }
    if a: string, b: string :| path == a + part + b {
      assert path[|a|..|a| + |part|] == part;
      assert HasAt(path, part, |a|);
    }
  }

  function Fresh(it: WriteItem): WriteItem {
    it.(status := Ok, verified := false, consumed := false, persisted := false,
        declared := Unsupported, value := NoValue)
  }

  /** The checks before anything is sent: the reason to refuse, and the type found so far. */
  function Check(it: WriteItem, joints: nat, lookup: string -> Option<Endpoint>): (Option<Status>, ParamType) {
    if it.joint >= joints || it.path == "" then (Some(InvalidArgument), Unsupported) else
    match lookup(it.path)
    case None => (Some(NotFound), Unsupported)
    case Some(e) =>
      if e.ty.Unsupported? || !e.writable then (Some(NotSupported), e.ty)
      else if TypeOf(it.requested) != e.ty then (Some(InvalidArgument), e.ty)
      else (None, e.ty)
  }

  predicate Sendable(it: WriteItem, joints: nat, lookup: string -> Option<Endpoint>) {
    Check(it, joints, lookup).0.None?
  }

  function WriteOne(it: WriteItem, a: WriteAnswer, joints: nat, lookup: string -> Option<Endpoint>): WriteItem {
    var (refusal, ty) := Check(it, joints, lookup);
    var f := Fresh(it).(declared := ty);
    if refusal.Some? then f.(status := refusal.value)
    else if !a.write.SdkOk? then f.(status := MapSdk(a.write))
    else if !a.read.SdkOk? then f.(status := Unverified)
    else if ValuesEqual(a.value, it.requested) then f.(value := a.value, verified := true)
    else if FirmwareConsumes(it.path) then f.(value := a.value, consumed := true)
    else f.(value := a.value, status := Unverified)
  }

  function WriteAll(ins: seq<WriteItem>, answers: seq<WriteAnswer>, joints: nat,
        lookup: string -> Option<Endpoint>): (r: seq<WriteItem>)
    requires |answers| == |ins|
    ensures |r| == |ins| && forall k :: 0 <= k < |ins| ==> r[k] == WriteOne(ins[k], answers[k], joints, lookup)
  {
    seq(|ins|, k requires 0 <= k < |ins| => WriteOne(ins[k], answers[k], joints, lookup))
  }

  function CountOf(items: seq<WriteItem>, v: Verdict): nat {
    if items == [] then 0
    else CountOf(items[..|items| - 1], v) + (if VerdictOf(items[|items| - 1].status) == v then 1 else 0)
  }

  /** The writes that reach the device, in item order. */
  function Writes(ins: seq<WriteItem>, joints: nat, lookup: string -> Option<Endpoint>): seq<WriteCall> {
    if ins == [] then [] else
    var it := ins[|ins| - 1];
    Writes(ins[..|ins| - 1], joints, lookup)
    + (if Sendable(it, joints, lookup) then [WriteCall(it.joint, it.path, it.requested)] else [])
  }

  lemma NoneYet(joints: nat, lookup: string -> Option<Endpoint>)
    ensures (forall v :: CountOf([], v) == 0) && Writes([], joints, lookup) == []
  {}

  lemma OneMoreCounted(items: seq<WriteItem>, i: nat)
    requires i < |items|
    ensures forall v ::
              CountOf(items[..i + 1], v) == CountOf(items[..i], v) + (if VerdictOf(items[i].status) == v then 1 else 0)
  {
    assert items[..i + 1][..i] == items[..i];
  }

  lemma OneMoreWritten(ins: seq<WriteItem>, joints: nat, lookup: string -> Option<Endpoint>, i: nat)
    requires i < |ins|
    ensures Writes(ins[..i + 1], joints, lookup)
         == Writes(ins[..i], joints, lookup)
            + (if Sendable(ins[i], joints, lookup) then [WriteCall(ins[i].joint, ins[i].path, ins[i].requested)]
               else [])
  {
    assert ins[..i + 1][..i] == ins[..i];
  }

  /** Saving to flash is attempted: it is asked for and no item failed. */
  predicate Saves(outs: seq<WriteItem>, persist: bool) {
    persist && CountOf(outs, Refused) == 0
  }

  function Overall(outs: seq<WriteItem>, persist: bool, saveStatus: Status, hasResult: bool): Status {
    if Saves(outs, persist) && !saveStatus.Ok? && hasResult then saveStatus
    else if CountOf(outs, Refused) > 0 then Protocol
    else if CountOf(outs, Unsure) > 0 then Unverified
    else Ok
  }

  /** The overall status is kOk exactly when every item's is and no failed save was reported; a
      save that fails without a result to fill goes unreported. */
  lemma OverallOkIff(outs: seq<WriteItem>, persist: bool, saveStatus: Status, hasResult: bool)
    ensures Overall(outs, persist, saveStatus, hasResult).Ok? <==>
              && (forall k :: 0 <= k < |outs| ==> outs[k].status.Ok?)
              && (persist ==> saveStatus.Ok? || !hasResult)
  {
    CountZero(outs, Refused);
    CountZero(outs, Unsure);
    assert forall k :: 0 <= k < |outs| ==> (outs[k].status.Ok? <==> VerdictOf(outs[k].status) == Accepted);
    hide CountOf, VerdictOf;
  }

  /** Which other status it is: the failed save's, if one was attempted and can be reported; else
      kProtocol for a failed item, else kUnverified. */
  lemma OverallMeaning(outs: seq<WriteItem>, persist: bool, saveStatus: Status, hasResult: bool)
    ensures var failed := exists k :: 0 <= k < |outs| && outs[k].status != Ok && outs[k].status != Unverified;
            var unsure := exists k :: 0 <= k < |outs| && outs[k].status == Unverified;
            && (Saves(outs, persist) <==> persist && !failed)
            && (failed ==> Overall(outs, persist, saveStatus, hasResult) == Protocol)
            && (!failed && persist && hasResult && saveStatus != Ok ==>
                  Overall(outs, persist, saveStatus, hasResult) == saveStatus)
            && (!failed && !(persist && hasResult && saveStatus != Ok) && unsure ==>
                  Overall(outs, persist, saveStatus, hasResult) == Unverified)
  {
    CountZero(outs, Refused);
    CountZero(outs, Unsure);
    forall k | 0 <= k < |outs|
      ensures VerdictOf(outs[k].status) == Unsure <==> outs[k].status == Unverified
      ensures VerdictOf(outs[k].status) == Refused <==> outs[k].status != Ok && outs[k].status != Unverified
    {}
    hide CountOf, VerdictOf;
  }

  class BusWriter {
    const joints: nat
    const lookup: string -> Option<Endpoint>
    var windowOk: bool
    var writes: seq<WriteCall>
    var saves: nat   // save_config() calls

    constructor (n: nat, l: string -> Option<Endpoint>)
      ensures joints == n && lookup == l && !windowOk && writes == [] && saves == 0
    {
      joints, lookup, windowOk, writes, saves := n, l, false, [], 0;
    }

    /** The loop body: checks, write, read-back. */
    method WriteItemAt(items: array<WriteItem>, i: nat, a: WriteAnswer) returns (v: Verdict)
      requires i < items.Length
      modifies items, this`writes
      ensures items[i] == WriteOne(old(items[i]), a, joints, lookup) && v == VerdictOf(items[i].status)
      ensures forall k :: 0 <= k < items.Length && k != i ==> items[k] == old(items[k])
      ensures var it := old(items[i]);
              var call := WriteCall(it.joint, it.path, it.requested);
              writes == old(writes) + if Sendable(it, joints, lookup) then [call] else []
    {
      hide FirmwareConsumes;
      var it := items[i].(status := Ok, verified := false, consumed := false, persisted := false,
                          declared := Unsupported, value := NoValue);
      items[i] := it;
      if it.joint >= joints { items[i] := it.(status := InvalidArgument); return Refused; }
      if it.path == "" { items[i] := it.(status := InvalidArgument); return Refused; }
      var found := lookup(it.path);
      if found.None? { items[i] := it.(status := NotFound); return Refused; }
      it := it.(declared := found.value.ty);
      if it.declared.Unsupported? { items[i] := it.(status := NotSupported); return Refused; }
      if !found.value.writable { items[i] := it.(status := NotSupported); return Refused; }
      if TypeOf(it.requested) != it.declared { items[i] := it.(status := InvalidArgument); return Refused; }
      writes := writes + [WriteCall(it.joint, it.path, it.requested)];
      if !a.write.SdkOk? { items[i] := it.(status := MapSdk(a.write)); return Refused; }
      if !a.read.SdkOk? { items[i] := it.(status := Unverified); return Unsure; }
      it := it.(value := a.value);
      if ValuesEqual(it.value, it.requested) {
        items[i] := it.(verified := true, status := Ok);
        return Accepted;
      } else if FirmwareConsumes(it.path) {
        items[i] := it.(consumed := true, status := Ok);
        return Accepted;
      } else {
        items[i] := it.(status := Unverified);
        return Unsure;
      }
    }

    method WriteItems(items: array<WriteItem>, answers: seq<WriteAnswer>) returns (ok: nat, unsure: nat, failed: nat)
      requires |answers| == items.Length
      modifies items, this`writes
      ensures items[..] == WriteAll(old(items[..]), answers, joints, lookup)
      ensures ok == CountOf(items[..], Accepted) && unsure == CountOf(items[..], Unsure)
      ensures failed == CountOf(items[..], Refused)
      ensures writes == old(writes) + Writes(old(items[..]), joints, lookup)
    {
      hide WriteOne, VerdictOf, Sendable, CountOf, Writes;
      ghost var ins := items[..];
      ghost var outs := WriteAll(ins, answers, joints, lookup);
      NoneYet(joints, lookup);
      assert outs[..0] == [] && ins[..0] == [];
      ok, unsure, failed := 0, 0, 0;
      for i := 0 to items.Length
        invariant forall k :: 0 <= k < i ==> items[k] == outs[k]
        invariant forall k :: i <= k < items.Length ==> items[k] == ins[k]
        invariant ok == CountOf(outs[..i], Accepted) && unsure == CountOf(outs[..i], Unsure)
        invariant failed == CountOf(outs[..i], Refused)
        invariant writes == old(writes) + Writes(ins[..i], joints, lookup)
      {
        var v := WriteItemAt(items, i, answers[i]);
        OneMoreCounted(outs, i);
        OneMoreWritten(ins, joints, lookup, i);
        match v {
          case Accepted => ok := ok + 1;
          case Unsure => unsure := unsure + 1;
          case Refused => failed := failed + 1;
        }
      }
      assert items[..] == outs == outs[..items.Length] && ins[..items.Length] == ins;
    }

    method MarkPersisted(items: array<WriteItem>)
      modifies items
      ensures forall k :: 0 <= k < items.Length ==>
                items[k] == old(items[k]).(persisted := old(items[k]).persisted || old(items[k]).status.Ok?)
    {
      for i := 0 to items.Length
        invariant forall k :: 0 <= k < i ==>
                    items[k] == old(items[k]).(persisted := old(items[k]).persisted || old(items[k]).status.Ok?)
        invariant forall k :: i <= k < items.Length ==> items[k] == old(items[k])
      {
        if items[i].status.Ok? { items[i] := items[i].(persisted := true); }
      }
    }

    /** write_params(), when it gets past its gates: every item is classified on its own; the
        device sees exactly the sendable writes, in order; the save is attempted exactly when it is
        asked for and no item failed, and marks just the accepted items; the overall status tells
        failed from unverified from fine. A failed save shows in it only if the caller passed a
        result to fill. */
    method WriteParams(items: array<WriteItem>, answers: seq<WriteAnswer>, confirm: bool, persist: bool,
                       saveStatus: Status, hasResult: bool)
      returns (overall: Status)
      requires |answers| == items.Length
      modifies items, this`writes, this`saves
      ensures items.Length == 0 || !confirm || !windowOk ==>
                && overall == (if items.Length == 0 then InvalidArgument else InvalidState)
                && items[..] == old(items[..]) && writes == old(writes) && saves == old(saves)
      ensures items.Length > 0 && confirm && windowOk ==>
                var outs := WriteAll(old(items[..]), answers, joints, lookup);
                var saved := Saves(outs, persist) && saveStatus.Ok?;
                && (forall k :: 0 <= k < items.Length ==>
                      items[k] == outs[k].(persisted := saved && outs[k].status.Ok?))
                && writes == old(writes) + Writes(old(items[..]), joints, lookup)
                && saves == old(saves) + (if Saves(outs, persist) then 1 else 0)
                && overall == Overall(outs, persist, saveStatus, hasResult)
    {
      if items.Length == 0 { return InvalidArgument; }
      if !confirm { return InvalidState; }
      if !windowOk { return InvalidState; }
      hide CountOf, Writes;
      ghost var ins := items[..];
      var ok, unsure, failed := WriteItems(items, answers);
      ghost var outs := items[..];
      assert forall k :: 0 <= k < items.Length ==> items[k] == outs[k] && !outs[k].persisted;
      hide WriteOne;
      if persist && failed == 0 {
        saves := saves + 1;
        if saveStatus.Ok? {
          MarkPersisted(items);
        } else if hasResult {
          return saveStatus;
        }
      }
      overall := if failed > 0 then Protocol else if unsure > 0 then Unverified else Ok;
    }
  }

  /** What a classified item means: verified says that the read-back gave the requested value;
      consumed, that it differed on an endpoint that the firmware takes away; kUnverified, that the
      device took the write and nothing confirms it; any other status, that the item was not sent
      or the device refused it. */
  lemma ItemMeaning(it: WriteItem, a: WriteAnswer, joints: nat, lookup: string -> Option<Endpoint>)
    ensures var r := WriteOne(it, a, joints, lookup);
            var e := lookup(it.path);
            var sent := && it.joint < joints && it.path != "" && e.Some?
                        && e.value.ty != Unsupported && e.value.writable && TypeOf(it.requested) == e.value.ty;
            var taken := sent && a.write.SdkOk?;
            && (Sendable(it, joints, lookup) <==> sent)
            && (r.verified <==> taken && a.read.SdkOk? && a.value == it.requested)
            && (r.consumed <==> taken && a.read.SdkOk? && a.value != it.requested && FirmwareConsumes(it.path))
            && (r.status.Ok? <==> r.verified || r.consumed)
            && (r.status.Unverified? <==> taken && !r.verified && !r.consumed)
            && (r.status != Ok && r.status != Unverified <==> !taken)
            && r.value == (if taken && a.read.SdkOk? then a.value else NoValue)
            && (r.verified ==> r.value == it.requested && TypeOf(r.value) == r.declared)
            && !r.persisted && r.joint == it.joint && r.path == it.path && r.requested == it.requested
  {
    hide FirmwareConsumes;
  }

  /** Why an item was refused: a joint out of range, no path or another type than the declared one;
      a path that is not there; an endpoint that is no scalar or is read-only; or what the device
      said. The declared type is told as soon as the path is found. */
  lemma RefusalMeaning(it: WriteItem, a: WriteAnswer, joints: nat, lookup: string -> Option<Endpoint>)
    ensures var r := WriteOne(it, a, joints, lookup);
            var named := it.joint < joints && it.path != "";
            var e := lookup(it.path);
            && r.declared == (if named && e.Some? then e.value.ty else Unsupported)
            && (!named ==> r.status == InvalidArgument)
            && (named && e.None? ==> r.status == NotFound)
            && (named && e.Some? ==>
                  if e.value.ty == Unsupported || !e.value.writable then r.status == NotSupported
                  else if TypeOf(it.requested) != e.value.ty then r.status == InvalidArgument
                  else !a.write.SdkOk? ==> r.status == MapSdk(a.write))
  {}

  lemma {:induction false} CountZero(items: seq<WriteItem>, v: Verdict)
    ensures CountOf(items, v) == 0 <==> forall k :: 0 <= k < |items| ==> VerdictOf(items[k].status) != v
  {
    if items != [] {
      CountZero(items[..|items| - 1], v);
    }
  }

  lemma {:induction false} CountsAddUp(items: seq<WriteItem>)
    ensures CountOf(items, Accepted) + CountOf(items, Unsure) + CountOf(items, Refused) == |items|
  {
    if items != [] {
      CountsAddUp(items[..|items| - 1]);
    }
  }
}
