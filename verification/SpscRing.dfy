/**
 The single-producer single-consumer ring for fault events (`SpscRing<T, N>`).

 `RingSteps` is the concurrent view: every atomic access, and every word of an item copy, is a
 step of its own, and producer and consumer interleave freely. `RingClass` is the class itself,
 with `push` and `pop` called one after the other.
 */
module RingSteps {

  /** An item is copied word by word. */
  type Item = seq<int>

  datatype ProducerPc =
    | PIdle
    | PCheck            // compare write_ with the cached read index
    | PReload           // read_cache_ := read_
    | PRecheck          // compare again
    | PDrop             // dropped_ += 1, return false
    | PCopy(pk: nat)    // buf_[w % N] := v, word pk
    | PStore            // write_ := w + 1, return true

  datatype ConsumerPc =
    | CIdle
    | CCheck            // compare read_ with the cached write index
    | CReload           // write_cache_ := write_
    | CRecheck
    | CCopy(ck: nat)    // *out := buf_[r % N], word ck
    | CStore            // read_ := r + 1, return true

  datatype State = State(
    buf: seq<Item>, write: nat, read: nat, dropped: nat, readCache: nat, writeCache: nat,
    prod: ProducerPc, v: Item,
    cons: ConsumerPc, out: Item,
    // what an observer records
    attempted: nat,      // push() calls begun
    accepted: seq<Item>, // items of the push() calls that returned true
    popped: seq<Item>,   // items that pop() returned
    pendingAtReload: int,// how many items were unread when push() last reloaded read_
    dropDepths: seq<int>,// that number, for every drop
    unreadAtReload: int, // how many items were unread when pop() last reloaded write_
    emptyDepths: seq<int>// that number, for every pop() that returned false
  )

  datatype Event = BeginPush(item: Item) | Producer | BeginPop | Consumer

  predicate Init(s: State, n: nat, width: nat) {
    && n >= 2
    && |s.buf| == n && (forall i :: 0 <= i < n ==> |s.buf[i]| == width)
    && s.write == s.read == s.dropped == s.readCache == s.writeCache == 0
    && s.prod == PIdle && s.cons == CIdle && |s.v| == width && |s.out| == width
    && s.attempted == 0 && s.accepted == [] && s.popped == [] && s.dropDepths == [] && s.emptyDepths == []
  }

  /** The slot that push() writes. */
  function WriteSlot(s: State): nat
    requires |s.buf| > 0
  { s.write % |s.buf| }

  /** The slot that pop() reads. */
  function ReadSlot(s: State): nat
    requires |s.buf| > 0
  { s.read % |s.buf| }

  function ProducerStep(s: State): State
    requires |s.buf| > 0
  {
    match s.prod
    case PIdle => s
    case PCheck => s.(prod := if s.write - s.readCache >= |s.buf| then PReload else PCopy(0))
    case PReload => s.(readCache := s.read, prod := PRecheck, pendingAtReload := |s.accepted| - |s.popped|)
    case PRecheck => s.(prod := if s.write - s.readCache >= |s.buf| then PDrop else PCopy(0))
    case PDrop => s.(dropped := s.dropped + 1, prod := PIdle, dropDepths := s.dropDepths + [s.pendingAtReload])
    case PCopy(k) =>
      if k < |s.v| && k < |s.buf[WriteSlot(s)]| then
        s.(buf := s.buf[WriteSlot(s) := s.buf[WriteSlot(s)][k := s.v[k]]], prod := PCopy(k + 1))
      else
        s.(prod := PStore)
    case PStore => s.(write := s.write + 1, prod := PIdle, accepted := s.accepted + [s.v])
  }

  function ConsumerStep(s: State): State
    requires |s.buf| > 0
  {
    match s.cons
    case CIdle => s
    case CCheck => s.(cons := if s.read == s.writeCache then CReload else CCopy(0))
    case CReload => s.(writeCache := s.write, cons := CRecheck, unreadAtReload := |s.accepted| - |s.popped|)
    case CRecheck =>
      if s.read == s.writeCache then
        s.(cons := CIdle, emptyDepths := s.emptyDepths + [s.unreadAtReload])
      else
        s.(cons := CCopy(0))
    case CCopy(k) =>
      if k < |s.out| && k < |s.buf[ReadSlot(s)]| then
        s.(out := s.out[k := s.buf[ReadSlot(s)][k]], cons := CCopy(k + 1))
      else
        s.(cons := CStore)
    case CStore => s.(read := s.read + 1, cons := CIdle, popped := s.popped + [s.out])
  }

  function Step(s: State, e: Event): State
    requires |s.buf| > 0
  {
    match e
    case BeginPush(item) =>
      if s.prod.PIdle? && |item| == |s.v| then s.(prod := PCheck, v := item, attempted := s.attempted + 1) else s
    case Producer => ProducerStep(s)
    case BeginPop => if s.cons.CIdle? then s.(cons := CCheck) else s
    case Consumer => ConsumerStep(s)
  }

  ghost predicate Inv(s: State, n: nat, width: nat) {
    && n >= 2 && |s.buf| == n && |s.v| == width && |s.out| == width
    && (forall i :: 0 <= i < n ==> |s.buf[i]| == width)
    && Indices(s) && Counts(s) && Stored(s) && Producing(s) && Consuming(s)
  }

  /** The chain of indices; every cached index lags behind the real one. */
  ghost predicate Indices(s: State) {
    && s.readCache <= s.read <= s.writeCache <= s.write <= s.readCache + |s.buf|
    && (s.prod.PCopy? || s.prod.PStore? ==> s.write < s.readCache + |s.buf|)
    && (s.cons.CCopy? || s.cons.CStore? ==> s.read < s.writeCache)
  }

  ghost predicate Counts(s: State) {
    && |s.accepted| == s.write && |s.popped| == s.read
    && s.attempted == s.write + s.dropped + (if s.prod.PIdle? then 0 else 1)
    && |s.dropDepths| == s.dropped
    && (forall i :: 0 <= i < |s.dropDepths| ==> s.dropDepths[i] == |s.buf|)
    && (forall i :: 0 <= i < |s.emptyDepths| ==> s.emptyDepths[i] == 0)
  }

  /** Every unread accepted item is whole in its slot, and what was popped came out in order. */
  ghost predicate Stored(s: State)
    requires |s.buf| > 0
  {
    && s.read <= |s.accepted|
    && s.popped == s.accepted[..s.read]
    && (forall i :: s.read <= i < |s.accepted| ==> s.buf[i % |s.buf|] == s.accepted[i])
  }

  ghost predicate Producing(s: State)
    requires |s.buf| > 0
  {
    && (s.prod.PReload? ==> s.write == s.readCache + |s.buf|)
    && (s.prod.PRecheck? ==> s.pendingAtReload == s.write - s.readCache)
    && (s.prod.PDrop? ==> s.pendingAtReload == |s.buf|)
    && (s.prod.PCopy? ==> s.prod.pk <= |s.v| && |s.buf[WriteSlot(s)]| == |s.v|
                          && s.buf[WriteSlot(s)][..s.prod.pk] == s.v[..s.prod.pk])
    && (s.prod.PStore? ==> s.buf[WriteSlot(s)] == s.v)
  }

  ghost predicate Consuming(s: State)
    requires |s.buf| > 0
  {
    && (s.cons.CReload? ==> s.read == s.writeCache)
    && (s.cons.CRecheck? ==> s.unreadAtReload == s.writeCache - s.read)
    && (s.cons.CCopy? ==> s.cons.ck <= |s.out| && s.read < |s.accepted| && |s.accepted[s.read]| == |s.out|
                          && s.out[..s.cons.ck] == s.accepted[s.read][..s.cons.ck])
    && (s.cons.CStore? ==> s.read < |s.accepted| && s.out == s.accepted[s.read])
  }

  /** Indices less than a ring apart fall into different slots. */
  lemma SlotsDiffer(i: nat, j: nat, n: nat)
    requires i < j < i + n
    ensures i % n != j % n
  {
    var q := j / n - i / n;
    assert i == n * (i / n) + i % n && j == n * (j / n) + j % n;
    if i % n == j % n {
      assert j - i == n * q;
      if q <= 0 { ScaleAtMost(n, q, 0); } else { ScaleAtMost(n, 1, q); }
    }
  }

  lemma ScaleAtMost(n: nat, a: int, b: int)
    requires a <= b
    ensures n * a <= n * b
  {}

  lemma InvProducerCopy(s: State, n: nat, width: nat)
    requires Inv(s, n, width) && s.prod.PCopy?
    ensures Inv(ProducerStep(s), n, width)
  {
    var t := ProducerStep(s);
    var k := s.prod.pk;
    forall i | s.read <= i < s.write
      ensures t.buf[i % n] == s.buf[i % n]
    {
      SlotsDiffer(i, s.write, n);
    }
    assert Stored(t) && Counts(t) && Indices(t) && Consuming(t);
    if k < width {
      assert t.buf[WriteSlot(s)][..k + 1] == s.buf[WriteSlot(s)][..k] + [s.v[k]];
      assert s.v[..k + 1] == s.v[..k] + [s.v[k]];
    } else {
      assert s.buf[WriteSlot(s)][..k] == s.buf[WriteSlot(s)] && s.v[..k] == s.v;
    }
  }

  lemma InvProducerStore(s: State, n: nat, width: nat)
    requires Inv(s, n, width) && s.prod.PStore?
    ensures Inv(ProducerStep(s), n, width)
  {
    var t := ProducerStep(s);
    assert s.accepted[..s.read] == t.accepted[..s.read];
  }

  lemma InvProducer(s: State, n: nat, width: nat)
    requires Inv(s, n, width)
    ensures Inv(ProducerStep(s), n, width)
  {
    match s.prod
    case PCopy(_) => InvProducerCopy(s, n, width);
    case PStore => InvProducerStore(s, n, width);
    case _ =>
  }

  lemma InvConsumerCopy(s: State, n: nat, width: nat)
    requires Inv(s, n, width) && s.cons.CCopy?
    ensures Inv(ConsumerStep(s), n, width)
  {
    var k := s.cons.ck;
    var t := ConsumerStep(s);
    assert s.buf[ReadSlot(s)] == s.accepted[s.read];
    assert Producing(t) && Stored(t) && Counts(t) && Indices(t);
    if k < width {
      assert t.out[..k + 1] == s.out[..k] + [s.accepted[s.read][k]];
      assert s.accepted[s.read][..k + 1] == s.accepted[s.read][..k] + [s.accepted[s.read][k]];
    } else {
      assert s.out[..k] == s.out && s.accepted[s.read][..k] == s.accepted[s.read];
    }
  }

  lemma InvConsumerStore(s: State, n: nat, width: nat)
    requires Inv(s, n, width) && s.cons.CStore?
    ensures Inv(ConsumerStep(s), n, width)
  {
    var t := ConsumerStep(s);
    assert t.popped == s.accepted[..s.read] + [s.accepted[s.read]] == s.accepted[..t.read];
  }

  lemma InvConsumer(s: State, n: nat, width: nat)
    requires Inv(s, n, width)
    ensures Inv(ConsumerStep(s), n, width)
  {
    match s.cons
    case CCopy(_) => InvConsumerCopy(s, n, width);
    case CStore => InvConsumerStore(s, n, width);
    case _ =>
  }

  lemma InvStep(s: State, e: Event, n: nat, width: nat)
    requires Inv(s, n, width)
    ensures Inv(Step(s, e), n, width)
  {
    match e
    case BeginPush(item) =>
    case Producer => InvProducer(s, n, width);
    case BeginPop =>
    case Consumer => InvConsumer(s, n, width);
  }

  function Run(s: State, es: seq<Event>): (t: State)
    requires |s.buf| > 0
    ensures |t.buf| == |s.buf|
    decreases |es|
  {
    if es == [] then s else
      var t := Step(s, es[0]);
      assert |t.buf| == |s.buf|;
      Run(t, es[1..])
  }

  lemma {:induction false} InvRun(s: State, es: seq<Event>, n: nat, width: nat)
    requires Inv(s, n, width)
    ensures Inv(Run(s, es), n, width)
    decreases |es|
  {
    if es != [] {
      InvStep(s, es[0], n, width);
      InvRun(Step(s, es[0]), es[1..], n, width);
    }
  }

  lemma InitInv(s: State, n: nat, width: nat)
    requires Init(s, n, width)
    ensures Inv(s, n, width)
  {}

  /** First in, first out, nothing lost in silence: in every interleaving pop() returns whole
      items, a prefix of the accepted pushes in order, and every attempted push was accepted,
      dropped or is still under way. */
  lemma PoppedIsPrefixOfAccepted(s: State, es: seq<Event>, n: nat, width: nat)
    requires Init(s, n, width)
    ensures var t := Run(s, es);
            && t.popped <= t.accepted
            && t.attempted == |t.accepted| + t.dropped + (if t.prod.PIdle? then 0 else 1)
            && t.readCache <= t.read <= t.writeCache <= t.write <= t.read + n
  {
    InitInv(s, n, width);
    InvRun(s, es, n, width);
  }

  /** A push is dropped only when, at the moment it reloaded the read index, all N slots held
      unread items; pop() comes back empty only when, at its reload, none did. */
  lemma RefusalsAreGenuine(s: State, es: seq<Event>, n: nat, width: nat)
    requires Init(s, n, width)
    ensures var t := Run(s, es);
            && |t.dropDepths| == t.dropped
            && (forall i :: 0 <= i < t.dropped ==> t.dropDepths[i] == n)
            && (forall i :: 0 <= i < |t.emptyDepths| ==> t.emptyDepths[i] == 0)
  {
    InitInv(s, n, width);
    InvRun(s, es, n, width);
  }

  /** While push() writes, its slot holds no unread item, so in particular it is not the slot
      that pop() is reading. */
  lemma NoUnreadSlotIsWritten(s: State, es: seq<Event>, n: nat, width: nat)
    requires Init(s, n, width)
    ensures var t := Run(s, es);
            t.prod.PCopy? || t.prod.PStore? ==>
              && (forall i :: |t.popped| <= i < |t.accepted| ==> i % n != WriteSlot(t))
              && (t.cons.CCopy? ==> WriteSlot(t) != ReadSlot(t))
  {
    InitInv(s, n, width);
    InvRun(s, es, n, width);
    var t := Run(s, es);
    if t.prod.PCopy? || t.prod.PStore? {
      forall i | |t.popped| <= i < |t.accepted|
        ensures i % n != WriteSlot(t)
      {
        SlotsDiffer(i, t.write, n);
      }
      if t.cons.CCopy? {
        SlotsDiffer(t.read, t.write, n);
      }
    }
  }

  /** What `RefusalsAreGenuine` counts: every push() that returns has appended its item or left a
      drop behind, every pop() an item or an empty return, and nothing else is recorded. A call
      begins only when the one before has returned, and between calls neither side does anything. */
  lemma EveryReturnIsRecorded(s: State, e: Event)
    requires |s.buf| > 0
    ensures var t := Step(s, e);
            var (pushed, dropped) := (|t.accepted| - |s.accepted|, |t.dropDepths| - |s.dropDepths|);
            var (popped, empty) := (|t.popped| - |s.popped|, |t.emptyDepths| - |s.emptyDepths|);
            && pushed + dropped == (if !s.prod.PIdle? && t.prod.PIdle? then 1 else 0)
            && popped + empty == (if !s.cons.CIdle? && t.cons.CIdle? then 1 else 0)
            && s.accepted <= t.accepted && s.popped <= t.popped
            && s.dropDepths <= t.dropDepths && s.emptyDepths <= t.emptyDepths
            && (e.BeginPush? && !s.prod.PIdle? ==> t == s) && (e == Producer && s.prod.PIdle? ==> t == s)
            && (e == BeginPop && !s.cons.CIdle? ==> t == s) && (e == Consumer && s.cons.CIdle? ==> t == s)
  {
    match s.prod
    case PIdle =>
    case PCheck =>
    case PReload =>
    case PRecheck =>
    case PDrop =>
    case PCopy(_) =>
    case PStore =>
  }

  // ---------------------------------------------------------------- calls come to their end

  function Only(e: Event, k: nat): seq<Event> {
    if k == 0 then [] else [e] + Only(e, k - 1)
  }

  lemma OnlyStep(s: State, e: Event, k: nat)
    requires |s.buf| > 0
    ensures |Step(s, e).buf| == |s.buf| && Run(s, Only(e, k + 1)) == Run(Step(s, e), Only(e, k))
  {
    assert Only(e, k + 1)[1..] == Only(e, k);
  }

  /** The producer, inside push(), is going to accept its item if the consumer stands still. */
  predicate HasRoom(s: State)
    requires |s.buf| > 0
  {
    match s.prod
    case PCheck => s.write - s.read < |s.buf|
    case PReload => s.write - s.read < |s.buf|
    case PRecheck => s.write - s.readCache < |s.buf|
    case PDrop => false
    case _ => true
  }

  function PushLeft(s: State): nat {
    match s.prod
    case PIdle => 0
    case PStore => 1
    case PCopy(k) => if k < |s.v| then |s.v| - k + 2 else 2
    case PDrop => 1
    case PRecheck => |s.v| + 3
    case PReload => |s.v| + 4
    case PCheck => |s.v| + 5
  }

  lemma {:induction false} PushFinishes(s: State, n: nat, width: nat) returns (k: nat)
    requires Inv(s, n, width) && !s.prod.PIdle?
    ensures k <= PushLeft(s)
    ensures var t := Run(s, Only(Producer, k));
            && t.prod.PIdle? && t.popped == s.popped
            && t.accepted == s.accepted + (if HasRoom(s) then [s.v] else [])
            && t.dropped == s.dropped + (if HasRoom(s) then 0 else 1)
            && t.dropDepths == s.dropDepths + (if HasRoom(s) then [] else [n])
    decreases PushLeft(s)
  {
    hide Stored, Consuming;
    var t := ProducerStep(s);
    InvProducer(s, n, width);
    if t.prod.PIdle? {
      k := 1;
      assert Run(t, Only(Producer, 0)) == t;
      OnlyStep(s, Producer, 0);
    } else {
      var m := PushFinishes(t, n, width);
      k := m + 1;
      OnlyStep(s, Producer, m);
    }
  }

  /** A push() that the consumer does not meet ends within width + 5 steps; it has appended its item
      if fewer than N were unread, and else counted a drop. */
  lemma QuietPush(s: State, item: Item, n: nat, width: nat) returns (k: nat)
    requires Inv(s, n, width) && s.prod.PIdle? && |item| == width
    ensures k <= width + 5
    ensures var t := Run(s, [BeginPush(item)] + Only(Producer, k));
            var room := |s.accepted| - |s.popped| < n;
            && t.prod.PIdle? && t.popped == s.popped
            && t.accepted == s.accepted + (if room then [item] else [])
            && t.dropped == s.dropped + (if room then 0 else 1)
            && t.dropDepths == s.dropDepths + (if room then [] else [n])
  {
    var t := Step(s, BeginPush(item));
    InvStep(s, BeginPush(item), n, width);
    k := PushFinishes(t, n, width);
    assert ([BeginPush(item)] + Only(Producer, k))[1..] == Only(Producer, k);
  }

  function PopLeft(s: State): nat {
    match s.cons
    case CIdle => 0
    case CStore => 1
    case CCopy(k) => if k < |s.out| then |s.out| - k + 2 else 2
    case CRecheck => |s.out| + 3
    case CReload => |s.out| + 4
    case CCheck => |s.out| + 5
  }

  /** The consumer, inside pop(), is going to take an item if the producer stands still. */
  predicate HasItem(s: State) {
    match s.cons
    case CCheck => s.read < s.write
    case CReload => s.read < s.write
    case CRecheck => s.read < s.writeCache
    case _ => true
  }

  lemma {:induction false} PopFinishes(s: State, n: nat, width: nat) returns (k: nat)
    requires Inv(s, n, width) && !s.cons.CIdle?
    ensures k <= PopLeft(s)
    ensures var t := Run(s, Only(Consumer, k));
            && t.cons.CIdle? && t.accepted == s.accepted && t.dropped == s.dropped
            && (HasItem(s) ==> s.read < |s.accepted|)
            && t.popped == s.popped + (if HasItem(s) then [s.accepted[s.read]] else [])
            && (HasItem(s) ==> t.out == s.accepted[s.read])
            && (!HasItem(s) ==> t.out == s.out)
            && t.emptyDepths == s.emptyDepths + (if HasItem(s) then [] else [0])
    decreases PopLeft(s)
  {
    hide Stored, Producing;
    var t := ConsumerStep(s);
    InvConsumer(s, n, width);
    if t.cons.CIdle? {
      k := 1;
      assert Run(t, Only(Consumer, 0)) == t;
      OnlyStep(s, Consumer, 0);
    } else {
      var m := PopFinishes(t, n, width);
      k := m + 1;
      OnlyStep(s, Consumer, m);
    }
  }

  /** A pop() that the producer does not meet ends within width + 5 steps; it has delivered the
      oldest unread item if there is one, and else left the destination alone. */
  lemma QuietPop(s: State, n: nat, width: nat) returns (k: nat)
    requires Inv(s, n, width) && s.cons.CIdle?
    ensures k <= width + 5 && |s.popped| <= |s.accepted|
    ensures var t := Run(s, [BeginPop] + Only(Consumer, k));
            var some := |s.popped| < |s.accepted|;
            && t.cons.CIdle? && t.accepted == s.accepted && t.dropped == s.dropped
            && t.popped == s.popped + (if some then [s.accepted[|s.popped|]] else [])
            && t.out == (if some then s.accepted[|s.popped|] else s.out)
            && t.emptyDepths == s.emptyDepths + (if some then [] else [0])
  {
    var t := Step(s, BeginPop);
    InvStep(s, BeginPop, n, width);
    k := PopFinishes(t, n, width);
    assert ([BeginPop] + Only(Consumer, k))[1..] == Only(Consumer, k);
  }
}

/** The class, driven by one call at a time. */
module RingClass {
  import RingSteps

  class SpscRing<T(0)> {
    var buf: array<T>
    var write: nat
    var read: nat
    var dropped: nat
    var readCache: nat
    var writeCache: nat

    ghost predicate Valid()
      reads this
    {
      && buf.Length >= 2
      && readCache <= read <= writeCache <= write <= readCache + buf.Length
    }

    /** The unread items, oldest first. */
    ghost function Contents(): (c: seq<T>)
      requires Valid()
      reads this, buf
      ensures |c| == write - read
    {
      seq(write - read,
          i requires 0 <= i < write - read reads this, buf requires Valid() => buf[(read + i) % buf.Length])
    }

    constructor (capacity: nat)
      requires capacity >= 2
      ensures Valid() && Contents() == [] && dropped == 0 && buf.Length == capacity && fresh(buf)
    {
      buf := new T[capacity];
      write, read, dropped, readCache, writeCache := 0, 0, 0, 0, 0;
    }

    /** Appends the item, or, when the ring is full, keeps what is there and counts the drop. */
    method Push(v: T) returns (ok: bool)
      requires Valid()
      modifies this`write, this`dropped, this`readCache, buf
      ensures Valid()
      ensures ok == (|old(Contents())| < buf.Length)
      ensures Contents() == if ok then old(Contents()) + [v] else old(Contents())
      ensures dropped == old(dropped) + (if ok then 0 else 1)
    {
      var w := write;
      var r := readCache;
      if w - r >= buf.Length {
        readCache := read;
        if w - readCache >= buf.Length {
          dropped := dropped + 1;
          return false;
        }
      }
      buf[w % buf.Length] := v;
      write := w + 1;
      forall i | read <= i < w
        ensures buf[i % buf.Length] == old(buf[i % buf.Length])
      {
        RingSteps.SlotsDiffer(i, w, buf.Length);
      }
      assert Contents() == old(Contents()) + [v];
      return true;
    }

    /** Takes the oldest item, if there is one. */
    method Pop(fallback: T) returns (ok: bool, v: T)
      requires Valid()
      modifies this`read, this`writeCache
      ensures Valid()
      ensures ok == (old(Contents()) != [])
      ensures ok ==> [v] + Contents() == old(Contents())
      ensures !ok ==> v == fallback && Contents() == old(Contents())
    {
      v := fallback;
      var r := read;
      var w := writeCache;
      if r == w {
        writeCache := write;
        if r == writeCache {
          return false, v;
        }
      }
      v := buf[r % buf.Length];
      read := r + 1;
      assert [v] + Contents() == old(Contents());
      return true, v;
    }
  }
}
