/**
 The "latest value" mailbox between the tick thread and the rest of the process
 (`TripleBuffer<T>`: one writer, any number of readers, a spin lock around the payload).

 `MailboxSteps` is the concurrent view: lock attempts, flag accesses and every word of a payload
 copy are separate steps. `MailboxClass` is the class itself, one call at a time.
 */
module MailboxSteps {
  import opened Wrappers

  /** A payload is copied word by word. */
  type Payload = seq<int>

  datatype WriterPc =
    | WIdle              // the writer owns staging_ and fills it as it likes
    | WAcquire
    | WCopy(wk: nat)     // live_ := staging_, word wk
    | WStoreFresh
    | WRelease
    | WCount             // published_ += 1, outside the lock

  datatype ReaderPc =
    | RIdle
    | RAcquire
    | RLoadFresh
    | RCopy(rk: nat)     // *out := live_, word rk
    | RClearFresh
    | RRelease(isNew: bool)

  datatype Reader = Reader(pc: ReaderPc, out: Payload)

  datatype Owner = Free | ByWriter | ByReader(r: nat)

  /** One read() that returned true: who, which publish, and what it delivered. */
  datatype Delivery = Delivery(reader: nat, number: int, value: Payload)

  datatype State = State(
    staging: Payload, live: Payload, isFresh: bool, published: nat, lock: Owner,
    wpc: WriterPc, readers: seq<Reader>,
    history: seq<Payload>, // published values; publish number k is history[k]
    log: seq<Delivery>,    // the reads that returned true, in order of return
    superseded: nat        // publishes that were replaced before anybody took them
  )

  datatype Event =
    | Fill(i: nat, word: int) // the writer stores one word of staging_
    | BeginPublish
    | Writer
    | BeginRead(r: nat)
    | ReaderStep(r: nat)

  predicate Init(s: State, width: nat) {
    && |s.staging| == width && |s.live| == width && !s.isFresh && s.published == 0 && s.lock == Free
    && s.wpc == WIdle && s.history == [] && s.log == [] && s.superseded == 0
    && forall r :: 0 <= r < |s.readers| ==> s.readers[r].pc == RIdle && |s.readers[r].out| == width
  }

  function WriterNext(s: State): State {
    match s.wpc
    case WIdle => s
    case WAcquire => if s.lock == Free then s.(lock := ByWriter, wpc := WCopy(0)) else s
    case WCopy(k) =>
      if k < |s.staging| && k < |s.live| then
        s.(live := s.live[k := s.staging[k]], wpc := WCopy(k + 1))
      else
        s.(wpc := WStoreFresh)
    case WStoreFresh =>
      s.(isFresh := true, wpc := WRelease, history := s.history + [s.staging],
         superseded := s.superseded + if s.isFresh then 1 else 0)
    case WRelease => s.(lock := Free, wpc := WCount)
    case WCount => s.(published := s.published + 1, wpc := WIdle)
  }

  function At(s: State, r: nat, pc: ReaderPc): State
    requires r < |s.readers|
  {
    s.(readers := s.readers[r := s.readers[r].(pc := pc)])
  }

  function ReaderNext(s: State, r: nat): State
    requires r < |s.readers|
  {
    var me := s.readers[r];
    match me.pc
    case RIdle => s
    case RAcquire => if s.lock == Free then At(s, r, RLoadFresh).(lock := ByReader(r)) else s
    case RLoadFresh => At(s, r, if s.isFresh then RCopy(0) else RRelease(false))
    case RCopy(k) =>
      if k < |me.out| && k < |s.live| then
        s.(readers := s.readers[r := Reader(RCopy(k + 1), me.out[k := s.live[k]])])
      else
        At(s, r, RClearFresh)
    case RClearFresh => At(s, r, RRelease(true)).(isFresh := false)
    case RRelease(isNew) =>
      At(s, r, RIdle).(lock := Free,
                       log := if isNew then s.log + [Delivery(r, |s.history| - 1, me.out)] else s.log)
  }

  function Step(s: State, e: Event): State {
    match e
    case Fill(i, word) =>
      if s.wpc.WIdle? && i < |s.staging| then s.(staging := s.staging[i := word]) else s
    case BeginPublish => if s.wpc.WIdle? then s.(wpc := WAcquire) else s
    case Writer => WriterNext(s)
    case BeginRead(r) => if r < |s.readers| && s.readers[r].pc.RIdle? then At(s, r, RAcquire) else s
    case ReaderStep(r) => if r < |s.readers| then ReaderNext(s, r) else s
  }

  function Run(s: State, es: seq<Event>): State
    decreases |es|
  {
    if es == [] then s else Run(Step(s, es[0]), es[1..])
  }

  // ---------------------------------------------------------------- invariant

  predicate InSection(pc: ReaderPc) {
    pc.RLoadFresh? || pc.RCopy? || pc.RClearFresh? || pc.RRelease?
  }

  ghost predicate Shape(s: State, width: nat) {
    && |s.staging| == width && |s.live| == width
    && (forall r :: 0 <= r < |s.readers| ==> |s.readers[r].out| == width)
    && (forall k :: 0 <= k < |s.history| ==> |s.history[k]| == width)
  }

  ghost predicate Locking(s: State) {
    && (s.lock == ByWriter <==> s.wpc.WCopy? || s.wpc.WStoreFresh? || s.wpc.WRelease?)
    && (forall r :: 0 <= r < |s.readers| ==> (InSection(s.readers[r].pc) <==> s.lock == ByReader(r)))
    && (s.lock.ByReader? ==> s.lock.r < |s.readers|)
  }

  /** live_ is the last publish, except while the writer is copying into it. */
  ghost predicate LiveInv(s: State) {
    && (s.isFresh ==> s.history != [])
    && s.published == |s.history| - (if s.wpc.WRelease? || s.wpc.WCount? then 1 else 0)
    && (s.wpc.WCopy? ==> s.wpc.wk <= |s.live| && |s.live| == |s.staging| && s.live[..s.wpc.wk] == s.staging[..s.wpc.wk])
    && (s.wpc.WStoreFresh? ==> s.live == s.staging)
    && (!s.wpc.WCopy? && !s.wpc.WStoreFresh? && s.history != [] ==> s.live == s.history[|s.history| - 1])
  }

  /** What the reader inside the lock has so far. */
  ghost predicate ReadInv(s: State) {
    s.lock.ByReader? && s.lock.r < |s.readers| ==>
      var me := s.readers[s.lock.r];
      && (me.pc.RCopy? ==>
            s.isFresh && me.pc.rk <= |me.out| && |me.out| == |s.live| && me.out[..me.pc.rk] == s.live[..me.pc.rk])
      && (me.pc.RClearFresh? ==> s.isFresh && me.out == s.live)
      && (me.pc == RRelease(true) ==> !s.isFresh && s.history != [] && me.out == s.live)
  }

  /** A reader is about to return true. */
  predicate Delivering(s: State) {
    s.lock.ByReader? && s.lock.r < |s.readers| && s.readers[s.lock.r].pc == RRelease(true)
  }

  /** Delivered numbers rise, and stay below the one that is about to be delivered. */
  ghost predicate LogInv(s: State) {
    && (forall i :: 0 <= i < |s.log| ==>
          0 <= s.log[i].number < |s.history| && s.log[i].value == s.history[s.log[i].number])
    && (forall i, j :: 0 <= i < j < |s.log| ==> s.log[i].number < s.log[j].number)
    && (s.isFresh || Delivering(s) ==> forall i :: 0 <= i < |s.log| ==> s.log[i].number < |s.history| - 1)
  }

  ghost predicate Inv(s: State, width: nat) {
    Shape(s, width) && Locking(s) && LiveInv(s) && ReadInv(s) && LogInv(s)
  }

  lemma InvWriterCopy(s: State, width: nat)
    requires Inv(s, width) && s.wpc.WCopy?
    ensures Inv(WriterNext(s), width)
  {
    var k := s.wpc.wk;
    if k < width {
      assert WriterNext(s).live[..k + 1] == s.live[..k] + [s.staging[k]];
      assert s.staging[..k + 1] == s.staging[..k] + [s.staging[k]];
    } else {
      assert s.live[..k] == s.live && s.staging[..k] == s.staging;
    }
  }

  lemma InvWriter(s: State, width: nat)
    requires Inv(s, width)
    ensures Inv(WriterNext(s), width)
  {
    match s.wpc
    case WIdle =>
    case WAcquire =>
    case WCopy(_) => InvWriterCopy(s, width);
    case WStoreFresh =>
    case WRelease =>
    case WCount =>
  }

  lemma InvReaderAcquire(s: State, r: nat, width: nat)
    requires Inv(s, width) && r < |s.readers| && s.readers[r].pc.RAcquire?
    ensures Inv(ReaderNext(s, r), width)
  {}

  lemma InvReaderCopy(s: State, r: nat, width: nat)
    requires Inv(s, width) && r < |s.readers| && s.readers[r].pc.RCopy?
    ensures Inv(ReaderNext(s, r), width)
  {
    var me := s.readers[r];
    var k := me.pc.rk;
    assert s.lock == ByReader(r);
    var t := ReaderNext(s, r);
    assert Locking(t);
    if k < width {
      assert t.readers[r].out[..k + 1] == me.out[..k] + [s.live[k]];
      assert s.live[..k + 1] == s.live[..k] + [s.live[k]];
    } else {
      assert me.out[..k] == me.out && s.live[..k] == s.live;
    }
  }

  lemma InvReaderLoad(s: State, r: nat, width: nat)
    requires Inv(s, width) && r < |s.readers| && (s.readers[r].pc.RLoadFresh? || s.readers[r].pc.RClearFresh?)
    ensures Inv(ReaderNext(s, r), width)
  {
    assert s.lock == ByReader(r);
    assert Locking(ReaderNext(s, r));
  }

  lemma InvReaderRelease(s: State, r: nat, width: nat)
    requires Inv(s, width) && r < |s.readers| && s.readers[r].pc.RRelease?
    ensures Inv(ReaderNext(s, r), width)
  {
    assert s.lock == ByReader(r);
    assert Locking(ReaderNext(s, r));
  }

  lemma InvReader(s: State, r: nat, width: nat)
    requires Inv(s, width) && r < |s.readers|
    ensures Inv(ReaderNext(s, r), width)
  {
    match s.readers[r].pc
    case RIdle =>
    case RAcquire => InvReaderAcquire(s, r, width);
    case RCopy(_) => InvReaderCopy(s, r, width);
    case RLoadFresh => InvReaderLoad(s, r, width);
    case RClearFresh => InvReaderLoad(s, r, width);
    case RRelease(_) => InvReaderRelease(s, r, width);
  }

  lemma InvBegin(s: State, e: Event, width: nat)
    requires Inv(s, width) && !e.Writer? && !e.ReaderStep?
    ensures Inv(Step(s, e), width)
  {
    match e
    case Fill(i, word) =>
    case BeginPublish =>
    case BeginRead(r) =>
      if r < |s.readers| && s.readers[r].pc.RIdle? {
        assert s.lock != ByReader(r);
      }
  }

  lemma InvStep(s: State, e: Event, width: nat)
    requires Inv(s, width)
    ensures Inv(Step(s, e), width)
  {
    match e
    case Writer => InvWriter(s, width);
    case ReaderStep(r) => if r < |s.readers| { InvReader(s, r, width); }
    case _ => InvBegin(s, e, width);
  }

  lemma {:induction false} InvRun(s: State, es: seq<Event>, width: nat)
    requires Inv(s, width)
    ensures Inv(Run(s, es), width)
    decreases |es|
  {
    if es != [] {
      InvStep(s, es[0], width);
      InvRun(Step(s, es[0]), es[1..], width);
    }
  }

  lemma InitInv(s: State, width: nat)
    requires Init(s, width)
    ensures Inv(s, width)
  {}

  /** In every interleaving each read() that returns true delivers one whole published value, and
      the delivered publish numbers rise over the run, so no publish is consumed twice. */
  lemma DeliveriesAreWholeAndRising(s: State, es: seq<Event>, width: nat)
    requires Init(s, width)
    ensures var t := Run(s, es);
            && (forall i :: 0 <= i < |t.log| ==>
                  0 <= t.log[i].number < |t.history| && t.log[i].value == t.history[t.log[i].number])
            && (forall i, j :: 0 <= i < j < |t.log| ==> t.log[i].number < t.log[j].number)
  {
    InitInv(s, width);
    InvRun(s, es, width);
  }

  /** has_value() says true only after a publish, and then, whenever the writer is not inside the
      lock, what a reader finds in live_ is the last published value. */
  lemma HasValueMeansPublished(s: State, es: seq<Event>, width: nat)
    requires Init(s, width)
    ensures var t := Run(s, es);
            && t.published <= |t.history| <= t.published + 1
            && (t.published != 0 && t.lock != ByWriter ==> t.live == t.history[|t.history| - 1])
  {
    InitInv(s, width);
    InvRun(s, es, width);
  }

  /** While the payload is being copied in one direction nobody copies in the other. */
  lemma CopiesExclude(s: State, es: seq<Event>, width: nat, r: nat, q: nat)
    requires Init(s, width)
    requires r < |Run(s, es).readers| && q < |Run(s, es).readers|
    ensures var t := Run(s, es);
            && !(t.wpc.WCopy? && t.readers[r].pc.RCopy?)
            && (t.readers[r].pc.RCopy? && t.readers[q].pc.RCopy? ==> r == q)
  {
    InitInv(s, width);
    InvRun(s, es, width);
    assert InSection(Run(s, es).readers[r].pc) <==> Run(s, es).lock == ByReader(r);
  }

  // ---------------------------------------------------------------- one moment per call

  /** What waits to be read, as a caller sees the mailbox. */
  function Waiting(s: State): Option<Payload> {
    if s.isFresh && s.history != [] then Some(s.history[|s.history| - 1]) else None
  }

  /** What a step does to the mailbox as a whole. */
  datatype Effect = Nothing | Put(v: Payload) | Take(r: nat, v: Payload) | Miss(r: nat)

  /** publish() takes effect where it stores the flag; read() where it clears the flag, or where it
      finds it clear. */
  function EffectOf(s: State, e: Event): Effect {
    match e
    case Writer => if s.wpc.WStoreFresh? then Put(s.staging) else Nothing
    case ReaderStep(r) =>
      if r >= |s.readers| then Nothing
      else if s.readers[r].pc.RClearFresh? then Take(r, s.readers[r].out)
      else if s.readers[r].pc.RLoadFresh? && !s.isFresh then Miss(r)
      else Nothing
    case _ => Nothing
  }

  /** The write call under way has had its effect; reader r's call has had it, with this result. */
  predicate Stored(s: State) { s.wpc.WRelease? || s.wpc.WCount? }

  predicate Decided(s: State, r: nat) { r < |s.readers| && s.readers[r].pc.RRelease? }

  /** Seen as a whole, the mailbox is a cell: a publish replaces what waits, a true read takes
      exactly what waits, a false read finds nothing waiting, and no other step changes it. */
  lemma StepsActAtOnce(s: State, e: Event, width: nat)
    requires Inv(s, width)
    ensures var t := Step(s, e);
            match EffectOf(s, e)
            case Nothing => Waiting(t) == Waiting(s) && t.history == s.history
            case Put(v) => Waiting(t) == Some(v) && t.history == s.history + [v]
            case Take(r, v) => Waiting(s) == Some(v) && Waiting(t) == None && t.history == s.history
            case Miss(r) => Waiting(s) == None && Waiting(t) == None && t.history == s.history
  {
    if e.ReaderStep? && e.r < |s.readers| && InSection(s.readers[e.r].pc) {
      assert s.lock == ByReader(e.r);
    }
  }

  /** Between its call and its return a publish() has exactly one effect: it begins without, it
      does not return without, and once it has had its effect it stays so until it returns. */
  lemma OneEffectPerPublish(s: State, e: Event)
    ensures var t := Step(s, e);
            && (Stored(t) && !Stored(s) <==> EffectOf(s, e).Put?)
            && (e == BeginPublish ==> Stored(t) == Stored(s))
            && (e == Writer && s.wpc.WIdle? ==> t == s)
            && (s.wpc.WIdle? ==> !Stored(s))
            && (!s.wpc.WIdle? && t.wpc.WIdle? ==> Stored(s))
            && (Stored(s) && !Stored(t) ==> t.wpc.WIdle?)
  {
    match e
    case ReaderStep(r) => if r < |s.readers| { ReaderKeepsOthers(s, r); }
    case _ =>
  }

  lemma ReaderKeepsOthers(s: State, r: nat)
    requires r < |s.readers|
    ensures var t := ReaderNext(s, r);
            && t.wpc == s.wpc && |t.readers| == |s.readers|
            && forall q :: 0 <= q < |s.readers| && q != r ==> t.readers[q] == s.readers[q]
  {
    match s.readers[r].pc
    case RIdle =>
    case RAcquire =>
    case RLoadFresh =>
    case RCopy(_) =>
    case RClearFresh =>
    case RRelease(_) =>
  }

  /** So has a read(): its effect decides it, and it returns what that effect was, with the value
      taken. */
  lemma OneEffectPerRead(s: State, e: Event, r: nat)
    requires r < |s.readers|
    ensures var (t, f) := (Step(s, e), EffectOf(s, e));
            && r < |t.readers|
            && (Decided(t, r) && !Decided(s, r) <==> (f.Take? || f.Miss?) && f.r == r)
            && (!s.readers[r].pc.RIdle? && t.readers[r].pc.RIdle? ==> Decided(s, r))
            && (Decided(t, r) && !Decided(s, r) ==> t.readers[r] == Reader(RRelease(f.Take?), s.readers[r].out))
            && (f.Take? && f.r == r ==> f.v == s.readers[r].out)
            && (Decided(t, r) && Decided(s, r) ==> t.readers[r] == s.readers[r])
            && (s.readers[r].pc.RIdle? ==> !Decided(s, r))
            && (e == ReaderStep(r) && s.readers[r].pc.RIdle? ==> t == s)
            && (Decided(s, r) && !Decided(t, r) ==> t.readers[r].pc.RIdle?)
  {
    match e
    case ReaderStep(q) =>
      if q < |s.readers| {
        ReaderKeepsOthers(s, q);
        if q == r { OwnEffect(s, r); }
      }
    case _ =>
  }

  lemma OwnEffect(s: State, r: nat)
    requires r < |s.readers|
    ensures var (t, f) := (ReaderNext(s, r), EffectOf(s, ReaderStep(r)));
            && |t.readers| == |s.readers|
            && (Decided(t, r) <==> f == Take(r, s.readers[r].out) || f == Miss(r))
            && (!s.readers[r].pc.RIdle? && t.readers[r].pc.RIdle? ==> Decided(s, r))
            && (Decided(t, r) ==> !Decided(s, r) && t.readers[r] == Reader(RRelease(f.Take?), s.readers[r].out))
  {
    match s.readers[r].pc
    case RIdle =>
    case RAcquire =>
    case RLoadFresh =>
    case RCopy(_) =>
    case RClearFresh =>
    case RRelease(_) =>
  }

  // ---------------------------------------------------------------- no publish goes missing

  /** The last publish waits, is being delivered or was delivered last; and every publish was
      delivered, was replaced while it waited, or is that last one. */
  ghost predicate Accounted(s: State) {
    var unsettled := s.isFresh || Delivering(s);
    && (!unsettled && s.history != [] ==> s.log != [] && s.log[|s.log| - 1].number == |s.history| - 1)
    && |s.history| == |s.log| + s.superseded + (if unsettled then 1 else 0)
  }

  lemma AccountedReader(s: State, r: nat, width: nat)
    requires Inv(s, width) && Accounted(s) && r < |s.readers|
    ensures Accounted(ReaderNext(s, r))
  {
    hide Shape, LiveInv, LogInv;
    assert InSection(s.readers[r].pc) <==> s.lock == ByReader(r);
    ReaderKeepsOthers(s, r);
    match s.readers[r].pc
    case RIdle =>
    case RAcquire =>
    case RLoadFresh =>
    case RCopy(_) =>
    case RClearFresh =>
    case RRelease(_) =>
  }

  lemma AccountedWriter(s: State, width: nat)
    requires Inv(s, width) && Accounted(s)
    ensures Accounted(WriterNext(s))
  {
    hide Shape, LiveInv, LogInv, ReadInv;
    match s.wpc
    case WIdle =>
    case WAcquire =>
    case WCopy(_) =>
    case WStoreFresh =>
    case WRelease =>
    case WCount =>
  }

  lemma AccountedStep(s: State, e: Event, width: nat)
    requires Inv(s, width) && Accounted(s)
    ensures Accounted(Step(s, e))
  {
    match e
    case Writer => AccountedWriter(s, width);
    case ReaderStep(r) => if r < |s.readers| { AccountedReader(s, r, width); }
    case BeginRead(r) =>
      if r < |s.readers| && s.readers[r].pc.RIdle? {
        assert !InSection(s.readers[r].pc) && s.lock != ByReader(r);
      }
    case _ =>
  }

  lemma {:induction false} AccountedRun(s: State, es: seq<Event>, width: nat)
    requires Inv(s, width) && Accounted(s)
    ensures Inv(Run(s, es), width) && Accounted(Run(s, es))
    decreases |es|
  {
    if es != [] {
      hide Inv, Accounted, Step;
      InvStep(s, es[0], width);
      AccountedStep(s, es[0], width);
      AccountedRun(Step(s, es[0]), es[1..], width);
    }
  }

  /** A read() that returns false missed nothing: nothing was ever published, or the last publish
      had already been delivered. */
  lemma FalseReadMissedNothing(s: State, es: seq<Event>, width: nat, r: nat)
    requires Init(s, width) && EffectOf(Run(s, es), ReaderStep(r)).Miss?
    ensures var t := Run(s, es);
            t.history == [] || (t.log != [] && t.log[|t.log| - 1].number == |t.history| - 1)
  {
    InitInv(s, width);
    AccountedRun(s, es, width);
    var t := Run(s, es);
    assert InSection(t.readers[r].pc) && t.lock == ByReader(r);
  }

  /** Every publish is accounted for: it was delivered, was replaced while it waited, or is the one
      that still waits or is being delivered. */
  lemma PublishesAreAccountedFor(s: State, es: seq<Event>, width: nat)
    requires Init(s, width)
    ensures var t := Run(s, es);
            |t.history| == |t.log| + t.superseded + (if t.isFresh || Delivering(t) then 1 else 0)
  {
    InitInv(s, width);
    AccountedRun(s, es, width);
  }

  // ---------------------------------------------------------------- an undisturbed publish

  function Writes(k: nat): seq<Event> {
    if k == 0 then [] else [Writer] + Writes(k - 1)
  }

  lemma WriterRun(s: State, k: nat)
    ensures Run(s, Writes(k + 1)) == Run(WriterNext(s), Writes(k))
  {
    assert Writes(k + 1)[1..] == Writes(k);
  }

  /** From inside the copy loop the writer copies the rest, stores the flag and returns. */
  lemma {:induction false} FinishPublish(s: State, width: nat)
    requires Inv(s, width) && s.wpc.WCopy?
    ensures s.wpc.wk <= width
    ensures Run(s, Writes(width - s.wpc.wk + 4))
         == s.(live := s.staging, isFresh := true, wpc := WIdle, lock := Free, published := s.published + 1,
               history := s.history + [s.staging], superseded := s.superseded + if s.isFresh then 1 else 0)
    decreases width - s.wpc.wk
  {
    hide LogInv, ReadInv, Locking;
    var k := s.wpc.wk;
    var t := WriterNext(s);
    InvWriter(s, width);
    if k < width {
      FinishPublish(t, width);
      WriterRun(s, width - k + 3);
    } else {
      assert s.live == s.staging by {
        assert s.live[..k] == s.live && s.staging[..k] == s.staging;
      }
      var u := WriterNext(t);
      var v := WriterNext(u);
      WriterRun(s, 3);
      WriterRun(t, 2);
      WriterRun(u, 1);
      WriterRun(v, 0);
    }
  }

  /** A publish() that nobody disturbs, on a mailbox whose lock is free: the staged value waits
      afterwards, whatever waited before, and is counted. */
  lemma QuietPublish(s: State, width: nat)
    requires Inv(s, width) && s.lock == Free && s.wpc.WIdle?
    ensures Run(s, [BeginPublish] + Writes(width + 5))
         == s.(live := s.staging, isFresh := true, published := s.published + 1,
               history := s.history + [s.staging], superseded := s.superseded + if s.isFresh then 1 else 0)
  {
    var a := Step(s, BeginPublish);
    var b := WriterNext(a);
    InvBegin(s, BeginPublish, width);
    InvWriter(a, width);
    assert ([BeginPublish] + Writes(width + 5))[1..] == Writes(width + 5);
    WriterRun(a, width + 4);
    hide Inv, Writes;
    FinishPublish(b, width);
  }

  /** The producer stores the words of v into its private slot, from word i on. */
  function Fills(v: Payload, i: nat): seq<Event>
    decreases |v| - i
  {
    if i < |v| then [Fill(i, v[i])] + Fills(v, i + 1) else []
  }

  lemma {:induction false} FillsStage(s: State, v: Payload, i: nat)
    requires s.wpc.WIdle? && |s.staging| == |v| && i <= |v| && s.staging[..i] == v[..i]
    ensures Run(s, Fills(v, i)) == s.(staging := v)
    decreases |v| - i
  {
    if i < |v| {
      var t := Step(s, Fill(i, v[i]));
      assert t.staging[..i + 1] == s.staging[..i] + [v[i]] && v[..i + 1] == v[..i] + [v[i]];
      FillsStage(t, v, i + 1);
      assert Fills(v, i)[1..] == Fills(v, i + 1);
      assert t.(staging := v) == s.(staging := v);
    } else {
      assert s.staging == v by {
        assert s.staging[..i] == s.staging && v[..i] == v;
      }
    }
  }

  lemma {:induction false} RunConcat(s: State, a: seq<Event>, b: seq<Event>)
    ensures Run(s, a + b) == Run(Run(s, a), b)
    decreases |a|
  {
    if a == [] {
      assert a + b == b;
    } else {
      assert (a + b)[1..] == a[1..] + b;
      RunConcat(Step(s, a[0]), a[1..], b);
    }
  }

  /** store(): what is filled in is what waits. */
  lemma QuietStore(s: State, v: Payload, width: nat)
    requires Inv(s, width) && s.lock == Free && s.wpc.WIdle? && |v| == width
    ensures var t := Run(s, Fills(v, 0) + ([BeginPublish] + Writes(width + 5)));
            Waiting(t) == Some(v) && t.history == s.history + [v] && t.published == s.published + 1
  {
    var fills, publish := Fills(v, 0), [BeginPublish] + Writes(width + 5);
    RunConcat(s, fills, publish);
    FillsStage(s, v, 0);
    var t := s.(staging := v);
    assert Inv(t, width);
    hide Inv, Run, Writes, Fills;
    QuietPublish(t, width);
  }

  // ---------------------------------------------------------------- an undisturbed read

  function Alone(r: nat, n: nat): seq<Event> {
    if n == 0 then [] else [ReaderStep(r)] + Alone(r, n - 1)
  }

  lemma AloneStep(s: State, r: nat, n: nat)
    requires r < |s.readers|
    ensures Run(s, Alone(r, n + 1)) == Run(ReaderNext(s, r), Alone(r, n))
  {
    assert Alone(r, n + 1)[1..] == Alone(r, n);
  }

  /** From inside the copy loop the reader copies the rest, clears the flag and returns. */
  lemma {:induction false} FinishCopy(s: State, r: nat, width: nat)
    requires Inv(s, width) && r < |s.readers| && s.readers[r].pc.RCopy?
    ensures s.readers[r].pc.rk <= width
    ensures Run(s, Alone(r, width - s.readers[r].pc.rk + 3))
         == s.(readers := s.readers[r := Reader(RIdle, s.live)], isFresh := false, lock := Free,
               log := s.log + [Delivery(r, |s.history| - 1, s.live)])
    decreases width - s.readers[r].pc.rk
  {
    var k := s.readers[r].pc.rk;
    assert s.lock == ByReader(r);
    var t := ReaderNext(s, r);
    InvReader(s, r, width);
    if k < width {
      FinishCopy(t, r, width);
      AloneStep(s, r, width - k + 2);
      assert t.readers[r := Reader(RIdle, s.live)] == s.readers[r := Reader(RIdle, s.live)];
    } else {
      var u := ReaderNext(t, r);
      AloneStep(s, r, 2);
      AloneStep(t, r, 1);
      AloneStep(u, r, 0);
      assert s.readers[r].out == s.live by {
        assert s.readers[r].out[..k] == s.readers[r].out && s.live[..k] == s.live;
      }
      assert ReaderNext(u, r).readers == s.readers[r := Reader(RIdle, s.live)];
    }
  }

  /** The call, the lock and the load of the flag. */
  lemma QuietStart(s: State, r: nat, n: nat, width: nat) returns (t: State)
    requires Inv(s, width) && s.lock == Free && r < |s.readers| && s.readers[r].pc.RIdle?
    ensures Run(s, [BeginRead(r)] + Alone(r, n + 2)) == Run(t, Alone(r, n)) && Inv(t, width)
    ensures t == s.(lock := ByReader(r),
                    readers := s.readers[r := Reader(if s.isFresh then RCopy(0) else RRelease(false),
                                                     s.readers[r].out)])
  {
    var s1 := Step(s, BeginRead(r));
    InvBegin(s, BeginRead(r), width);
    InvReader(s1, r, width);
    InvReader(ReaderNext(s1, r), r, width);
    assert ([BeginRead(r)] + Alone(r, n + 2))[1..] == Alone(r, n + 2);
    AloneStep(s1, r, n + 1);
    AloneStep(ReaderNext(s1, r), r, n);
    t := ReaderNext(ReaderNext(s1, r), r);
    hide Inv, Alone;
  }

  lemma QuietTrueRead(s: State, r: nat, width: nat)
    requires Inv(s, width) && s.lock == Free && r < |s.readers| && s.readers[r].pc.RIdle? && s.isFresh
    ensures Run(s, [BeginRead(r)] + Alone(r, width + 5))
         == s.(readers := s.readers[r := Reader(RIdle, s.live)], isFresh := false,
               log := s.log + [Delivery(r, |s.history| - 1, s.live)])
  {
    hide Inv, Run, Alone;
    var t := QuietStart(s, r, width + 3, width);
    FinishCopy(t, r, width);
    assert t.readers[r := Reader(RIdle, s.live)] == s.readers[r := Reader(RIdle, s.live)];
  }

  lemma QuietFalseRead(s: State, r: nat, width: nat)
    requires Inv(s, width) && s.lock == Free && r < |s.readers| && s.readers[r].pc.RIdle? && !s.isFresh
    ensures Run(s, [BeginRead(r)] + Alone(r, 3)) == s
  {
    hide Inv;
    var t := QuietStart(s, r, 1, width);
    AloneStep(t, r, 0);
    assert ReaderNext(t, r).readers == s.readers;
  }

  /** A read that nobody disturbs, on a mailbox whose lock is free: if a publish is waiting it
      delivers exactly the last one, else it returns false and leaves *out alone. */
  lemma QuietReadDeliversLastPublish(s: State, r: nat, width: nat)
    requires Inv(s, width) && s.lock == Free && r < |s.readers| && s.readers[r].pc.RIdle?
    ensures s.isFresh ==>
              && s.history != []
              && var last := s.history[|s.history| - 1];
                 Run(s, [BeginRead(r)] + Alone(r, width + 5))
                 == s.(readers := s.readers[r := Reader(RIdle, last)], isFresh := false,
                       log := s.log + [Delivery(r, |s.history| - 1, last)])
    ensures !s.isFresh ==> Run(s, [BeginRead(r)] + Alone(r, 3)) == s
  {
    assert s.isFresh ==> s.history != [] && s.live == s.history[|s.history| - 1];
    hide Inv, Run, Alone;
    if s.isFresh {
      QuietTrueRead(s, r, width);
    } else {
      QuietFalseRead(s, r, width);
    }
  }
}

/** The class, one call at a time. `StepsActAtOnce`, `OneEffectPerPublish` and `OneEffectPerRead` in
    `MailboxSteps` show that concurrent calls behave as if each took effect at one moment, on the
    same `Waiting`. */
module MailboxClass {
  import opened Wrappers

  class TripleBuffer<T> {
    var staging: T
    var live: T
    var isFresh: bool
    var published: nat

    /** What waits to be read. */
    ghost function Waiting(): Option<T>
      reads this
    {
      if isFresh then Some(live) else None
    }

    constructor (initial: T)
      ensures Waiting() == None && published == 0 && live == initial
    {
      staging, live, isFresh, published := initial, initial, false, 0;
    }

    method Publish()
      modifies this`live, this`isFresh, this`published
      ensures Waiting() == Some(staging) && published == old(published) + 1
    {
      live := staging;
      isFresh := true;
      published := published + 1;
    }

    /** Overwrites whatever had not been read yet. */
    method Store(v: T)
      modifies this
      ensures Waiting() == Some(v) && published == old(published) + 1
    {
      staging := v;
      Publish();
    }

    /** Takes what waits, if anything does. */
    method Read(previous: T) returns (isNew: bool, out: T)
      modifies this`isFresh
      ensures isNew == old(Waiting()).Some? && Waiting() == None
      ensures out == if isNew then old(Waiting()).value else previous
    {
      isNew, out := false, previous;
      if isFresh {
        isNew := true;
        out := live;
        isFresh := false;
      }
    }
  }
}
