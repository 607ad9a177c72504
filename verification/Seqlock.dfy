/**
 The seqlock around the polled position and velocity of a joint: `set_polled_pos_vel` and
 `clear_polled` on the writer side, the reader inside `fill_snapshot`, one shared access a step.
 */
module Seqlock {

  const SEQ_WRAP: nat := 0x1_0000_0000

  datatype Write = Set(pos: real, vel: real, stamp: nat) | Clear

  /** The next store of a write call; both writers store the fields in the same order. */
  datatype WriterPc = WIdle | WEnter | WPos | WVel | WStamp | WValid | WLeave

  datatype ReaderPc = RIdle | RSeq1 | RValid | RPos | RVel | RStamp | RSeq2

  /** What the snapshot took over, with how often `seq` was incremented before each load of it. */
  datatype Sample = Sample(pos: real, vel: real, stamp: nat, now: nat, adds1: nat, adds2: nat)

  datatype State = State(
    adds: nat,             // increments of seq so far; the shared word is adds % 2^32
    pos: real, vel: real, stamp: nat, valid: bool,
    wpc: WriterPc, w: Write,
    rpc: ReaderPc, now: nat,
    adds1: nat, rvalid: bool, rpos: real, rvel: real, rstamp: nat,
    done: seq<Write>,      // finished write calls
    accepted: seq<Sample>  // what fill_snapshot overwrote its fields with
  )

  datatype Event = BeginWrite(w: Write) | Writer | BeginRead(now: nat) | Reader

  const START := State(0, 0.0, 0.0, 0, false, WIdle, Clear, RIdle, 0, 0, false, 0.0, 0.0, 0, [], [])

  function Seq(adds: nat): nat { adds % SEQ_WRAP }

  function PolledMaxAgeNs(pollMs: nat): nat {
    pollMs * 3 * 1000000 + 50000000
  }

  /** polled_usable() */
  predicate PolledUsable(now: nat, stamp: nat, pollMs: nat, valid: bool) {
    valid && pollMs != 0 && stamp != 0 && now >= stamp && now - stamp <= PolledMaxAgeNs(pollMs)
  }

  function WriterStep(s: State): State {
    match s.wpc
    case WIdle => s
    case WEnter => s.(adds := s.adds + 1, wpc := WPos)
    case WPos => s.(pos := if s.w.Set? then s.w.pos else 0.0, wpc := WVel)
    case WVel => s.(vel := if s.w.Set? then s.w.vel else 0.0, wpc := WStamp)
    case WStamp => s.(stamp := if s.w.Set? then s.w.stamp else 0, wpc := WValid)
    case WValid => s.(valid := s.w.Set?, wpc := WLeave)
    case WLeave => s.(adds := s.adds + 1, wpc := WIdle, done := s.done + [s.w])
  }

  function ReaderStep(s: State, pollMs: nat): State {
    match s.rpc
    case RIdle => s
    case RSeq1 => s.(adds1 := s.adds, rpc := RValid)
    case RValid => s.(rvalid := s.valid, rpc := RPos)
    case RPos => s.(rpos := s.pos, rpc := RVel)
    case RVel => s.(rvel := s.vel, rpc := RStamp)
    case RStamp => s.(rstamp := s.stamp, rpc := RSeq2)
    case RSeq2 =>
      if Seq(s.adds1) == Seq(s.adds) && Seq(s.adds1) % 2 == 0
         && PolledUsable(s.now, s.rstamp, pollMs, s.rvalid) then
        s.(rpc := RIdle,
           accepted := s.accepted + [Sample(s.rpos, s.rvel, s.rstamp, s.now, s.adds1, s.adds)])
      else
        s.(rpc := RIdle)
  }

  function Step(s: State, e: Event, pollMs: nat): State {
    match e
    case BeginWrite(w) => if s.wpc.WIdle? then s.(wpc := WEnter, w := w) else s
    case Writer => WriterStep(s)
    case BeginRead(now) => if s.rpc.RIdle? then s.(rpc := RSeq1, now := now) else s
    case Reader => ReaderStep(s, pollMs)
  }

  function Run(s: State, es: seq<Event>, pollMs: nat): State
    decreases |es|
  {
    if es == [] then s else Run(Step(s, es[0], pollMs), es[1..], pollMs)
  }

  /** The write in force after `k` finished calls; before the first one the fields are invalid. */
  function InForce(done: seq<Write>, k: nat): Write
    requires k <= |done|
  {
    if k == 0 then Clear else done[k - 1]
  }

  /** The fields hold what the call `w` stores. */
  predicate Holds(s: State, w: Write) {
    s.valid == w.Set? && (w.Set? ==> s.pos == w.pos && s.vel == w.vel && s.stamp == w.stamp)
  }

  predicate WriterInv(s: State) {
    && s.adds == 2 * |s.done| + (if s.wpc.WIdle? || s.wpc.WEnter? then 0 else 1)
    && (s.wpc.WIdle? || s.wpc.WEnter? ==> Holds(s, InForce(s.done, |s.done|)))
    && (s.wpc.WVel? || s.wpc.WStamp? || s.wpc.WValid? || s.wpc.WLeave? ==> s.w.Set? ==> s.pos == s.w.pos)
    && (s.wpc.WStamp? || s.wpc.WValid? || s.wpc.WLeave? ==> s.w.Set? ==> s.vel == s.w.vel)
    && (s.wpc.WValid? || s.wpc.WLeave? ==> s.w.Set? ==> s.stamp == s.w.stamp)
    && (s.wpc.WLeave? ==> s.valid == s.w.Set?)
  }

  /** As long as no increment came after the first load of an even `seq`, whatever the reader
      has loaded so far is still what the fields hold. */
  predicate ReaderInv(s: State) {
    && (!s.rpc.RIdle? && !s.rpc.RSeq1? ==> s.adds1 <= s.adds)
    && (s.adds1 == s.adds && s.adds % 2 == 0 ==>
          && (s.rpc.RPos? || s.rpc.RVel? || s.rpc.RStamp? || s.rpc.RSeq2? ==> s.rvalid == s.valid)
          && (s.rpc.RVel? || s.rpc.RStamp? || s.rpc.RSeq2? ==> s.rpos == s.pos)
          && (s.rpc.RStamp? || s.rpc.RSeq2? ==> s.rvel == s.vel)
          && (s.rpc.RSeq2? ==> s.rstamp == s.stamp))
  }

  /** The sample is exactly the call in force when the read began to look, whole and recent. */
  predicate Genuine(a: Sample, done: seq<Write>, pollMs: nat) {
    && a.adds1 / 2 <= |done|
    && InForce(done, a.adds1 / 2) == Set(a.pos, a.vel, a.stamp)
    && a.stamp <= a.now <= a.stamp + pollMs * 3000000 + 50000000
  }

  ghost predicate Inv(s: State, pollMs: nat) {
    && WriterInv(s) && ReaderInv(s)
    && forall i :: 0 <= i < |s.accepted| ==>
         && s.accepted[i].adds1 <= s.accepted[i].adds2 <= s.adds
         && Seq(s.accepted[i].adds1) == Seq(s.accepted[i].adds2)
         && (s.accepted[i].adds2 - s.accepted[i].adds1 < SEQ_WRAP ==> Genuine(s.accepted[i], s.done, pollMs))
  }

  lemma InvWriter(s: State, pollMs: nat)
    requires Inv(s, pollMs)
    ensures Inv(WriterStep(s), pollMs)
  {
    match s.wpc
    case WIdle =>
    case WEnter =>
    case WPos =>
    case WVel =>
    case WStamp =>
    case WValid =>
    case WLeave =>
  }

  /** Equal words with fewer than 2^32 increments in between mean that there was none. */
  lemma SameWordSameCount(a: nat, b: nat)
    requires a <= b < a + SEQ_WRAP && Seq(a) == Seq(b)
    ensures a == b
  {}

  lemma UndisturbedIsGenuine(s: State, pollMs: nat)
    requires WriterInv(s) && ReaderInv(s) && s.rpc.RSeq2? && s.adds1 == s.adds && s.adds % 2 == 0
    requires PolledUsable(s.now, s.rstamp, pollMs, s.rvalid)
    ensures Genuine(Sample(s.rpos, s.rvel, s.rstamp, s.now, s.adds1, s.adds), s.done, pollMs)
  {
    assert s.adds == 2 * |s.done|;
  }

  lemma InvReaderDecides(s: State, pollMs: nat)
    requires Inv(s, pollMs) && s.rpc.RSeq2?
    ensures Inv(ReaderStep(s, pollMs), pollMs)
  {
    hide Genuine, PolledUsable;
    var t := ReaderStep(s, pollMs);
    assert WriterInv(t) && ReaderInv(t);
    if |t.accepted| > |s.accepted| && s.adds - s.adds1 < SEQ_WRAP {
      SameWordSameCount(s.adds1, s.adds);
      UndisturbedIsGenuine(s, pollMs);
    }
  }

  lemma InvReader(s: State, pollMs: nat)
    requires Inv(s, pollMs)
    ensures Inv(ReaderStep(s, pollMs), pollMs)
  {
    match s.rpc
    case RSeq2 => InvReaderDecides(s, pollMs);
    case RIdle =>
    case RSeq1 =>
    case RValid =>
    case RPos =>
    case RVel =>
    case RStamp =>
  }

  lemma InvStep(s: State, e: Event, pollMs: nat)
    requires Inv(s, pollMs)
    ensures Inv(Step(s, e, pollMs), pollMs)
  {
    match e
    case BeginWrite(w) =>
    case Writer => InvWriter(s, pollMs);
    case BeginRead(now) =>
    case Reader => InvReader(s, pollMs);
  }

  lemma {:induction false} InvRun(s: State, es: seq<Event>, pollMs: nat)
    requires Inv(s, pollMs)
    ensures Inv(Run(s, es, pollMs), pollMs)
    decreases |es|
  {
    if es != [] {
      InvStep(s, es[0], pollMs);
      InvRun(Step(s, es[0], pollMs), es[1..], pollMs);
    }
  }

  /** In every interleaving, whatever fill_snapshot accepts while `seq` went round less than once
      is one finished set_polled_pos_vel, the one in force when the read started, never a mix and
      never a clear, and at most 3 * poll_ms + 50 ms old. */
  lemma AcceptedSamplesAreGenuine(es: seq<Event>, pollMs: nat, i: nat)
    requires i < |Run(START, es, pollMs).accepted|
    ensures var t := Run(START, es, pollMs);
            var a := t.accepted[i];
            a.adds2 - a.adds1 < SEQ_WRAP ==> Genuine(a, t.done, pollMs)
  {
    InvRun(START, es, pollMs);
  }

  // ---------------------------------------------------------------- why the proviso is needed

  function Call(w: Write): seq<Event> {
    [BeginWrite(w), Writer, Writer, Writer, Writer, Writer, Writer]
  }

  function Calls(w: Write, n: nat): seq<Event> {
    if n == 0 then [] else Call(w) + Calls(w, n - 1)
  }

  lemma {:induction false} RunConcat(s: State, a: seq<Event>, b: seq<Event>, pollMs: nat)
    ensures Run(s, a + b, pollMs) == Run(Run(s, a, pollMs), b, pollMs)
    decreases |a|
  {
    if a == [] {
      assert a + b == b;
    } else {
      assert (a + b)[1..] == a[1..] + b;
      RunConcat(Step(s, a[0], pollMs), a[1..], b, pollMs);
    }
  }

  /** The state after one undisturbed write call. */
  function After(s: State, w: Write): State {
    var (pos, vel, stamp) := if w.Set? then (w.pos, w.vel, w.stamp) else (0.0, 0.0, 0);
    s.(adds := s.adds + 2, pos := pos, vel := vel, stamp := stamp, valid := w.Set?, w := w,
       wpc := WIdle, done := s.done + [w])
  }

  lemma RunCall(s: State, w: Write, pollMs: nat)
    requires s.wpc.WIdle?
    ensures Run(s, Call(w), pollMs) == After(s, w)
  {
    var es := Call(w);
    var s1 := Step(s, es[0], pollMs);
    var s2 := WriterStep(s1);
    var s3 := WriterStep(s2);
    var s4 := WriterStep(s3);
    var s5 := WriterStep(s4);
    var s6 := WriterStep(s5);
    assert Run(s6, es[6..], pollMs) == WriterStep(s6);
    assert es[5..][1..] == es[6..];
    assert Run(s5, es[5..], pollMs) == WriterStep(s6);
    assert es[4..][1..] == es[5..];
    assert Run(s4, es[4..], pollMs) == WriterStep(s6);
    assert es[3..][1..] == es[4..];
    assert Run(s3, es[3..], pollMs) == WriterStep(s6);
    assert es[2..][1..] == es[3..];
    assert Run(s2, es[2..], pollMs) == WriterStep(s6);
    assert es[1..][1..] == es[2..];
    assert Run(s1, es[1..], pollMs) == WriterStep(s6);
  }

  lemma {:induction false} RunCalls(s: State, w: Write, n: nat, pollMs: nat)
    requires s.wpc.WIdle? && w.Set?
    ensures var t := Run(s, Calls(w, n), pollMs);
            && t.adds == s.adds + 2 * n && t.wpc.WIdle?
            && t == s.(adds := t.adds, pos := t.pos, vel := t.vel, stamp := t.stamp, valid := t.valid, w := t.w,
                      done := t.done)
            && (n > 0 ==> Holds(t, w))
            && |s.done| <= |t.done|
            && (forall k :: 0 <= k < |t.done| ==> t.done[k] == if k < |s.done| then s.done[k] else w)
    decreases n
  {
    if n > 0 {
      RunConcat(s, Call(w), Calls(w, n - 1), pollMs);
      RunCall(s, w, pollMs);
      RunCalls(After(s, w), w, n - 1, pollMs);
    }
  }

  /** The reader up to and including its load of the position. */
  lemma RunFirstHalf(s: State, now: nat, pollMs: nat)
    requires s.rpc.RIdle?
    ensures Run(s, [BeginRead(now), Reader, Reader, Reader], pollMs)
         == s.(rpc := RVel, now := now, adds1 := s.adds, rvalid := s.valid, rpos := s.pos)
  {
    var es := [BeginRead(now), Reader, Reader, Reader];
    var a := Step(s, es[0], pollMs);
    var b := ReaderStep(a, pollMs);
    var c := ReaderStep(b, pollMs);
    assert Run(c, es[3..], pollMs) == ReaderStep(c, pollMs);
    assert es[2..][1..] == es[3..] && es[1..][1..] == es[2..];
    assert Run(b, es[2..], pollMs) == ReaderStep(c, pollMs);
    assert Run(a, es[1..], pollMs) == ReaderStep(c, pollMs);
  }

  /** The rest of the read. */
  lemma RunSecondHalf(s: State, pollMs: nat)
    requires s.rpc.RVel?
    ensures Run(s, [Reader, Reader, Reader], pollMs)
         == ReaderStep(s.(rvel := s.vel, rstamp := s.stamp, rpc := RSeq2), pollMs)
  {
    var es := [Reader, Reader, Reader];
    var a := ReaderStep(s, pollMs);
    var b := ReaderStep(a, pollMs);
    assert Run(b, es[2..], pollMs) == ReaderStep(b, pollMs);
    assert es[1..][1..] == es[2..];
    assert Run(a, es[1..], pollMs) == ReaderStep(b, pollMs);
  }

  /** What a read takes over that meets no write: exactly the last completed set, if polling is on,
      its stamp is not 0, not in the future and at most 3 * poll_ms + 50 ms old; else nothing. */
  lemma QuietReadTakesFreshSet(s: State, now: nat, pollMs: nat)
    requires Inv(s, pollMs) && s.wpc.WIdle? && s.rpc.RIdle?
    ensures var t := Run(s, [BeginRead(now), Reader, Reader, Reader] + [Reader, Reader, Reader], pollMs);
            var w := InForce(s.done, |s.done|);
            && t.rpc.RIdle?
            && t.accepted == s.accepted
               + (if w.Set? && pollMs != 0 && w.stamp != 0 && w.stamp <= now <= w.stamp + pollMs * 3000000 + 50000000
                  then [Sample(w.pos, w.vel, w.stamp, now, s.adds, s.adds)] else [])
  {
    var first := [BeginRead(now), Reader, Reader, Reader];
    RunConcat(s, first, [Reader, Reader, Reader], pollMs);
    RunFirstHalf(s, now, pollMs);
    RunSecondHalf(Run(s, first, pollMs), pollMs);
    hide Run;
    assert s.adds == 2 * |s.done|;
  }

  const OLDER := Set(1.0, 1.0, 1)
  const NEWER := Set(2.0, 2.0, 1)

  lemma WholeTurns(a: nat, d: nat)
    ensures d % SEQ_WRAP == 0 <==> Seq(a + d) == Seq(a)
  {}

  /** A reader that has loaded the old position sleeps through n calls and then finishes. */
  lemma FinishAfterCalls(s: State, n: nat) returns (es: seq<Event>)
    requires n > 0 && (2 * n) % SEQ_WRAP == 0
    requires s.rpc.RVel? && s.wpc.WIdle? && s.adds == s.adds1 == 2 && s.now == 1 && s.rvalid
    requires s.rpos == 1.0 && s.accepted == [] && s.done == [OLDER]
    ensures var t := Run(s, es, 10);
            && t.accepted == [Sample(1.0, 2.0, 1, 1, 2, 2 + 2 * n)]
            && forall k :: 0 <= k < |t.done| ==> t.done[k] == OLDER || t.done[k] == NEWER
  {
    var finish := [Reader, Reader, Reader];
    es := Calls(NEWER, n) + finish;
    var u := Run(s, Calls(NEWER, n), 10);
    RunCalls(s, NEWER, n, 10);
    WholeTurns(2, 2 * n);
    RunSecondHalf(u, 10);
    RunConcat(s, Calls(NEWER, n), finish, 10);
  }

  const LOOK: seq<Event> := Call(OLDER) + [BeginRead(1), Reader, Reader, Reader]

  /** One call has finished, and the reader has loaded its position. */
  lemma LookedAt() returns (s: State)
    ensures s == Run(START, LOOK, 10)
    ensures s.rpc.RVel? && s.wpc.WIdle? && s.adds == s.adds1 == 2 && s.now == 1 && s.rvalid
    ensures s.rpos == 1.0 && s.accepted == [] && s.done == [OLDER]
  {
    RunCall(START, OLDER, 10);
    RunFirstHalf(After(START, OLDER), 1, 10);
    hide Run, Call;
    RunConcat(START, Call(OLDER), [BeginRead(1), Reader, Reader, Reader], 10);
    s := Run(START, LOOK, 10);
  }

  /** A reader held up between its two field loads for whole turns of the 32-bit word does accept a
      mix: the old position with the new velocity, which no call ever stored. */
  lemma WholeTurnsTearTheSample(d: nat) returns (es: seq<Event>)
    requires d > 0 && d % SEQ_WRAP == 0
    ensures var t := Run(START, es, 10);
            && |t.accepted| == 1 && t.accepted[0].adds2 - t.accepted[0].adds1 == d
            && forall k :: 0 <= k < |t.done| ==>
                 t.done[k] != Set(t.accepted[0].pos, t.accepted[0].vel, t.accepted[0].stamp)
  {
    hide Run, Call;
    var s := LookedAt();
    var rest := FinishAfterCalls(s, d / 2);
    RunConcat(START, LOOK, rest, 10);
    es := LOOK + rest;
  }

  /** Some run accepts a sample that is not one completed call, with d increments inside the read. */
  ghost predicate Tears(d: nat) {
    exists es, pollMs, i ::
      0 <= i < |Run(START, es, pollMs).accepted|
      && var t := Run(START, es, pollMs);
         t.accepted[i].adds2 - t.accepted[i].adds1 == d && !Genuine(t.accepted[i], t.done, pollMs)
  }

  /** The exact set of increment counts that are unsafe: the whole turns of the word. */
  lemma TearsIffWholeTurns(d: nat)
    ensures Tears(d) <==> d > 0 && d % SEQ_WRAP == 0
  {
    if d > 0 && d % SEQ_WRAP == 0 {
      var es := WholeTurnsTearTheSample(d);
      var t := Run(START, es, 10);
      assert 0 <= 0 < |t.accepted| && !Genuine(t.accepted[0], t.done, 10);
    }
    forall es, pollMs, i | 0 <= i < |Run(START, es, pollMs).accepted|
      ensures var t := Run(START, es, pollMs);
              var a := t.accepted[i];
              a.adds2 - a.adds1 == d && !Genuine(a, t.done, pollMs) ==> d > 0 && d % SEQ_WRAP == 0
    {
      InvRun(START, es, pollMs);
      var a := Run(START, es, pollMs).accepted[i];
      WholeTurns(a.adds1, a.adds2 - a.adds1);
    }
  }
}
