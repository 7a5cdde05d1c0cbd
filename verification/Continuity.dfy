/** What the receiver tells its reader about gaps and new sessions, and what the reader does about them. */
module Continuity {
  import opened Wrappers
  import opened Wire
  import opened FrameIds
  import opened Reassembly
  import opened ReassemblyInvariant
  import opened DeliveryOrder

  /** The same receiver with the two marks set so. */
  function Marked(s: Pipe, reset: bool, gap: bool): Pipe { s.(decoderReset := reset, discontinuity := gap) }

  // ---------- What raises the marks ----------

  /** A datagram of another session than the one in progress. */
  predicate Changes(s: Pipe, e: Event) { e.Arrive? && s.session != 0 && e.packet.session != s.session }

  /** The first datagram of all. */
  predicate Begins(s: Pipe, e: Event) { e.Arrive? && s.session == 0 }

  lemma EnterMarked(s: Pipe, session: uint32, reset: bool, gap: bool)
    ensures
      var changes := s.session != 0 && session != s.session;
      Enter(Marked(s, reset, gap), session) ==
        Marked(Enter(s, session), reset || changes, gap || changes || s.session == 0)
  {}

  lemma BeforeMarked(s: Pipe, p: Packet, now: uint64, reset: bool, gap: bool)
    requires SlotsOk(s) && Decoded(p)
    ensures SlotsOk(Marked(s, reset, gap)) && SlotFor(Marked(s, reset, gap), p) == SlotFor(s, p)
    ensures SlotFor(s, p) < |s.slots| ==>
      Before(Marked(s, reset, gap), SlotFor(s, p), p, now) == Before(s, SlotFor(s, p), p, now)
  {
    hide FrameOk, FindFrame, FindFree;
  }

  lemma PutMarked(n: Numbering, s: Pipe, k: nat, f: Frame, v: Verdict, id: int, reset: bool, gap: bool)
    requires k < |s.slots|
    ensures Put(n, Marked(s, reset, gap), k, f, v, id) == Marked(Put(n, s, k, f, v, id), reset, gap)
  {
    hide Newer;
  }

  lemma PlaceMarked(n: Numbering, s: Pipe, p: Packet, now: uint64, reset: bool, gap: bool)
    requires SlotsOk(s) && Decoded(p)
    ensures SlotsOk(Marked(s, reset, gap))
    ensures Place(n, Marked(s, reset, gap), p, now) == Marked(Place(n, s, p, now), reset, gap)
  {
    hide FrameOk, Store, SlotFor, Before, Put, SlotsOk;
    BeforeMarked(s, p, now, reset, gap);
    var k := SlotFor(s, p);
    if k < |s.slots| {
      var f := Before(s, k, p, now);
      PutMarked(n, s, k, f, Store(f, p), p.frame, reset, gap);
    }
  }

  lemma AcceptMarked(n: Numbering, s: Pipe, p: Packet, now: uint64, reset: bool, gap: bool)
    requires SlotsOk(s) && Decoded(p)
    ensures SlotsOk(Marked(s, reset, gap))
    ensures
      var changes := s.session != 0 && p.session != s.session;
      Accept(n, Marked(s, reset, gap), p, now) ==
        Marked(Accept(n, s, p, now), reset || changes, gap || changes || s.session == 0)
  {
    hide FrameOk, Place;
    EnterMarked(s, p.session, reset, gap);
    var changes := s.session != 0 && p.session != s.session;
    var t := Enter(s, p.session);
    if !(t.haveNext && Newer(n, t.next, p.frame)) {
      var u := if t.haveNext then t else t.(next := p.frame, nextWait := now, haveNext := true);
      PlaceMarked(n, u, p, now, reset || changes, gap || changes || s.session == 0);
    }
  }

  lemma {:induction false} ReadMarked(n: Numbering, s: Pipe, now: uint64, reset: bool, gap: bool)
    requires Valid(n, s)
    ensures
      var (t, d) := Read(n, s, now);
      Read(n, Marked(s, reset, gap), now) == (Marked(t, reset, gap || t.expired > s.expired), d)
    decreases Occupied(s.slots), if Newer(n, s.newest, s.next) then 1 else 0
  {
    hide Read, TurnOf, Deliver, Distinct, FrameOk, Newer, Plus, Skipped;
    var m := Marked(s, reset, gap);
    ReadUnfolds(n, s, now);
    ReadUnfolds(n, m, now);
    SameTurn(n, s, now, reset, gap);
    match TurnOf(n, s, now) {
      case Waits =>
      case Takes(_) =>
      case Discards(k) =>
        TakenValid(n, s, k, now);
        assert Discard(n, m, k, now) == Marked(Discard(n, s, k, now), reset, gap);
        ReadMarked(n, Discard(n, s, k, now), now, reset, gap);
      case Skips =>
        var u := Skip(n, s, now);
        SkipValid(n, s, now);
        assert Skipped(n, m) == Skipped(n, s) > 0 by { SkippedSome(n, s, m); }
        assert Skip(n, m, now) == Marked(u, reset, true);
        ReadMarked(n, u, now, reset, true);
        ReadConserves(n, u, now);
    }
  }

  lemma SameTurn(n: Numbering, s: Pipe, now: uint64, reset: bool, gap: bool)
    ensures TurnOf(n, Marked(s, reset, gap), now) == TurnOf(n, s, now)
  {}

  lemma SkippedSome(n: Numbering, s: Pipe, m: Pipe)
    requires m.next == s.next && m.newest == s.newest
    ensures Skipped(n, m) == Skipped(n, s) > 0
  {}

  lemma MarkedValid(n: Numbering, s: Pipe, reset: bool, gap: bool)
    requires Valid(n, s)
    ensures Valid(n, Marked(s, reset, gap))
  {
    hide FrameOk;
  }

  /** The marks change nothing else; an event raises the first at a change of session, the second there and at a gap. */
  lemma StepMarked(n: Numbering, s: Pipe, e: Event, reset: bool, gap: bool)
    requires Valid(n, s) && EventOk(n, e)
    ensures SlotsOk(Marked(s, reset, gap))
    ensures
      var (t, d) := Step(n, s, e);
      Step(n, Marked(s, reset, gap), e) ==
        (Marked(t, reset || Changes(s, e),
                gap || Changes(s, e) || Begins(s, e) || (e.Poll? && t.expired > s.expired)), d)
  {
    hide Accept, Read, FrameOk, SlotOk, Distinct;
    MarkedValid(n, s, reset, gap);
    match e {
      case Garbage =>
      case Arrive(p, now) => AcceptMarked(n, s, p, now, reset, gap);
      case Poll(now) => ReadMarked(n, s, now, reset, gap);
    }
  }

  // ---------- Over whole runs ----------

  /** The session in progress behind these events: that of the last datagram. */
  function InProgress(x: uint32, es: seq<Event>): uint32 {
    if es == [] then x
    else if es[|es| - 1].Arrive? then es[|es| - 1].packet.session
    else InProgress(x, es[..|es| - 1])
  }

  /** Event i is a datagram of another session than the one in progress; or the first of all. */
  predicate ChangesAt(x: uint32, es: seq<Event>, i: nat) {
    i < |es| && es[i].Arrive? && InProgress(x, es[..i]) != 0 && es[i].packet.session != InProgress(x, es[..i])
  }

  predicate BeginsAt(x: uint32, es: seq<Event>, i: nat) {
    i < |es| && es[i].Arrive? && InProgress(x, es[..i]) == 0
  }

  /** Event i is a poll that gives frames up. */
  ghost predicate SkipsAt(n: Numbering, s: Pipe, es: seq<Event>, i: nat)
    requires Valid(n, s) && EventsOk(n, es)
  {
    i < |es| && es[i].Poll? && Trail(n, s, es)[i + 1].expired > Trail(n, s, es)[i].expired
  }

  lemma {:induction false} SessionIs(n: Numbering, s: Pipe, es: seq<Event>, i: nat)
    requires Valid(n, s) && EventsOk(n, es) && i <= |es|
    ensures Trail(n, s, es)[i].session == InProgress(s.session, es[..i])
    decreases i
  {
    hide Accept, Read, FrameOk, SlotOk, Distinct;
    if i > 0 {
      var ts, e := Trail(n, s, es), es[i - 1];
      TrailSteps(n, s, es, i - 1);
      SessionIs(n, s, es, i - 1);
      assert es[..i][..i - 1] == es[..i - 1] && es[..i][i - 1] == e;
      match e {
        case Garbage =>
        case Arrive(p, now) => AcceptKeeps(n, ts[i - 1], p, now);
        case Poll(now) => ReadMoves(n, ts[i - 1], now);
      }
    }
  }

  /** The marks behind the first i events, one step after the other. */
  lemma {:induction false} MarksAt(n: Numbering, s: Pipe, es: seq<Event>, i: nat)
    requires Valid(n, s) && EventsOk(n, es) && i <= |es|
    ensures
      var t := Trail(n, s, es)[i];
      && (t.decoderReset <==> s.decoderReset || exists j | 0 <= j < i :: ChangesAt(s.session, es, j))
      && (t.discontinuity <==> s.discontinuity || exists j | 0 <= j < i :: RaisesAt(n, s, es, j))
    decreases i
  {
    hide Step, FrameOk, SlotOk, Distinct, ChangesAt, RaisesAt;
    if i > 0 {
      MarksAt(n, s, es, i - 1);
      StepRaises(n, s, es, i - 1);
    }
  }

  /** Event i is one after which the reader is to be told of a gap. */
  ghost predicate RaisesAt(n: Numbering, s: Pipe, es: seq<Event>, i: nat)
    requires Valid(n, s) && EventsOk(n, es)
  {
    ChangesAt(s.session, es, i) || BeginsAt(s.session, es, i) || SkipsAt(n, s, es, i)
  }

  lemma StepRaises(n: Numbering, s: Pipe, es: seq<Event>, i: nat)
    requires Valid(n, s) && EventsOk(n, es) && i < |es|
    ensures
      var t, u := Trail(n, s, es)[i], Trail(n, s, es)[i + 1];
      && (u.decoderReset <==> t.decoderReset || ChangesAt(s.session, es, i))
      && (u.discontinuity <==> t.discontinuity || RaisesAt(n, s, es, i))
  {
    hide Step, FrameOk, SlotOk, Distinct, InProgress;
    var t := Trail(n, s, es)[i];
    TrailSteps(n, s, es, i);
    SessionIs(n, s, es, i);
    StepMarked(n, t, es[i], t.decoderReset, t.discontinuity);
    assert Marked(t, t.decoderReset, t.discontinuity) == t;
  }

  /**
   * Over any run: the decoder is to be reset exactly if, since then, a datagram has come of another
   * session than the one in progress; and a gap is to be told exactly if that has happened, or the
   * first datagram of all has come, or a poll has given frames up. Nothing in between takes either back.
   */
  lemma MarksAre(n: Numbering, s: Pipe, es: seq<Event>)
    requires Valid(n, s) && EventsOk(n, es)
    ensures
      var t := Run(n, s, es).0;
      && (t.decoderReset <==> s.decoderReset || exists j | 0 <= j < |es| :: ChangesAt(s.session, es, j))
      && (t.discontinuity <==> s.discontinuity || exists j | 0 <= j < |es| :: RaisesAt(n, s, es, j))
  {
    hide RaisesAt, ChangesAt;
    MarksAt(n, s, es, |es|);
  }

  // ---------- What the reader makes of them ----------

  /** What svrt_run does before it decodes a frame it has read: nothing, a reset of the decoder, or a notice. */
  datatype Notice = Nothing | Flush | Restored

  function TakeMarks(s: Pipe): (Pipe, Notice) {
    if s.decoderReset then (s.(decoderReset := false), Flush)
    else if s.discontinuity then (s.(discontinuity := false), Restored)
    else (s, Nothing)
  }

  /** An event, and the reader's answer if a frame is delivered. */
  function Serve(n: Numbering, s: Pipe, e: Event): (Pipe, Option<Delivery>, Notice)
    requires Valid(n, s) && EventOk(n, e)
  {
    var (t, d) := Step(n, s, e);
    if d.None? then (t, d, Nothing) else (TakeMarks(t).0, d, TakeMarks(t).1)
  }

  lemma ServeValid(n: Numbering, s: Pipe, e: Event)
    requires Valid(n, s) && EventOk(n, e)
    ensures Valid(n, Serve(n, s, e).0)
  {
    hide Step, FrameOk, SlotOk, Distinct;
    StepValid(n, s, e);
    var t := Step(n, s, e).0;
    MarkedValid(n, t, false, t.discontinuity);
    MarkedValid(n, t, t.decoderReset, false);
  }

  /** A run with its reader: the receiver before each event and after the last, and what comes of each event. */
  ghost function Served(n: Numbering, s: Pipe, es: seq<Event>): (r: (seq<Pipe>, seq<(Option<Delivery>, Notice)>))
    requires Valid(n, s) && EventsOk(n, es)
    ensures |r.0| == |es| + 1 && |r.1| == |es| && r.0[0] == s && forall i | 0 <= i <= |es| :: Valid(n, r.0[i])
    decreases |es|
  {
    if es == [] then ([s], [])
    else
      assert EventOk(n, es[0]);
      ServeValid(n, s, es[0]);
      var (t, d, notice) := Serve(n, s, es[0]);
      var (ts, answers) := Served(n, t, es[1..]);
      ([s] + ts, [(d, notice)] + answers)
  }

  lemma {:induction false} ServedSteps(n: Numbering, s: Pipe, es: seq<Event>, i: nat)
    requires Valid(n, s) && EventsOk(n, es) && i < |es|
    ensures EventOk(n, es[i])
    ensures
      var (ts, answers) := Served(n, s, es);
      Serve(n, ts[i], es[i]) == (ts[i + 1], answers[i].0, answers[i].1)
    decreases i
  {
    hide Serve;
    assert EventOk(n, es[0]) && EventOk(n, es[i]);
    ServeValid(n, s, es[0]);
    if i > 0 { ServedSteps(n, Serve(n, s, es[0]).0, es[1..], i - 1); }
  }

  /** A change of session with no delivery since. */
  ghost predicate ResetDue(n: Numbering, s: Pipe, es: seq<Event>, i: nat)
    requires Valid(n, s) && EventsOk(n, es) && i <= |es|
  {
    exists m :: 0 <= m < i && ChangesAt(s.session, es, m) && NoDelivery(Run(n, s, es).1, m, i)
  }

  predicate NoDelivery(ds: seq<Option<Delivery>>, m: nat, i: nat)
    requires i <= |ds|
  {
    forall l | m <= l < i :: ds[l].None?
  }

  /** A gap of which no notice was given since. */
  ghost predicate GapDue(n: Numbering, s: Pipe, es: seq<Event>, i: nat)
    requires Valid(n, s) && EventsOk(n, es) && i <= |es|
  {
    exists m :: 0 <= m < i && RaisesAt(n, s, es, m) && NoNotice(Served(n, s, es).1, m, i)
  }

  ghost predicate NoNotice(answers: seq<(Option<Delivery>, Notice)>, m: nat, i: nat)
    requires i <= |answers|
  {
    forall l | m <= l < i :: !answers[l].1.Restored?
  }

  lemma ResetDueStep(n: Numbering, s: Pipe, es: seq<Event>, i: nat)
    requires Valid(n, s) && EventsOk(n, es) && i < |es|
    ensures ResetDue(n, s, es, i + 1) <==>
      (ResetDue(n, s, es, i) || ChangesAt(s.session, es, i)) && Run(n, s, es).1[i].None?
  {
    hide ChangesAt, Run;
    var ds := Run(n, s, es).1;
    forall m | 0 <= m <= i ensures NoDelivery(ds, m, i + 1) <==> NoDelivery(ds, m, i) && ds[i].None? {}
    assert NoDelivery(ds, i, i);
  }

  lemma GapDueStep(n: Numbering, s: Pipe, es: seq<Event>, i: nat)
    requires Valid(n, s) && EventsOk(n, es) && i < |es|
    ensures GapDue(n, s, es, i + 1) <==>
      (GapDue(n, s, es, i) || RaisesAt(n, s, es, i)) && !Served(n, s, es).1[i].1.Restored?
  {
    hide RaisesAt, Served;
    var answers := Served(n, s, es).1;
    forall m | 0 <= m <= i
      ensures NoNotice(answers, m, i + 1) <==> NoNotice(answers, m, i) && !answers[i].1.Restored?
    {}
    assert NoNotice(answers, i, i);
  }

  /** One event and its answer, with the marks as they are. */
  lemma ServeMarked(n: Numbering, s: Pipe, es: seq<Event>, i: nat, reset: bool, gap: bool)
    requires Valid(n, s) && EventsOk(n, es) && i < |es| && EventOk(n, es[i])
    ensures Valid(n, Marked(Trail(n, s, es)[i], reset, gap))
    ensures
      var (t, u, d) := (Trail(n, s, es)[i], Trail(n, s, es)[i + 1], Run(n, s, es).1[i]);
      var resets, gaps := reset || ChangesAt(s.session, es, i), gap || RaisesAt(n, s, es, i);
      Serve(n, Marked(t, reset, gap), es[i]) ==
        if d.None? then (Marked(u, resets, gaps), d, Nothing)
        else if resets then (Marked(u, false, gaps), d, Flush)
        else if gaps then (Marked(u, false, false), d, Restored)
        else (Marked(u, false, false), d, Nothing)
  {
    hide Step, FrameOk, SlotOk, Distinct, InProgress;
    var t := Trail(n, s, es)[i];
    TrailSteps(n, s, es, i);
    SessionIs(n, s, es, i);
    MarkedValid(n, t, reset, gap);
    StepMarked(n, t, es[i], reset, gap);
  }

  /** Before event i the receiver is the one without a reader, but for its marks. */
  lemma {:induction false} ServedIs(n: Numbering, s: Pipe, es: seq<Event>, i: nat)
    requires Valid(n, s) && EventsOk(n, es) && i <= |es| && !s.decoderReset && !s.discontinuity
    ensures Served(n, s, es).0[i] == Marked(Trail(n, s, es)[i], ResetDue(n, s, es, i), GapDue(n, s, es, i))
    decreases i
  {
    hide Serve, RaisesAt, ChangesAt, FrameOk, SlotOk, Distinct;
    if i > 0 {
      ServedIs(n, s, es, i - 1);
      ServedSteps(n, s, es, i - 1);
      ResetDueStep(n, s, es, i - 1);
      GapDueStep(n, s, es, i - 1);
      hide ResetDue, GapDue;
      ServeMarked(n, s, es, i - 1, ResetDue(n, s, es, i - 1), GapDue(n, s, es, i - 1));
    }
  }

  /** Only a poll delivers. */
  lemma DeliversAtPoll(n: Numbering, s: Pipe, es: seq<Event>, j: nat)
    requires Valid(n, s) && EventsOk(n, es) && j < |es| && Run(n, s, es).1[j].Some?
    ensures es[j].Poll?
  {
    hide Accept, Read, FrameOk, SlotOk, Distinct;
    TrailSteps(n, s, es, j);
  }

  /**
   * From power-on, or whenever no mark is set: the reader gets what the receiver delivers. It
   * resets the decoder in front of a frame exactly if the session has changed since the frame
   * before it, and tells that continuity is restored exactly if it does not, but there was a
   * first session, a change or a gap of which it has not told yet.
   */
  lemma ReaderIsTold(n: Numbering, s: Pipe, es: seq<Event>, j: nat)
    requires Valid(n, s) && EventsOk(n, es) && j < |es| && !s.decoderReset && !s.discontinuity
    ensures
      var (d, notice) := Served(n, s, es).1[j];
      && d == Run(n, s, es).1[j]
      && (notice.Flush? <==> d.Some? && ResetDue(n, s, es, j))
      && (notice.Restored? <==>
            d.Some? && !ResetDue(n, s, es, j) && (GapDue(n, s, es, j) || SkipsAt(n, s, es, j)))
  {
    hide Serve, Step, ResetDue, GapDue, SkipsAt, FrameOk, SlotOk, Distinct;
    ServedIs(n, s, es, j);
    ServedSteps(n, s, es, j);
    ServeMarked(n, s, es, j, ResetDue(n, s, es, j), GapDue(n, s, es, j));
    if Run(n, s, es).1[j].Some? { DeliversAtPoll(n, s, es, j); }
  }

  /** From power-on: there is nothing to tell before the first datagram. */
  lemma ReaderIsToldFromPowerOn(n: Numbering, es: seq<Event>, j: nat)
    requires EventsOk(n, es) && Valid(n, INITIAL) && j < |es|
    ensures
      var (d, notice) := Served(n, INITIAL, es).1[j];
      && (notice.Flush? <==> d.Some? && ResetDue(n, INITIAL, es, j))
      && (notice.Restored? <==>
            d.Some? && !ResetDue(n, INITIAL, es, j) && (GapDue(n, INITIAL, es, j) || SkipsAt(n, INITIAL, es, j)))
  {
    hide Served, ResetDue, GapDue, SkipsAt, Run;
    ReaderIsTold(n, INITIAL, es, j);
  }
}
