/** Delivery order, keyframe restarts, and where every frame number goes. */
module DeliveryOrder {
  import opened Wrappers
  import opened Wire
  import opened FrameIds
  import opened Reassembly
  import opened ReassemblyInvariant

  // ---------- One poll ----------

  /** How a poll moves the delivery point. */
  ghost predicate Moves(n: Numbering, s: Pipe, t: Pipe, d: Option<Delivery>) {
    && t.session == s.session && t.haveNext == s.haveNext && t.haveNewest == s.haveNewest && t.newest == s.newest
    && match d
       case Some(f) =>
         && f.session == s.session && t.next == Plus(n, f.id, 1) && !t.needKeyframe
         && (s.needKeyframe || f.id != s.next ==> f.keyframe)
         && (n == Unbounded ==> s.next <= f.id)
       case None =>
         && (s.needKeyframe ==> t.needKeyframe)
         && (t.next != s.next ==> t.needKeyframe)
         && (n == Unbounded ==> s.next <= t.next)
  }

  lemma {:induction false} ReadMoves(n: Numbering, s: Pipe, now: uint64)
    requires Valid(n, s)
    ensures Moves(n, s, Read(n, s, now).0, Read(n, s, now).1)
    decreases Occupied(s.slots), if Newer(n, s.newest, s.next) then 1 else 0
  {
    hide Read, FrameOk, Contents;
    ReadUnfolds(n, s, now);
    match TurnOf(n, s, now) {
      case Waits =>
      case Takes(k) => assert SlotOk(n, s, s.slots[k].value);
      case Discards(k) =>
        TakenValid(n, s, k, now);
        ReadMoves(n, Discard(n, s, k, now), now);
      case Skips =>
        SkipValid(n, s, now);
        ReadMoves(n, Skip(n, s, now), now);
    }
  }

  /** The number of complete frames a poll discards because the decoder waits for a keyframe. */
  ghost function Discarded(n: Numbering, s: Pipe, now: uint64): nat
    decreases Occupied(s.slots), if Newer(n, s.newest, s.next) then 1 else 0
  {
    ReadUnfolds(n, s, now);
    match TurnOf(n, s, now)
    case Discards(k) => 1 + Discarded(n, Discard(n, s, k, now), now)
    case Skips => Discarded(n, Skip(n, s, now), now)
    case _ => 0
  }

  function One(d: Option<Delivery>): nat { if d.Some? then 1 else 0 }

  /** Every number the delivery point passes was delivered, discarded or expired. */
  lemma {:induction false} ReadConserves(n: Numbering, s: Pipe, now: uint64)
    requires Valid(n, s)
    ensures
      var (t, d) := Read(n, s, now);
      && s.expired <= t.expired
      && t.next == Plus(n, s.next, One(d) + Discarded(n, s, now) + (t.expired - s.expired))
    decreases Occupied(s.slots), if Newer(n, s.newest, s.next) then 1 else 0
  {
    hide Read, FrameOk, Deliver, Plus, Distinct, SlotOk, Skipped;
    ReadUnfolds(n, s, now);
    match TurnOf(n, s, now) {
      case Waits => PlusPlus(n, s.next, 0, 0);
      case Takes(k) =>
      case Discards(k) =>
        var u := Discard(n, s, k, now);
        TakenValid(n, s, k, now);
        ReadConserves(n, u, now);
        var (t, d) := Read(n, u, now);
        PlusPlus(n, s.next, 1, One(d) + Discarded(n, u, now) + (t.expired - u.expired));
      case Skips =>
        var u := Skip(n, s, now);
        SkipValid(n, s, now);
        ReadConserves(n, u, now);
        var (t, d) := Read(n, u, now);
        SkippedIsDistance(n, s);
        PlusPlus(n, s.next, Skipped(n, s), One(d) + Discarded(n, u, now) + (t.expired - u.expired));
    }
  }

  lemma SkippedIsDistance(n: Numbering, s: Pipe)
    requires IsId(n, s.next) && IsId(n, s.newest) && Newer(n, s.newest, s.next)
    ensures s.newest == Plus(n, s.next, Skipped(n, s))
  {}

  lemma PlusPlus(n: Numbering, a: int, j: int, k: int)
    ensures Plus(n, Plus(n, a, j), k) == Plus(n, a, j + k)
    ensures IsId(n, a) ==> Plus(n, a, 0) == a
  {}

  // ---------- Whole runs ----------

  /** What an event means for the delivery order: a new session starts over. */
  datatype Outcome = Restart | Quiet | Out(frame: Delivery)

  function OutcomeOf(s: Pipe, e: Event, d: Option<Delivery>): Outcome {
    if e.Arrive? && e.packet.session != s.session then Restart
    else if d.Some? then Out(d.value)
    else Quiet
  }

  ghost function Outcomes(n: Numbering, s: Pipe, es: seq<Event>): (os: seq<Outcome>)
    requires Valid(n, s) && EventsOk(n, es)
    ensures |os| == |es|
    decreases |es|
  {
    if es == [] then []
    else
      assert EventOk(n, es[0]);
      StepValid(n, s, es[0]);
      var (t, d) := Step(n, s, es[0]);
      [OutcomeOf(s, es[0], d)] + Outcomes(n, t, es[1..])
  }

  /**
   * The first delivery of a session is a keyframe, and each further one is the successor of the
   * one before it or a keyframe; unbounded numbers increase, so none is delivered twice.
   */
  ghost predicate Ordered(n: Numbering, last: Option<int>, os: seq<Outcome>)
    decreases |os|
  {
    os == [] ||
    match os[0]
    case Restart => Ordered(n, None, os[1..])
    case Quiet => Ordered(n, last, os[1..])
    case Out(d) =>
      && (last.None? ==> d.keyframe)
      && (last.Some? ==> d.id == Plus(n, last.value, 1) || d.keyframe)
      && (last.Some? && n == Unbounded ==> last.value < d.id)
      && Ordered(n, Some(d.id), os[1..])
  }

  /** What the receiver remembers of the last delivery of its session. */
  ghost predicate Remembers(n: Numbering, s: Pipe, last: Option<int>) {
    match last
    case None => s.session != 0 ==> s.haveNext && s.needKeyframe
    case Some(id) =>
      && s.haveNext
      && (s.needKeyframe || s.next == Plus(n, id, 1))
      && (n == Unbounded ==> id < s.next)
  }

  /** A datagram never moves the delivery point of its own session. */
  lemma AcceptKeeps(n: Numbering, s: Pipe, p: Packet, now: uint64)
    requires Valid(n, s) && Decoded(p)
    ensures
      var t := Accept(n, s, p, now);
      && t.session == p.session && t.haveNext
      && (p.session != s.session ==> t.needKeyframe)
      && (p.session == s.session ==> t.needKeyframe == s.needKeyframe && t.expired == s.expired)
      && (p.session == s.session && s.haveNext ==> t.next == s.next)
  {
    hide FrameOk, Place, Distinct, SlotOk;
    var t := Enter(s, p.session);
    if !(t.haveNext && Newer(n, t.next, p.frame)) {
      PlaceKeeps(n, if t.haveNext then t else t.(next := p.frame, nextWait := now, haveNext := true), p, now);
    }
  }

  lemma PlaceKeeps(n: Numbering, s: Pipe, p: Packet, now: uint64)
    requires SlotsOk(s) && Decoded(p)
    ensures
      var t := Place(n, s, p, now);
      && t.session == s.session && t.haveNext == s.haveNext && t.next == s.next
      && t.needKeyframe == s.needKeyframe && t.expired == s.expired
  {
    hide FrameOk, Store, Before, SlotFor, After;
    if SlotFor(s, p) < |s.slots| {
      hide Place;
      PlaceShape(n, s, p, now);
    }
  }

  lemma StepRemembers(n: Numbering, s: Pipe, e: Event, last: Option<int>)
    requires Valid(n, s) && EventOk(n, e) && Remembers(n, s, last)
    ensures
      var (t, d) := Step(n, s, e);
      var o := OutcomeOf(s, e, d);
      && Remembers(n, t, match o case Restart => None case Quiet => last case Out(f) => Some(f.id))
      && (o.Out? && last.None? ==> o.frame.keyframe)
      && (o.Out? && last.Some? ==> o.frame.id == Plus(n, last.value, 1) || o.frame.keyframe)
      && (o.Out? && last.Some? && n == Unbounded ==> last.value < o.frame.id)
  {
    hide Accept, Read, FrameOk;
    match e {
      case Garbage =>
      case Arrive(p, now) => AcceptKeeps(n, s, p, now);
      case Poll(now) =>
        ReadMoves(n, s, now);
        ReadNeedsNext(n, s, now);
    }
  }

  lemma ReadNeedsNext(n: Numbering, s: Pipe, now: uint64)
    ensures Read(n, s, now).1.Some? ==> s.haveNext
  {}

  lemma {:induction false} RunIsOrdered(n: Numbering, s: Pipe, es: seq<Event>, last: Option<int>)
    requires Valid(n, s) && EventsOk(n, es) && Remembers(n, s, last)
    ensures Ordered(n, last, Outcomes(n, s, es))
    decreases |es|
  {
    hide Step, Remembers, FrameOk, SlotOk, Distinct;
    if es != [] {
      assert EventOk(n, es[0]);
      StepRemembers(n, s, es[0], last);
      StepValid(n, s, es[0]);
      var (t, d) := Step(n, s, es[0]);
      var o := OutcomeOf(s, es[0], d);
      RunIsOrdered(n, t, es[1..], match o case Restart => None case Quiet => last case Out(f) => Some(f.id));
      assert Outcomes(n, s, es)[1..] == Outcomes(n, t, es[1..]);
    }
  }

  /** From power-on the receiver remembers nothing. */
  lemma FromInitial(n: Numbering, es: seq<Event>)
    requires EventsOk(n, es)
    ensures Valid(n, INITIAL) && Ordered(n, None, Outcomes(n, INITIAL, es))
  {
    InitialValid(n);
    RunIsOrdered(n, INITIAL, es, None);
  }

  /** In a session, deliveries i < j have increasing numbers. */
  lemma {:induction false} IncreasingIds(last: Option<int>, os: seq<Outcome>, j: nat)
    requires Ordered(Unbounded, last, os) && j < |os| && os[j].Out?
    requires forall i | 0 <= i <= j :: !os[i].Restart?
    ensures last.Some? ==> last.value < os[j].frame.id
    ensures forall i | 0 <= i < j && os[i].Out? :: os[i].frame.id < os[j].frame.id
    decreases j
  {
    if j != 0 {
      var next := if os[0].Out? then Some(os[0].frame.id) else last;
      IncreasingIds(next, os[1..], j - 1);
      assert forall i | 1 <= i < j :: os[i] == os[1..][i - 1];
    }
  }

  // ---------- Conservation over a session ----------

  ghost function DeliveredIn(n: Numbering, s: Pipe, es: seq<Event>): nat
    requires Valid(n, s) && EventsOk(n, es)
    decreases |es|
  {
    if es == [] then 0
    else
      assert EventOk(n, es[0]);
      StepValid(n, s, es[0]);
      One(Step(n, s, es[0]).1) + DeliveredIn(n, Step(n, s, es[0]).0, es[1..])
  }

  ghost function DiscardedIn(n: Numbering, s: Pipe, es: seq<Event>): nat
    requires Valid(n, s) && EventsOk(n, es)
    decreases |es|
  {
    if es == [] then 0
    else
      assert EventOk(n, es[0]);
      StepValid(n, s, es[0]);
      DiscardedAt(n, s, es[0]) + DiscardedIn(n, Step(n, s, es[0]).0, es[1..])
  }

  ghost function DiscardedAt(n: Numbering, s: Pipe, e: Event): nat { if e.Poll? then Discarded(n, s, e.at) else 0 }

  /** One event moves the delivery point by what it delivers, discards and lets expire. */
  lemma StepConserves(n: Numbering, s: Pipe, e: Event)
    requires Valid(n, s) && EventOk(n, e) && s.haveNext && (e.Arrive? ==> e.packet.session == s.session)
    ensures
      var (t, d) := Step(n, s, e);
      && t.session == s.session && t.haveNext && s.expired <= t.expired
      && t.next == Plus(n, s.next, One(d) + DiscardedAt(n, s, e) + (t.expired - s.expired))
  {
    hide FrameOk, SlotOk, Distinct, Accept, Read, Discarded, Plus;
    PlusPlus(n, s.next, 0, 0);
    match e {
      case Garbage =>
      case Arrive(p, now) => AcceptKeeps(n, s, p, now);
      case Poll(now) =>
        ReadMoves(n, s, now);
        ReadConserves(n, s, now);
    }
  }

  /**
   * Within a session, the total advance of the delivery point is the frames delivered, plus the
   * complete frames discarded, plus the growth of the expired counter.
   */
  lemma {:induction false} SessionConserves(n: Numbering, s: Pipe, es: seq<Event>)
    requires Valid(n, s) && EventsOk(n, es) && s.haveNext
    requires forall i | 0 <= i < |es| && es[i].Arrive? :: es[i].packet.session == s.session
    ensures
      var t := Run(n, s, es).0;
      && s.expired <= t.expired
      && t.next == Plus(n, s.next, DeliveredIn(n, s, es) + DiscardedIn(n, s, es) + (t.expired - s.expired))
    decreases |es|
  {
    hide FrameOk, SlotOk, Distinct, Step, Discarded, Plus;
    if es == [] {
      PlusPlus(n, s.next, 0, 0);
    } else {
      assert EventOk(n, es[0]);
      StepValid(n, s, es[0]);
      StepConserves(n, s, es[0]);
      var (t, d) := Step(n, s, es[0]);
      SessionConserves(n, t, es[1..]);
      var u := Run(n, t, es[1..]).0;
      PlusPlus(n, s.next, One(d) + DiscardedAt(n, s, es[0]) + (t.expired - s.expired),
               DeliveredIn(n, t, es[1..]) + DiscardedIn(n, t, es[1..]) + (u.expired - t.expired));
    }
  }
}
