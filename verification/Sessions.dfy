/** Any number of sessions, one after another or mixed: what the 32-bit receiver delivers of each, and in what order. */
module Sessions {
  import opened Wrappers
  import opened Wire
  import opened FrameIds
  import opened Reassembly
  import opened ReassemblyInvariant
  import opened Integrity
  import opened DeliveryOrder
  import opened Wraparound
  import opened Starvation
  import opened FrameLife
  import opened Transport

  // ---------- Order, event by event ----------

  /** No new session begins behind event i up to event j. */
  ghost predicate NoRestart(os: seq<Outcome>, i: nat, j: nat)
    requires j < |os|
  {
    forall m | i < m <= j :: !os[m].Restart?
  }

  /** Nothing is delivered and no session begins between the events i and j. */
  ghost predicate Silent(os: seq<Outcome>, i: nat, j: nat)
    requires j < |os|
  {
    forall m | i < m < j :: os[m].Quiet?
  }

  lemma {:induction false} LaterIsGreater(last: Option<int>, os: seq<Outcome>, i: nat, j: nat)
    requires Ordered(Unbounded, last, os) && i < j < |os| && os[i].Out? && os[j].Out? && NoRestart(os, i, j)
    ensures os[i].frame.id < os[j].frame.id
    decreases i
  {
    var next := match os[0] case Restart => None case Quiet => last case Out(d) => Some(d.id);
    NoRestartFurther(os, i, j);
    if i == 0 {
      IncreasingIds(next, os[1..], j - 1);
    } else {
      LaterIsGreater(next, os[1..], i - 1, j - 1);
    }
  }

  /** A delivery that is no keyframe follows the one before it, which is none of these if nothing is returned. */
  lemma {:induction false} FollowsOne(last: Option<int>, os: seq<Outcome>, j: nat) returns (i: Option<nat>)
    requires Ordered(Unbounded, last, os) && j < |os| && os[j].Out? && !os[j].frame.keyframe
    ensures i.Some? ==>
      && i.value < j && os[i.value].Out? && Silent(os, i.value, j) && os[j].frame.id == os[i.value].frame.id + 1
    ensures i.None? ==> last.Some? && os[j].frame.id == last.value + 1 && forall m | 0 <= m < j :: os[m].Quiet?
    decreases j
  {
    if j == 0 { return None; }
    var next := match os[0] case Restart => None case Quiet => last case Out(d) => Some(d.id);
    i := FollowsOne(next, os[1..], j - 1);
    assert forall m | 1 <= m <= j :: os[m] == os[1..][m - 1];
    if i.Some? {
      i := Some(i.value + 1);
    } else if os[0].Out? {
      i := Some(0);
    }
  }

  /** Deliveries without a new session between them are of one session. */
  ghost predicate Grouped(x: Option<uint32>, os: seq<Outcome>)
    decreases |os|
  {
    os == [] ||
    match os[0]
    case Restart => Grouped(None, os[1..])
    case Quiet => Grouped(x, os[1..])
    case Out(d) => (x.Some? ==> d.session == x.value) && Grouped(Some(d.session), os[1..])
  }

  lemma {:induction false} GroupedLoosely(x: Option<uint32>, os: seq<Outcome>)
    requires Grouped(x, os)
    ensures Grouped(None, os)
    decreases |os|
  {
    if os != [] && os[0].Quiet? { GroupedLoosely(x, os[1..]); }
  }

  lemma {:induction false} RunIsGrouped(n: Numbering, s: Pipe, es: seq<Event>)
    requires Valid(n, s) && EventsOk(n, es)
    ensures Grouped(Some(s.session), Outcomes(n, s, es))
    decreases |es|
  {
    hide Accept, Read, FrameOk, SlotOk, Distinct;
    if es != [] {
      var e := es[0];
      assert EventOk(n, e);
      StepValid(n, s, e);
      match e {
        case Garbage =>
        case Arrive(p, now) => AcceptKeeps(n, s, p, now);
        case Poll(now) => ReadMoves(n, s, now);
      }
      var (t, d) := Step(n, s, e);
      RunIsGrouped(n, t, es[1..]);
      GroupedLoosely(Some(t.session), Outcomes(n, t, es[1..]));
      assert Outcomes(n, s, es)[1..] == Outcomes(n, t, es[1..]);
    }
  }

  lemma {:induction false} GroupHeld(x: uint32, os: seq<Outcome>, j: nat)
    requires Grouped(Some(x), os) && j < |os| && os[j].Out? && forall m | 0 <= m <= j :: !os[m].Restart?
    ensures os[j].frame.session == x
    decreases j
  {
    if j > 0 {
      assert forall m | 1 <= m <= j :: os[m] == os[1..][m - 1];
      GroupHeld(x, os[1..], j - 1);
    }
  }

  lemma {:induction false} SessionShared(x: Option<uint32>, os: seq<Outcome>, i: nat, j: nat)
    requires Grouped(x, os) && i < j < |os| && os[i].Out? && os[j].Out? && NoRestart(os, i, j)
    ensures os[i].frame.session == os[j].frame.session
    decreases i
  {
    NoRestartFurther(os, i, j);
    if i == 0 {
      GroupHeld(os[0].frame.session, os[1..], j - 1);
    } else {
      var next := match os[0] case Restart => None case Quiet => x case Out(d) => Some(d.session);
      SessionShared(next, os[1..], i - 1, j - 1);
    }
  }

  lemma NoRestartFurther(os: seq<Outcome>, i: nat, j: nat)
    requires i < j < |os| && NoRestart(os, i, j)
    ensures i > 0 ==> NoRestart(os[1..], i - 1, j - 1)
    ensures i == 0 ==> forall m | 0 <= m <= j - 1 :: !os[1..][m].Restart?
  {
    forall m | 0 <= m < |os| - 1 ensures os[1..][m] == os[m + 1] {}
  }

  // ---------- The same on 32 bits ----------

  function WrapOutcome(o: Outcome): Outcome {
    match o
    case Out(d) => Out(d.(id := Wrap(d.id)))
    case _ => o
  }

  lemma {:induction false} OutcomesWrap(s: Pipe, es: seq<Event>)
    requires Valid(Unbounded, s) && Tracked(s) && EventsOk(Unbounded, es) && RunInWindow(s, es)
    requires Valid(Wrapping, WrapPipe(s))
    ensures EventsOk(Wrapping, WrapEvents(es))
    ensures forall i | 0 <= i < |es| ::
      Outcomes(Wrapping, WrapPipe(s), WrapEvents(es))[i] == WrapOutcome(Outcomes(Unbounded, s, es)[i])
    decreases |es|
  {
    hide Step, WrapPipe, WrapEvent, WrapDelivery, FrameOk, SlotOk, Distinct, InWindow, Tracked, OutcomeOf,
         WrapOutcome;
    if es != [] {
      var e, rest := es[0], es[1..];
      assert EventOk(Unbounded, e);
      StepWraps(s, e);
      StepTracked(s, e);
      StepValid(Unbounded, s, e);
      assert EventsOk(Wrapping, WrapEvents(es)) by { WrappedOk(es); }
      assert EventOk(Wrapping, WrapEvents(es)[0]);
      StepValid(Wrapping, WrapPipe(s), WrapEvent(e));
      var (t, d) := Step(Unbounded, s, e);
      OutcomesWrap(t, rest);
      OutcomeWraps(s, e, d);
      assert WrapEvents(es)[1..] == WrapEvents(rest);
    }
  }

  lemma WrappedOk(es: seq<Event>)
    requires EventsOk(Unbounded, es)
    ensures EventsOk(Wrapping, WrapEvents(es))
  {
    forall i | 0 <= i < |es| ensures EventOk(Wrapping, WrapEvents(es)[i]) { assert EventOk(Unbounded, es[i]); }
  }

  lemma OutcomeWraps(s: Pipe, e: Event, d: Option<Delivery>)
    ensures OutcomeOf(WrapPipe(s), WrapEvent(e), WrapDelivery(d)) == WrapOutcome(OutcomeOf(s, e, d))
  {}

  // ---------- Any feed, from power-on ----------

  /** The outcomes are the deliveries of the run. */
  lemma {:induction false} OutcomesDeliver(n: Numbering, s: Pipe, es: seq<Event>)
    requires Valid(n, s) && EventsOk(n, es)
    ensures forall j | 0 <= j < |es| ::
      Run(n, s, es).1[j] == if Outcomes(n, s, es)[j].Out? then Some(Outcomes(n, s, es)[j].frame) else None
    decreases |es|
  {
    hide Accept, Read, FrameOk, SlotOk, Distinct;
    if es != [] {
      assert EventOk(n, es[0]);
      StepValid(n, s, es[0]);
      OutcomesDeliver(n, Step(n, s, es[0]).0, es[1..]);
    }
  }

  ghost predicate IsFrame(streams: Streams, d: Delivery, k: nat) {
    d.session in streams && k < |streams[d.session]| && d == Delivered(streams, d.session, k)
  }

  lemma IntactIsFrame(streams: Streams, d: Delivery)
    requires Intact(HistoryOf(streams), d)
    ensures d.id >= 1 && IsFrame(streams, d.(id := Wrap(d.id)), d.id - 1)
  {}

  /** What the unbounded receiver delivers is intact, and the 32-bit receiver does the same. */
  lemma TrueOutcomes(streams: Streams, feeds: seq<Feed>) returns (us: seq<Outcome>)
    requires WellSent(streams) && AllPossible(streams, feeds) && Timely(streams, feeds)
    ensures EventsOk(Wrapping, AllSeen(streams, feeds)) && Valid(Wrapping, INITIAL)
    ensures
      var os := Outcomes(Wrapping, INITIAL, AllSeen(streams, feeds));
      && |us| == |os| == |feeds|
      && (forall j | 0 <= j < |us| :: os[j] == WrapOutcome(us[j]))
      && (forall j | 0 <= j < |us| && us[j].Out? :: Intact(HistoryOf(streams), us[j].frame))
      && Ordered(Unbounded, None, us) && Grouped(Some(INITIAL.session), us)
  {
    hide True, Seen, RunInWindow, WellSent, Possible, Tracked, FrameOk, SlotOk, Distinct, Intact, WrapOutcome,
         HistoryOf;
    AllSeenIsWrapped(streams, feeds);
    var h, es := HistoryOf(streams), AllTrue(streams, feeds);
    InitialValid(Wrapping);
    InitialValid(Unbounded);
    StartsEmpty(h);
    us := Outcomes(Unbounded, INITIAL, es);
    OutcomesWrap(INITIAL, es);
    RunIsIntact(Unbounded, h, INITIAL, es);
    OutcomesDeliver(Unbounded, INITIAL, es);
    FromInitial(Unbounded, es);
    RunIsGrouped(Unbounded, INITIAL, es);
  }

  /**
   * Whatever sessions follow one another or mix: of each session in progress the receiver delivers
   * frames that were sent, in the order of sending and none twice; each delivery but a keyframe is
   * the successor of the one before it, with no new session between them.
   */
  lemma AnySessionsShown(streams: Streams, feeds: seq<Feed>) returns (which: seq<nat>)
    requires WellSent(streams) && AllPossible(streams, feeds) && Timely(streams, feeds)
    ensures EventsOk(Wrapping, AllSeen(streams, feeds)) && Valid(Wrapping, INITIAL)
    ensures
      var os := Outcomes(Wrapping, INITIAL, AllSeen(streams, feeds));
      && |which| == |os| == |feeds|
      && (forall j | 0 <= j < |os| && os[j].Out? :: IsFrame(streams, os[j].frame, which[j]))
      && (forall i, j | 0 <= i < j < |os| && os[i].Out? && os[j].Out? && NoRestart(os, i, j) ::
           os[i].frame.session == os[j].frame.session && which[i] < which[j])
      && (forall j | 0 <= j < |os| && os[j].Out? && !os[j].frame.keyframe ::
           exists i | 0 <= i < j :: os[i].Out? && Silent(os, i, j) && which[j] == which[i] + 1)
  {
    hide Outcomes, Intact, IsFrame, HistoryOf, Timely, Ordered, Grouped, Possible, Valid;
    var us := TrueOutcomes(streams, feeds);
    forall j | 0 <= j < |us| && us[j].Out?
      ensures us[j].frame.id >= 1 && IsFrame(streams, us[j].frame.(id := Wrap(us[j].frame.id)), us[j].frame.id - 1)
    {
      IntactIsFrame(streams, us[j].frame);
    }
    which := seq(|us|, j requires 0 <= j < |us| => if us[j].Out? then us[j].frame.id - 1 else 0);
    var os := Outcomes(Wrapping, INITIAL, AllSeen(streams, feeds));
    forall i, j | 0 <= i < j < |os| && os[i].Out? && os[j].Out? && NoRestart(os, i, j)
      ensures os[i].frame.session == os[j].frame.session && which[i] < which[j]
    {
      SameKind(os, us, i, j);
      LaterIsGreater(None, us, i, j);
      SessionShared(Some(INITIAL.session), us, i, j);
    }
    forall j | 0 <= j < |os| && os[j].Out? && !os[j].frame.keyframe
      ensures exists i | 0 <= i < j :: os[i].Out? && Silent(os, i, j) && which[j] == which[i] + 1
    {
      var i := FollowsOne(None, us, j);
      SameKind(os, us, i.value, j);
    }
  }

  lemma SameKind(os: seq<Outcome>, us: seq<Outcome>, i: nat, j: nat)
    requires |us| == |os| && i < j < |os| && forall m | 0 <= m < |us| :: os[m] == WrapOutcome(us[m])
    ensures NoRestart(os, i, j) == NoRestart(us, i, j) && Silent(os, i, j) == Silent(us, i, j)
  {}

  // ---------- Starvation on any feed ----------

  lemma {:induction false} LastInWindow(s: Pipe, es: seq<Event>, e: Event)
    requires Valid(Unbounded, s) && EventsOk(Unbounded, es) && EventsOk(Unbounded, es + [e])
    requires RunInWindow(s, es + [e])
    ensures RunInWindow(s, es) && InWindow(Run(Unbounded, s, es).0, e)
    decreases |es|
  {
    hide Step, FrameOk, SlotOk, Distinct, InWindow;
    if es == [] {
      assert (es + [e])[0] == e;
    } else {
      var all := es + [e];
      assert all[0] == es[0] && all[1..] == es[1..] + [e];
      assert EventOk(Unbounded, es[0]);
      StepValid(Unbounded, s, es[0]);
      LastInWindow(Step(Unbounded, s, es[0]).0, es[1..], e);
    }
  }

  /**
   * Whatever has arrived since power-on: a poll that skips leaves the 32-bit receiver with at most
   * one slot occupied and with delivery at the newest frame, or just behind it if that was complete.
   */
  lemma SkipCuresAnyFeed(streams: Streams, feeds: seq<Feed>, now: uint64)
    requires WellSent(streams) && AllPossible(streams, feeds) && AllPossible(streams, feeds + [Tick(now)])
    requires Timely(streams, feeds + [Tick(now)])
    ensures EventsOk(Wrapping, AllSeen(streams, feeds)) && Valid(Wrapping, INITIAL)
    ensures
      var s := Run(Wrapping, INITIAL, AllSeen(streams, feeds)).0;
      var t := Read(Wrapping, s, now).0;
      t.expired > s.expired ==>
        && Occupied(t.slots) <= 1
        && (t.next == t.newest || (t.next == Plus(Wrapping, t.newest, 1) && Occupied(t.slots) == 0))
  {
    hide True, Seen, RunInWindow, WellSent, Possible, Tracked, FrameOk, SlotOk, Distinct, Led, Read, PollInWindow,
         Honest;
    AllSeenIsWrapped(streams, feeds);
    AllSeenIsWrapped(streams, feeds + [Tick(now)]);
    var h, es := HistoryOf(streams), AllTrue(streams, feeds);
    TickIsPoll(streams, now);
    LastIsTrue(streams, feeds, Tick(now));
    InitialValid(Wrapping);
    InitialValid(Unbounded);
    StartsEmpty(h);
    StartLed();
    LastInWindow(INITIAL, es, Poll(now));
    RunWraps(INITIAL, es);
    RunIsLed(h, INITIAL, es);
    var u := Run(Unbounded, INITIAL, es).0;
    if Read(Wrapping, WrapPipe(u), now).0.expired > u.expired { SkipCuresWrapped(u, now); }
  }

  lemma TickIsPoll(streams: Streams, now: uint64)
    requires WellSent(streams)
    ensures Possible(streams, Tick(now)) && True(streams, Tick(now)) == Poll(now)
  {}

  lemma StartLed()
    ensures Led(INITIAL)
  {}

  // ---------- Where a frame goes, on any feed ----------

  /** A poll does not move delivery further than behind the newest frame. */
  lemma {:induction false} ReadBounded(s: Pipe, now: uint64)
    requires Valid(Unbounded, s) && Tracked(s) && s.haveNewest
    ensures Read(Unbounded, s, now).0.next <= (if s.next <= s.newest then s.newest + 1 else s.next)
    decreases Occupied(s.slots), if Newer(Unbounded, s.newest, s.next) then 1 else 0
  {
    hide Read, TurnOf, FrameOk, Distinct, Deliver, Tracked;
    ReadUnfolds(Unbounded, s, now);
    match TurnOf(Unbounded, s, now) {
      case Waits =>
      case Takes(k) => CompleteIsTracked(s, k);
      case Discards(k) =>
        CompleteIsTracked(s, k);
        TakenValid(Unbounded, s, k, now);
        StillTracked(s, k, now);
        ReadBounded(Discard(Unbounded, s, k, now), now);
      case Skips =>
        SkipValid(Unbounded, s, now);
        SkipTracked(s, now);
        ReadBounded(Skip(Unbounded, s, now), now);
    }
  }

  lemma StillTracked(s: Pipe, k: nat, now: uint64)
    requires Tracked(s) && k < |s.slots|
    ensures Tracked(Discard(Unbounded, s, k, now))
  {}

  /** A number delivery has passed, on 32 bits: it lies behind, by no more than half the range. */
  predicate PassedBy(next: int, id: int) { 0 < Ahead(Wrapping, id, next) <= HALF }

  lemma PassedWraps(next: int, id: int)
    requires 0 < next - id <= HALF
    ensures PassedBy(Wrap(next), Wrap(id))
  {
    DifferenceWraps(next, id);
    SmallRemainder(next - id);
  }

  lemma DifferenceWraps(a: int, b: int)
    ensures Ahead(Wrapping, Wrap(b), Wrap(a)) == (a - b) % MODULUS
  {
    var p, q := a / MODULUS, b / MODULUS;
    assert a - b == (Wrap(a) - Wrap(b)) + (p - q) * MODULUS;
  }

  lemma SmallRemainder(d: int)
    requires 0 <= d < MODULUS
    ensures d % MODULUS == d
  {}

  /** What a poll frees it has passed, and not by more than half the range of the numbers. */
  lemma PassedIsNear(s: Pipe, now: uint64, k: nat)
    requires Valid(Unbounded, s) && Tracked(s) && PollInWindow(s) && k < |s.slots| && s.slots[k].Some?
    requires k < |Read(Unbounded, s, now).0.slots|
    requires Read(Unbounded, s, now).0.slots[k].None?
    ensures 0 < Read(Unbounded, s, now).0.next - s.slots[k].value.id <= HALF
  {
    hide FrameOk, Distinct, Read, Tracked;
    FreedIsPassed(s, now, k);
    assert SlotOk(Unbounded, s, s.slots[k].value);
    if s.haveNewest {
      ReadBounded(s, now);
    } else {
      NothingPassed(s, now);
    }
  }

  /** As long as nothing was stored, a poll does nothing. */
  lemma NothingPassed(s: Pipe, now: uint64)
    requires Valid(Unbounded, s) && Tracked(s) && !s.haveNewest
    ensures Read(Unbounded, s, now) == (s, None)
  {
    hide Read, FrameOk, Distinct, Deliver, Tracked;
    ReadUnfolds(Unbounded, s, now);
    var turn := TurnOf(Unbounded, s, now);
    if turn.Takes? || turn.Discards? { CompleteIsTracked(s, turn.slot); }
  }

  lemma HoldsWrapped(s: Pipe, k: nat, x: uint32, id: int)
    ensures Holds(s, k, x, id) ==> Holds(WrapPipe(s), k, x, Wrap(id))
    ensures Holds(WrapPipe(s), k, x, id) ==>
      && k < |s.slots| && s.slots[k].Some?
      && Holds(s, k, x, s.slots[k].value.id) && Wrap(s.slots[k].value.id) == id
  {}

  /** One step on 32 bits: a frame leaves its slot only when delivery passes it or another session begins. */
  lemma LeavesWrapped(s: Pipe, e: Event, k: nat, x: uint32, id: int)
    requires Valid(Unbounded, s) && Tracked(s) && EventOk(Unbounded, e) && InWindow(s, e)
    requires SlotsOk(WrapPipe(s)) && EventOk(Wrapping, WrapEvent(e))
    requires Holds(WrapPipe(s), k, x, id) && !Holds(Step(Wrapping, WrapPipe(s), WrapEvent(e)).0, k, x, id)
    ensures
      || (e.Arrive? && e.packet.session != x)
      || (e.Poll? && PassedBy(Step(Wrapping, WrapPipe(s), WrapEvent(e)).0.next, id))
  {
    hide FrameOk, Accept, Read, Distinct, SlotOk, Tracked, PollInWindow, ArrivalInWindow, PassedBy;
    StepWraps(s, e);
    HoldsWrapped(s, k, x, id);
    var mine := s.slots[k].value.id;
    var t := Step(Unbounded, s, e).0;
    HoldsWrapped(t, k, x, mine);
    LeavesWhenPassed(s, e, k, x, mine);
    if e.Poll? {
      ReadFrees(Unbounded, s, e.at);
      PassedIsNear(s, e.at, k);
      PassedWraps(t.next, mine);
    }
  }

  /**
   * Whatever has arrived since power-on: a frame leaves its slot in the 32-bit receiver only when
   * delivery passes its number or a datagram of another session arrives.
   */
  lemma LeavesOnAnyFeed(streams: Streams, feeds: seq<Feed>, f: Feed, k: nat, x: uint32, id: int)
    requires WellSent(streams) && AllPossible(streams, feeds) && AllPossible(streams, feeds + [f])
    requires Timely(streams, feeds + [f])
    ensures EventsOk(Wrapping, AllSeen(streams, feeds)) && Valid(Wrapping, INITIAL)
    ensures Possible(streams, f) && EventOk(Wrapping, Seen(streams, f))
    ensures
      var s := Run(Wrapping, INITIAL, AllSeen(streams, feeds)).0;
      var t := Step(Wrapping, s, Seen(streams, f)).0;
      Holds(s, k, x, id) && !Holds(t, k, x, id) ==>
        (f.Datagram? && f.session != x) || (f.Tick? && PassedBy(t.next, id))
  {
    hide True, RunInWindow, WellSent, Possible, Tracked, FrameOk, SlotOk, Distinct, Step, InWindow, Honest, Holds,
         PassedBy, EventOf, WrapEvent;
    AllSeenIsWrapped(streams, feeds);
    AllSeenIsWrapped(streams, feeds + [f]);
    var h, es := HistoryOf(streams), AllTrue(streams, feeds);
    LastIsTrue(streams, feeds, f);
    SeenIsWrapped(streams, f);
    InitialValid(Wrapping);
    InitialValid(Unbounded);
    StartsEmpty(h);
    LastInWindow(INITIAL, es, True(streams, f));
    RunWraps(INITIAL, es);
    RunTracked(INITIAL, es);
    var u := Run(Unbounded, INITIAL, es).0;
    TrueKind(streams, f);
    if Holds(WrapPipe(u), k, x, id) && !Holds(Step(Wrapping, WrapPipe(u), Seen(streams, f)).0, k, x, id) {
      LeavesWrapped(u, True(streams, f), k, x, id);
    }
  }

  lemma LastIsTrue(streams: Streams, feeds: seq<Feed>, f: Feed)
    requires WellSent(streams) && AllPossible(streams, feeds) && AllPossible(streams, feeds + [f])
    ensures Possible(streams, f) && AllTrue(streams, feeds + [f]) == AllTrue(streams, feeds) + [True(streams, f)]
  {
    hide WellSent, Possible, True;
    assert (feeds + [f])[|feeds|] == f;
  }

  lemma TrueKind(streams: Streams, f: Feed)
    requires WellSent(streams) && Possible(streams, f)
    ensures True(streams, f).Arrive? <==> f.Datagram?
    ensures f.Datagram? ==> True(streams, f).packet.session == f.session
    ensures True(streams, f).Poll? <==> f.Tick?
  {
    hide PayloadOf;
  }

  lemma {:induction false} RunTracked(s: Pipe, es: seq<Event>)
    requires Valid(Unbounded, s) && Tracked(s) && EventsOk(Unbounded, es)
    ensures Tracked(Run(Unbounded, s, es).0)
    decreases |es|
  {
    hide Step, FrameOk, SlotOk, Distinct, Tracked;
    if es != [] {
      assert EventOk(Unbounded, es[0]);
      StepValid(Unbounded, s, es[0]);
      StepTracked(s, es[0]);
      RunTracked(Step(Unbounded, s, es[0]).0, es[1..]);
    }
  }
}
