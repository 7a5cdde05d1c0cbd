/** From when a deadline counts for a frame of which nothing has arrived. */
module Deadlines {
  import opened Wrappers
  import opened Wire
  import opened FrameIds
  import opened Reassembly
  import opened ReassemblyInvariant
  import opened DeliveryOrder
  import opened FrameLife

  // ---------- How far one poll goes ----------

  lemma {:induction false} OccupiedMost(slots: seq<Option<Frame>>)
    ensures Occupied(slots) <= |slots|
  {
    if slots != [] { OccupiedMost(slots[..|slots| - 1]); }
  }

  /** Delivery is at the newest number, or ahead of it by no more than slots were freed. */
  predicate AtEdge(n: Numbering, s: Pipe) {
    Ahead(n, s.newest, s.next) >= 0 && (n == Wrapping ==> Ahead(n, s.newest, s.next) + Occupied(s.slots) <= FRAME_SLOTS)
  }

  lemma EdgeIsNewest(n: Numbering, s: Pipe)
    requires AtEdge(n, s)
    ensures !Newer(n, s.newest, s.next)
  {
    if n == Wrapping { BothWays(s.newest, s.next); }
  }

  lemma BothWays(a: int, b: int)
    ensures (a - b) % MODULUS == 0 || (a - b) % MODULUS + (b - a) % MODULUS == MODULUS
  {}

  lemma EdgeFurther(n: Numbering, s: Pipe, k: nat, now: uint64)
    requires AtEdge(n, s) && k < |s.slots| && s.slots[k].Some?
    ensures AtEdge(n, Discard(n, s, k, now))
  {
    OccupiedFreed(s.slots, k);
    if n == Wrapping { OneAhead(s.newest, s.next); }
  }

  lemma OneAhead(a: int, b: int)
    requires (b - a) % MODULUS < FRAME_SLOTS
    ensures ((b + 1) % MODULUS - a) % MODULUS == (b - a) % MODULUS + 1
  {
    assert ((b + 1) % MODULUS - a) % MODULUS == (b + 1 - a) % MODULUS;
  }

  /** At the edge a poll moves delivery by no more than the slots it frees. */
  lemma {:induction false} EdgeMoves(n: Numbering, s: Pipe, now: uint64) returns (m: nat)
    requires Valid(n, s) && AtEdge(n, s)
    ensures Read(n, s, now).0.next == Plus(n, s.next, m) && m <= Occupied(s.slots)
    ensures Read(n, s, now).0.nextWait == now || Read(n, s, now) == (s, None)
    decreases Occupied(s.slots)
  {
    hide Read, TurnOf, Deliver, Distinct, FrameOk, AtEdge, Plus, Newer;
    ReadUnfolds(n, s, now);
    PlusPlus(n, s.next, 0, 0);
    EdgeIsNewest(n, s);
    m := 0;
    match TurnOf(n, s, now) {
      case Waits =>
      case Skips =>
      case Takes(k) =>
        OccupiedFreed(s.slots, k);
        m := 1;
      case Discards(k) =>
        TakenValid(n, s, k, now);
        EdgeFurther(n, s, k, now);
        m := EdgeMoves(n, Discard(n, s, k, now), now);
        PlusPlus(n, s.next, 1, m);
        m := m + 1;
    }
  }

  lemma SkipAtEdge(n: Numbering, s: Pipe, now: uint64)
    requires Valid(n, s) && s.haveNewest
    ensures AtEdge(n, Skip(n, s, now))
  {
    OccupiedMost(Skip(n, s, now).slots);
  }

  lemma SkippedBound(n: Numbering, s: Pipe)
    requires Newer(n, s.newest, s.next)
    ensures 0 < Skipped(n, s) && (n == Wrapping ==> Skipped(n, s) < HALF)
  {}

  /** A poll does nothing, or it stamps the time and moves delivery, on 32 bits by less than the whole range. */
  lemma {:induction false} PollMoves(n: Numbering, s: Pipe, now: uint64) returns (m: nat)
    requires Valid(n, s)
    ensures Read(n, s, now).0.next == Plus(n, s.next, m)
    ensures n == Wrapping ==> m <= HALF + FRAME_SLOTS + Occupied(s.slots)
    ensures if m == 0 then Read(n, s, now) == (s, None) else Read(n, s, now).0.nextWait == now
    decreases Occupied(s.slots)
  {
    hide Read, TurnOf, Deliver, Distinct, FrameOk, AtEdge, Plus, Newer, Skipped;
    ReadUnfolds(n, s, now);
    PlusPlus(n, s.next, 0, 0);
    m := 0;
    match TurnOf(n, s, now) {
      case Waits =>
      case Takes(k) => m := 1;
      case Discards(k) =>
        TakenValid(n, s, k, now);
        m := PollMoves(n, Discard(n, s, k, now), now);
        PlusPlus(n, s.next, 1, m);
        m := m + 1;
      case Skips =>
        var u := Skip(n, s, now);
        SkipValid(n, s, now);
        SkipAtEdge(n, s, now);
        SkippedBound(n, s);
        SkippedIsDistance(n, s);
        OccupiedMost(u.slots);
        m := EdgeMoves(n, u, now);
        PlusPlus(n, s.next, Skipped(n, s), m);
        m := Skipped(n, s) + m;
    }
  }

  /** A poll that does anything moves delivery to another number and stamps the time. */
  lemma PollStamps(n: Numbering, s: Pipe, now: uint64)
    requires Valid(n, s)
    ensures
      var (t, d) := Read(n, s, now);
      (t, d) == (s, None) || (t.next != s.next && t.nextWait == now)
  {
    hide Read, Distinct, FrameOk, SlotOk;
    OccupiedMost(s.slots);
    var m := PollMoves(n, s, now);
    if 0 < m { MovedAway(n, s.next, m); }
  }

  lemma MovedAway(n: Numbering, a: int, m: nat)
    requires IsId(n, a) && 0 < m && (n == Wrapping ==> m < MODULUS)
    ensures Plus(n, a, m) != a
  {}

  // ---------- When delivery last moved ----------

  /** Delivery has come to another number, or begins in another session. */
  predicate Moved(s: Pipe, t: Pipe) { t.session != s.session || t.next != s.next }

  function TimeOf(e: Event): uint64 { if e.Garbage? then 0 else e.at }

  /** The receiver waits for a number as soon as it has a session. */
  predicate Begun(s: Pipe) { s.session != 0 ==> s.haveNext }

  /** The event that moves delivery sets the time from which it waits, and no other event does. */
  lemma StepStamps(n: Numbering, s: Pipe, e: Event)
    requires Valid(n, s) && EventOk(n, e) && Begun(s)
    ensures
      var t := Step(n, s, e).0;
      && Begun(t)
      && (Moved(s, t) ==> !e.Garbage? && t.nextWait == TimeOf(e))
      && (!Moved(s, t) ==> t.nextWait == s.nextWait)
  {
    hide Accept, Read, FrameOk, SlotOk, Distinct;
    match e {
      case Garbage =>
      case Poll(now) =>
        PollStamps(n, s, now);
        ReadMoves(n, s, now);
      case Arrive(p, now) =>
        AcceptKeeps(n, s, p, now);
        AcceptStamps(n, s, p, now);
    }
  }

  lemma AcceptStamps(n: Numbering, s: Pipe, p: Packet, now: uint64)
    requires Valid(n, s) && Decoded(p) && Begun(s)
    ensures Accept(n, s, p, now).nextWait == if p.session == s.session then s.nextWait else now
  {
    hide FrameOk, Place, Distinct, SlotOk;
    var t := Enter(s, p.session);
    if !(t.haveNext && Newer(n, t.next, p.frame)) {
      PlaceKeepsWait(n, if t.haveNext then t else t.(next := p.frame, nextWait := now, haveNext := true), p, now);
    }
  }

  lemma PlaceKeepsWait(n: Numbering, s: Pipe, p: Packet, now: uint64)
    requires SlotsOk(s) && Decoded(p)
    ensures Place(n, s, p, now).nextWait == s.nextWait
  {
    hide FrameOk, Store, Before, SlotFor, After;
    if SlotFor(s, p) < |s.slots| {
      hide Place;
      PlaceShape(n, s, p, now);
    }
  }

  /** Event i moved delivery, and none behind it did. */
  ghost predicate LastMoved(ts: seq<Pipe>, i: nat) {
    i + 1 < |ts| && Moved(ts[i], ts[i + 1]) && forall j | i < j < |ts| - 1 :: !Moved(ts[j], ts[j + 1])
  }

  lemma {:induction false} WaitStays(n: Numbering, s: Pipe, es: seq<Event>, i: nat, j: nat)
    requires Valid(n, s) && Begun(s) && EventsOk(n, es) && LastMoved(Trail(n, s, es), i) && j <= |es| && i < |es|
    ensures Begun(Trail(n, s, es)[j])
    ensures i < j ==> !es[i].Garbage? && Trail(n, s, es)[j].nextWait == TimeOf(es[i])
    decreases j
  {
    hide Step, FrameOk, SlotOk, Distinct;
    if j > 0 {
      WaitStays(n, s, es, i, j - 1);
      TrailSteps(n, s, es, j - 1);
      StepStamps(n, Trail(n, s, es)[j - 1], es[j - 1]);
    }
  }

  /** No slot holds the frame whose number is due. */
  ghost predicate Absent(s: Pipe) {
    forall k | 0 <= k < |s.slots| && s.slots[k].Some? :: s.slots[k].value.id != s.next
  }

  /** The poll gives the due number up if a newer one is known and 80 ms have passed, else it does nothing. */
  ghost predicate GivesUpAfter(n: Numbering, s: Pipe, since: uint64, now: uint64) {
    var (t, d) := Read(n, s, now);
    if s.haveNewest && Newer(n, s.newest, s.next) && (now - since) % 0x1_0000_0000_0000_0000 >= 80000 then
      t.expired > s.expired && t.next != s.next && (d.Some? ==> d.value.id != s.next && d.value.keyframe)
    else (t, d) == (s, None)
  }

  lemma PollWithoutSlot(n: Numbering, s: Pipe, now: uint64)
    requires Valid(n, s) && Absent(s)
    ensures GivesUpAfter(n, s, s.nextWait, now)
  {
    hide Valid, Absent, Read, TurnOf, Newer, Deliver;
    TurnWithoutSlot(n, s, now);
    ReadUnfolds(n, s, now);
    PollStamps(n, s, now);
    if TurnOf(n, s, now).Skips? { SkipDelivers(n, s, now); }
  }

  /**
   * When nothing of the frame whose number is due has arrived: it is given up when a newer number
   * is known and 80 ms have passed, on a clock of 64 bits, since the poll or the datagram that
   * moved delivery to that number; before, a poll does nothing.
   */
  lemma DueWithoutSlot(n: Numbering, es: seq<Event>, i: nat, now: uint64)
    requires EventsOk(n, es) && Valid(n, INITIAL) && LastMoved(Trail(n, INITIAL, es), i)
    requires Absent(Run(n, INITIAL, es).0)
    ensures i < |es| && !es[i].Garbage?
    ensures GivesUpAfter(n, Run(n, INITIAL, es).0, TimeOf(es[i]), now)
  {
    hide Valid, Absent, GivesUpAfter, LastMoved, Begun, Moved;
    Within(Trail(n, INITIAL, es), i);
    StartBegun();
    WaitStays(n, INITIAL, es, i, |es|);
    PollWithoutSlot(n, Run(n, INITIAL, es).0, now);
  }

  /** As soon as there is a session there is such an event. */
  lemma {:induction false} LastMoveExists(ts: seq<Pipe>) returns (i: nat)
    requires ts != [] && ts[|ts| - 1].session != ts[0].session
    ensures LastMoved(ts, i)
    decreases |ts|
  {
    var m := |ts| - 1;
    if Moved(ts[m - 1], ts[m]) {
      i := m - 1;
    } else {
      i := LastMoveExists(ts[..m]);
      StillLast(ts, i);
    }
  }

  lemma StillLast(ts: seq<Pipe>, i: nat)
    requires |ts| > 1 && LastMoved(ts[..|ts| - 1], i) && !Moved(ts[|ts| - 2], ts[|ts| - 1])
    ensures LastMoved(ts, i)
  {
    hide Moved;
    var was := ts[..|ts| - 1];
    assert was[i] == ts[i] && was[i + 1] == ts[i + 1];
    forall j | i < j < |ts| - 1 ensures !Moved(ts[j], ts[j + 1]) {
      if j < |ts| - 2 { assert was[j] == ts[j] && was[j + 1] == ts[j + 1]; }
    }
  }

  lemma StartBegun()
    ensures Begun(INITIAL)
  {}

  lemma Within(ts: seq<Pipe>, i: nat)
    requires LastMoved(ts, i)
    ensures i + 1 < |ts|
  {}

  lemma TurnWithoutSlot(n: Numbering, s: Pipe, now: uint64)
    requires Valid(n, s) && Absent(s)
    ensures TurnOf(n, s, now) ==
      if s.haveNewest && Newer(n, s.newest, s.next) && (now - s.nextWait) % 0x1_0000_0000_0000_0000 >= 80000 then Skips
      else Waits
  {
    hide FrameOk, SlotOk, Distinct, Newer;
    assert FindNext(s.slots, s.next, 0) == |s.slots|;
  }

  /** After a skip what is delivered is another frame, and a keyframe. */
  lemma SkipDelivers(n: Numbering, s: Pipe, now: uint64)
    requires Valid(n, s) && TurnOf(n, s, now).Skips? && Absent(s)
    ensures
      var (u, d) := Read(n, s, now);
      u.expired > s.expired && (d.Some? ==> d.value.id != s.next && d.value.keyframe)
  {
    hide FrameOk, SlotOk, Distinct, TurnOf, Read, Newer, Skipped;
    ReadUnfolds(n, s, now);
    var t := Skip(n, s, now);
    TurnNeeds(n, s, now);
    SkipValid(n, s, now);
    SkippedBound(n, s);
    ReadConserves(n, t, now);
    ReadMoves(n, t, now);
    NotDelivered(n, t, s.next, now);
  }

  // ---------- Recovery ----------

  /** The due frame is unfinished, and 80 ms have passed since its first datagram, or since delivery came to it. */
  ghost predicate Overdue(s: Pipe, now: uint64) {
    && (forall j | 0 <= j < |s.slots| && s.slots[j].Some? && s.slots[j].value.id == s.next ::
         !Complete(s.slots[j].value) && (now - s.slots[j].value.firstPacket) % 0x1_0000_0000_0000_0000 >= 80000)
    && (Absent(s) ==> (now - s.nextWait) % 0x1_0000_0000_0000_0000 >= 80000)
  }

  /**
   * Delivery recovers at once: if the due frame is overdue and the newest frame is a keyframe and
   * complete, the next poll delivers it, whatever else has been lost, and goes on behind it.
   */
  lemma NewestKeyframeIsShown(n: Numbering, s: Pipe, k: nat, now: uint64)
    requires Valid(n, s) && s.haveNewest && Newer(n, s.newest, s.next) && Overdue(s, now)
    requires k < |s.slots| && s.slots[k].Some? && s.slots[k].value.id == s.newest
    requires Complete(s.slots[k].value) && s.slots[k].value.keyframe
    ensures
      var (t, d) := Read(n, s, now);
      d == Some(Deliver(s.slots[k].value)) && t.next == Plus(n, s.newest, 1) && !t.needKeyframe
  {
    hide Read, FrameOk, Distinct, Deliver, Overdue, TurnOf, SlotOk, Skipped;
    OverdueSkips(n, s, now);
    ReadUnfolds(n, s, now);
    var t := Skip(n, s, now);
    SkipValid(n, s, now);
    NewestStays(n, s, k, now);
    ReadUnfolds(n, t, now);
  }

  lemma OverdueSkips(n: Numbering, s: Pipe, now: uint64)
    requires Valid(n, s) && s.haveNewest && Newer(n, s.newest, s.next) && Overdue(s, now)
    ensures TurnOf(n, s, now) == Skips
  {
    hide FrameOk, Distinct, SlotOk, Newer;
    FindNextFinds(s.slots, s.next, 0);
  }

  lemma NewestStays(n: Numbering, s: Pipe, k: nat, now: uint64)
    requires Valid(n, s) && s.haveNewest && k < |s.slots| && s.slots[k].Some? && s.slots[k].value.id == s.newest
    requires Complete(s.slots[k].value) && s.slots[k].value.keyframe
    ensures TurnOf(n, Skip(n, s, now), now) == Takes(k) && Skip(n, s, now).slots[k] == s.slots[k]
  {
    hide FrameOk, SlotOk, Skipped, Late;
    var t := Skip(n, s, now);
    assert t.slots[k] == s.slots[k] && t.next == s.newest;
    FindNextFinds(t.slots, t.next, 0);
    assert FindNext(t.slots, t.next, 0) == k;
  }

  lemma TurnNeeds(n: Numbering, s: Pipe, now: uint64)
    requires TurnOf(n, s, now).Skips?
    ensures s.haveNext && s.haveNewest && Newer(n, s.newest, s.next)
  {}
}
