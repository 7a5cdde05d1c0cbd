/** Why skipping past a deadline frees the slots. */
module Starvation {
  import opened Wrappers
  import opened Wire
  import opened FrameIds
  import opened Reassembly
  import opened ReassemblyInvariant
  import opened Integrity
  import opened Wraparound

  /** No occupied slot is newer than the newest number. */
  ghost predicate Led(s: Pipe) {
    forall i | 0 <= i < |s.slots| && s.slots[i].Some? :: s.haveNewest && s.slots[i].value.id <= s.newest
  }

  lemma PlaceLed(h: History, s: Pipe, p: Packet, now: uint64)
    requires Valid(Unbounded, s) && AllFaithful(h, s) && Led(s) && Decoded(p) && Genuine(h, p)
    requires s.haveNext && s.session == p.session
    ensures Led(Place(Unbounded, s, p, now))
  {
    hide FrameOk, Store, Faithful, PacketOf, SlotFor, Before, Distinct, SlotOk;
    SlotForFinds(Unbounded, s, p);
    var k := SlotFor(s, p);
    if k < |s.slots| {
      var f := Before(s, k, p, now);
      BeforeFaithful(Unbounded, h, s, k, p, now);
      FaithfulShape(f, h[(p.session, p.frame)]);
      StoreFaithful(f, h[(p.session, p.frame)], p);
      PlaceShape(Unbounded, s, p, now);
    }
  }

  lemma AcceptLed(h: History, s: Pipe, p: Packet, now: uint64)
    requires Valid(Unbounded, s) && AllFaithful(h, s) && Led(s) && Decoded(p) && Genuine(h, p)
    ensures Led(Accept(Unbounded, s, p, now))
  {
    hide FrameOk, Place, FaithfulIn, PacketOf;
    EnterValid(Unbounded, s, p.session);
    var t := Enter(s, p.session);
    if !(t.haveNext && Newer(Unbounded, t.next, p.frame)) {
      PlaceLed(h, if t.haveNext then t else t.(next := p.frame, nextWait := now, haveNext := true), p, now);
    }
  }

  lemma {:induction false} ReadLed(s: Pipe, now: uint64)
    requires Valid(Unbounded, s) && Led(s)
    ensures Led(Read(Unbounded, s, now).0)
    decreases Occupied(s.slots), if Newer(Unbounded, s.newest, s.next) then 1 else 0
  {
    hide Read, TurnOf, FrameOk, Distinct;
    ReadUnfolds(Unbounded, s, now);
    match TurnOf(Unbounded, s, now) {
      case Waits =>
      case Takes(k) =>
      case Discards(k) =>
        TakenValid(Unbounded, s, k, now);
        ReadLed(Discard(Unbounded, s, k, now), now);
      case Skips =>
        SkipValid(Unbounded, s, now);
        ReadLed(Skip(Unbounded, s, now), now);
    }
  }

  /** With a well-formed sender, no occupied slot ever gets ahead of the newest number. */
  lemma {:induction false} RunIsLed(h: History, s: Pipe, es: seq<Event>)
    requires Valid(Unbounded, s) && AllFaithful(h, s) && Led(s) && EventsOk(Unbounded, es)
    requires forall i | 0 <= i < |es| :: Honest(h, es[i])
    ensures Led(Run(Unbounded, s, es).0)
    decreases |es|
  {
    hide Accept, Read, AllFaithful, FrameOk, SlotOk, Distinct, Led, Genuine;
    if es != [] {
      var e := es[0];
      assert EventOk(Unbounded, e) && Honest(h, e);
      StepValid(Unbounded, s, e);
      StepFaithful(Unbounded, h, s, e);
      match e {
        case Garbage => GarbageLed(s);
        case Arrive(p, now) => AcceptLed(h, s, p, now);
        case Poll(now) => ReadLed(s, now);
      }
      RunIsLed(h, Step(Unbounded, s, e).0, es[1..]);
    }
  }

  lemma GarbageLed(s: Pipe)
    requires Led(s)
    ensures Led(s.(invalid := s.invalid + 1))
  {}

  lemma {:induction false} OneOccupied(slots: seq<Option<Frame>>, id: int)
    requires Distinct(slots) && forall i | 0 <= i < |slots| && slots[i].Some? :: slots[i].value.id == id
    ensures Occupied(slots) <= 1
  {
    if slots != [] {
      var m := |slots| - 1;
      OneOccupied(slots[..m], id);
      if slots[m].Some? { NoneOccupied(slots[..m]); }
    }
  }

  lemma {:induction false} NoneOccupied(slots: seq<Option<Frame>>)
    requires forall i | 0 <= i < |slots| :: slots[i].None?
    ensures Occupied(slots) == 0
  {
    if slots != [] { NoneOccupied(slots[..|slots| - 1]); }
  }

  lemma SkipLeavesOne(s: Pipe, now: uint64)
    requires Valid(Unbounded, s) && Led(s) && s.haveNewest && s.newest > s.next
    ensures Skip(Unbounded, s, now).next == s.newest && Occupied(Skip(Unbounded, s, now).slots) <= 1
  {
    hide FrameOk;
    OneOccupied(Skip(Unbounded, s, now).slots, s.newest);
  }

  /** At the live edge a poll cannot skip, and each number it passes frees a slot. */
  lemma {:induction false} ReadAtEdge(s: Pipe, now: uint64)
    requires s.newest <= s.next
    ensures
      var t := Read(Unbounded, s, now).0;
      && t.expired == s.expired && t.newest == s.newest
      && s.next <= t.next && t.next + Occupied(t.slots) == s.next + Occupied(s.slots)
    decreases Occupied(s.slots)
  {
    hide Read, TurnOf, Deliver;
    ReadUnfolds(Unbounded, s, now);
    match TurnOf(Unbounded, s, now) {
      case Waits =>
      case Takes(k) => OccupiedFreed(s.slots, k);
      case Discards(k) =>
        OccupiedFreed(s.slots, k);
        ReadAtEdge(Discard(Unbounded, s, k, now), now);
      case Skips =>
    }
  }

  /**
   * A poll that skips ends with at most one slot occupied and the delivery point at the newest
   * frame, or just behind it if that frame was complete.
   */
  lemma {:induction false} SkipCures(s: Pipe, now: uint64)
    requires Valid(Unbounded, s) && Led(s)
    requires Read(Unbounded, s, now).0.expired > s.expired
    ensures
      var t := Read(Unbounded, s, now).0;
      && t.newest == s.newest
      && Occupied(t.slots) <= 1
      && s.newest <= t.next <= s.newest + 1 - Occupied(t.slots)
    decreases Occupied(s.slots), if Newer(Unbounded, s.newest, s.next) then 1 else 0
  {
    hide Read, TurnOf, FrameOk, Distinct, Deliver;
    ReadUnfolds(Unbounded, s, now);
    match TurnOf(Unbounded, s, now) {
      case Waits =>
      case Takes(k) =>
      case Discards(k) =>
        TakenValid(Unbounded, s, k, now);
        SkipCures(Discard(Unbounded, s, k, now), now);
      case Skips =>
        SkipLeavesOne(s, now);
        ReadAtEdge(Skip(Unbounded, s, now), now);
    }
  }

  lemma {:induction false} OccupiedWraps(slots: seq<Option<Frame>>)
    ensures Occupied(WrapSlots(slots)) == Occupied(slots)
  {
    if slots != [] {
      OccupiedWraps(slots[..|slots| - 1]);
      assert WrapSlots(slots)[..|slots| - 1] == WrapSlots(slots[..|slots| - 1]);
    }
  }

  /** The same for the 32-bit receiver, while the numbers stay in the window. */
  lemma SkipCuresWrapped(s: Pipe, now: uint64)
    requires Valid(Unbounded, s) && Led(s) && PollInWindow(s)
    requires Read(Wrapping, WrapPipe(s), now).0.expired > s.expired
    ensures
      var t := Read(Wrapping, WrapPipe(s), now).0;
      && Occupied(t.slots) <= 1
      && (t.next == t.newest || (t.next == Plus(Wrapping, t.newest, 1) && Occupied(t.slots) == 0))
  {
    hide FrameOk, Read, PollInWindow, Distinct;
    assert Tracked(s);
    ReadWraps(s, now);
    SkipCures(s, now);
    OccupiedWraps(Read(Unbounded, s, now).0.slots);
  }
}
