/** The life of one frame inside the receiver, from the datagram that opens its slot to the poll that ends it. */
module FrameLife {
  import opened Wrappers
  import opened Wire
  import opened FrameIds
  import opened Reassembly
  import opened ReassemblyInvariant
  import opened Integrity
  import opened DeliveryOrder
  import opened Completion

  /** The arrivals of one frame among the events. */
  function Own(es: seq<Event>, session: uint32, id: int): seq<Arrival> {
    if es == [] then []
    else (if Brings(es[0], session, id) then [Arrival(es[0].packet.group, es[0].packet.shard)] else [])
         + Own(es[1..], session, id)
  }

  predicate Brings(e: Event, session: uint32, id: int) {
    e.Arrive? && e.packet.session == session && e.packet.frame == id
  }

  /** What comes of this frame is its sender's; whatever else comes is free. */
  ghost predicate FromSender(es: seq<Event>, session: uint32, id: int, sent: Sent) {
    forall i | 0 <= i < |es| && Brings(es[i], session, id) :: IsShardOf(es[i].packet, sent)
  }

  ghost predicate IsShardOf(p: Packet, sent: Sent) {
    && p.group < Groups(sent) && p.shard < Size(sent, p.group) + PARITY_SHARDS
    && p == PacketOf(p.session, p.frame, sent, p.group, p.shard)
  }

  predicate Holds(s: Pipe, k: nat, session: uint32, id: int) {
    && k < |s.slots| && s.slots[k].Some?
    && s.slots[k].value.session == session && s.slots[k].value.id == id
  }

  /** Slot k holds the frame after every one of the events. */
  ghost predicate Stays(n: Numbering, s: Pipe, es: seq<Event>, k: nat, session: uint32, id: int)
    requires Valid(n, s) && EventsOk(n, es)
    decreases |es|
  {
    es == [] ||
    (assert EventOk(n, es[0]);
     StepValid(n, s, es[0]);
     var t := Step(n, s, es[0]).0;
     Holds(t, k, session, id) && Stays(n, t, es[1..], k, session, id))
  }

  lemma {:induction false} OwnArrivals(es: seq<Event>, session: uint32, id: int, sent: Sent)
    requires FromSender(es, session, id, sent)
    ensures Arrivals(sent, Own(es, session, id))
  {
    hide PacketOf;
    if es != [] { OwnArrivals(es[1..], session, id, sent); }
  }

  lemma {:induction false} ReassembledFront(session: uint32, id: int, f: Frame, sent: Sent, a: Arrival,
      rest: seq<Arrival>)
    requires FrameOk(f) && Faithful(f, sent) && Arrivals(sent, [a] + rest) && Arrivals(sent, rest)
    requires a.group < Groups(sent) && a.shard < Size(sent, a.group) + PARITY_SHARDS
    ensures
      var h := Store(f, PacketOf(session, id, sent, a.group, a.shard));
      && h.Stored? && FrameOk(h.frame) && Faithful(h.frame, sent)
      && Reassembled(session, id, f, sent, [a] + rest) == Reassembled(session, id, h.frame, sent, rest)
    decreases |rest|
  {
    hide FrameOk, Faithful, Store;
    var all := [a] + rest;
    assert all[0] == a;
    ArrivalStored(session, id, f, sent, a);
    var m := |rest|;
    if m == 0 {
      assert all[..0] == [] && all == [a];
    } else {
      assert all[..m] == [a] + rest[..m - 1];
      assert all[m] == rest[m - 1];
      ReassembledFront(session, id, f, sent, a, rest[..m - 1]);
    }
  }

  // ---------- One event ----------

  /** A poll frees slots and does nothing else to them. */
  lemma {:induction false} ReadFrees(n: Numbering, s: Pipe, now: uint64)
    ensures
      var t := Read(n, s, now).0;
      |t.slots| == |s.slots| && forall i | 0 <= i < |s.slots| :: t.slots[i] == s.slots[i] || t.slots[i].None?
    decreases Occupied(s.slots), if Newer(n, s.newest, s.next) then 1 else 0
  {
    hide Read, TurnOf, Deliver, Newer, Complete;
    ReadUnfolds(n, s, now);
    match TurnOf(n, s, now) {
      case Waits =>
      case Takes(_) =>
      case Discards(k) => ReadFrees(n, Discard(n, s, k, now), now);
      case Skips => ReadFrees(n, Skip(n, s, now), now);
    }
  }

  /** A datagram of the session acts on the slot of its own frame and on no other. */
  lemma AcceptActs(n: Numbering, s: Pipe, p: Packet, now: uint64, k: nat)
    requires Valid(n, s) && Decoded(p) && s.haveNext && p.session == s.session
    requires k < |s.slots| && s.slots[k].Some?
    ensures
      var f := s.slots[k].value;
      var t := Accept(n, s, p, now);
      && |t.slots| == |s.slots|
      && (p.frame != f.id ==> t.slots[k] == s.slots[k])
      && (p.frame == f.id && Store(f, p).Stored? ==> t.slots[k] == Some(Store(f, p).frame))
  {
    hide FrameOk, Store, SlotFor, Distinct;
    assert SlotOk(n, s, s.slots[k].value);
    SlotForFinds(n, s, p);
    if SlotFor(s, p) < |s.slots| { PlaceShape(n, s, p, now); }
  }

  /** A datagram of another session leaves nothing of this one. */
  lemma OtherSessionEnds(n: Numbering, s: Pipe, p: Packet, now: uint64, k: nat, session: uint32, id: int)
    requires Valid(n, s) && Decoded(p) && IsId(n, p.frame) && p.session != session
    ensures !Holds(Accept(n, s, p, now), k, session, id)
  {
    hide Accept, FrameOk, Distinct;
    AcceptValid(n, s, p, now);
    AcceptKeeps(n, s, p, now);
    var t := Accept(n, s, p, now);
    if k < |t.slots| && t.slots[k].Some? { assert SlotOk(n, t, t.slots[k].value); }
  }

  lemma HeldIsOk(n: Numbering, s: Pipe, k: nat, session: uint32, id: int)
    requires Valid(n, s) && Holds(s, k, session, id)
    ensures FrameOk(s.slots[k].value) && s.session == session && s.haveNext && SlotOk(n, s, s.slots[k].value)
  {}

  /** While the frame stays in its slot, an event stores what it brings of it and changes nothing else there. */
  lemma SlotStep(n: Numbering, s: Pipe, e: Event, k: nat, session: uint32, id: int, sent: Sent)
    requires Valid(n, s) && EventOk(n, e) && Holds(s, k, session, id) && Faithful(s.slots[k].value, sent)
    requires Brings(e, session, id) ==> IsShardOf(e.packet, sent)
    requires Holds(Step(n, s, e).0, k, session, id)
    ensures
      var f, g := s.slots[k].value, Step(n, s, e).0.slots[k].value;
      && FrameOk(f) && Faithful(g, sent)
      && (Brings(e, session, id) ==> Store(f, e.packet).Stored? && g == Store(f, e.packet).frame)
      && (!Brings(e, session, id) ==> g == f)
  {
    hide FrameOk, Faithful, Store, Accept, Read, Distinct, PacketOf, SlotOk;
    HeldIsOk(n, s, k, session, id);
    var f := s.slots[k].value;
    match e {
      case Garbage =>
      case Poll(now) => ReadFrees(n, s, now);
      case Arrive(p, now) =>
        if p.session != session {
          OtherSessionEnds(n, s, p, now, k, session, id);
        } else {
          if p.frame == id { ArrivalStored(session, id, f, sent, Arrival(p.group, p.shard)); }
          AcceptActs(n, s, p, now, k);
        }
    }
  }

  // ---------- Any number of events ----------

  lemma {:induction false} SlotFollows(n: Numbering, s: Pipe, k: nat, session: uint32, id: int, es: seq<Event>,
      sent: Sent)
    requires Valid(n, s) && EventsOk(n, es) && Holds(s, k, session, id) && Faithful(s.slots[k].value, sent)
    requires FromSender(es, session, id, sent) && Stays(n, s, es, k, session, id)
    ensures
      var f, t := s.slots[k].value, Run(n, s, es).0;
      && FrameOk(f) && Arrivals(sent, Own(es, session, id)) && Holds(t, k, session, id)
      && t.slots[k].value == Reassembled(session, id, f, sent, Own(es, session, id))
    decreases |es|
  {
    hide FrameOk, Faithful, Store, Step, Distinct, PacketOf, SlotOk;
    HeldIsOk(n, s, k, session, id);
    var f := s.slots[k].value;
    OwnArrivals(es, session, id, sent);
    if es != [] {
      var e, rest := es[0], es[1..];
      assert EventOk(n, e);
      StepValid(n, s, e);
      SlotStep(n, s, e, k, session, id, sent);
      SlotFollows(n, Step(n, s, e).0, k, session, id, rest, sent);
      if Brings(e, session, id) {
        OwnArrivals(rest, session, id, sent);
        assert Own(es, session, id) == [Arrival(e.packet.group, e.packet.shard)] + Own(rest, session, id);
        ReassembledFront(session, id, f, sent, Arrival(e.packet.group, e.packet.shard), Own(rest, session, id));
      } else {
        assert Own(es, session, id) == Own(rest, session, id);
      }
    }
  }

  /** A datagram for which a slot is opened: its frame has none, one is free, and the frame is not too old. */
  ghost predicate Opens(n: Numbering, s: Pipe, p: Packet) {
    var t := Enter(s, p.session);
    && !(t.haveNext && Newer(n, t.next, p.frame))
    && SlotFor(t, p) < |t.slots| && t.slots[SlotFor(t, p)].None?
  }

  function SlotOpened(s: Pipe, p: Packet): nat { SlotFor(Enter(s, p.session), p) }

  lemma OpensSlot(n: Numbering, s: Pipe, p: Packet, now: uint64, sent: Sent)
    requires Valid(n, s) && Decoded(p) && Opens(n, s, p) && Sendable(sent) && IsShardOf(p, sent)
    ensures
      var k, f, t := SlotOpened(s, p), NewFrame(p, now), Accept(n, s, p, now);
      && FrameOk(f) && Faithful(f, sent) && Holds(t, k, p.session, p.frame)
      && p.frameSize == |sent.bytes| && p.timestamp == sent.timestamp && p.keyframe == sent.keyframe
      && Store(f, p).Stored? && t.slots[k].value == Store(f, p).frame && Faithful(Store(f, p).frame, sent)
  {
    hide FrameOk, Faithful, Store, Distinct, SlotFor, SlotOk;
    var f := NewFrame(p, now);
    NewFrameOk(p, now);
    NewFaithful(p, sent, now);
    ArrivalStored(p.session, p.frame, f, sent, Arrival(p.group, p.shard));
    StoreOk(f, p);
    EnterValid(n, s, p.session);
    var t := Enter(s, p.session);
    var u := if t.haveNext then t else t.(next := p.frame, nextWait := now, haveNext := true);
    SameSlotFor(t, u, p);
    PlaceShape(n, u, p, now);
  }

  lemma SameSlotFor(s: Pipe, t: Pipe, p: Packet)
    requires s.slots == t.slots
    ensures SlotFor(s, p) == SlotFor(t, p)
  {}

  /** Every group of the frame is gathered from what the events brought of it. */
  ghost predicate Whole(es: seq<Event>, session: uint32, id: int, sent: Sent) {
    forall g | 0 <= g < Groups(sent) :: Gathered(sent, Own(es, session, id), g)
  }

  /** If that came in send order: no group lost more than its parity shards that came can repair. */
  lemma WholeInSendOrder(es: seq<Event>, session: uint32, id: int, sent: Sent)
    requires FromSender(es, session, id, sent) && InSendOrder(Own(es, session, id))
    ensures Whole(es, session, id, sent) <==>
            forall g | 0 <= g < Groups(sent) :: Recoverable(sent, Own(es, session, id), g)
  {
    hide Gathered, Recoverable, FromSender, InSendOrder;
    OwnArrivals(es, session, id, sent);
    forall g | 0 <= g < Groups(sent)
      ensures Gathered(sent, Own(es, session, id), g) <==> Recoverable(sent, Own(es, session, id), g)
    {
      GatheredInSendOrder(sent, Own(es, session, id), g);
    }
  }

  /**
   * A frame's slot is opened by the first of the events, and the frame is still in it after the
   * last; of its own datagrams any are lost, repeated or out of order.
   */
  ghost predicate Lives(n: Numbering, s: Pipe, es: seq<Event>, sent: Sent)
    requires Valid(n, s) && EventsOk(n, es)
  {
    && Sendable(sent) && es != [] && es[0].Arrive? && Opens(n, s, es[0].packet)
    && var p := es[0].packet;
    && FromSender(es, p.session, p.frame, sent)
    && Stays(n, s, es, SlotOpened(s, p), p.session, p.frame)
  }

  /**
   * Inside the receiver, whatever else arrives and however often it is polled: as long as a frame
   * is in its slot, it is complete exactly when every group is gathered from what arrived of it.
   */
  lemma CompletionInReceiver(n: Numbering, s: Pipe, es: seq<Event>, sent: Sent)
    requires Valid(n, s) && EventsOk(n, es) && Lives(n, s, es, sent)
    ensures
      var p, t := es[0].packet, Run(n, s, es).0;
      var k := SlotOpened(s, p);
      && Holds(t, k, p.session, p.frame) && Faithful(t.slots[k].value, sent)
      && (Complete(t.slots[k].value) <==> Whole(es, p.session, p.frame, sent))
  {
    hide FrameOk, Faithful, Store, Distinct, PacketOf, Gathered, Complete, SlotFor, SlotOk, Accept, NewFrame, Opens,
         SlotOpened;
    var p, now, rest := es[0].packet, es[0].at, es[1..];
    var x, id, k, a := p.session, p.frame, SlotOpened(s, p), Arrival(p.group, p.shard);
    assert EventOk(n, es[0]) && Brings(es[0], x, id);
    OwnArrivals(es, x, id, sent);
    OwnArrivals(rest, x, id, sent);
    OpensSlot(n, s, p, now, sent);
    StepValid(n, s, es[0]);
    var t := Step(n, s, es[0]).0;
    SlotFollows(n, t, k, x, id, rest, sent);
    assert Own(es, x, id) == [a] + Own(rest, x, id);
    ReassembledFront(x, id, NewFrame(p, now), sent, a, Own(rest, x, id));
    CompletionInAnyOrder(x, id, sent, Own(es, x, id), p, now);
  }

  lemma {:induction false} StampStays(n: Numbering, s: Pipe, k: nat, session: uint32, id: int, es: seq<Event>,
      sent: Sent)
    requires Valid(n, s) && EventsOk(n, es) && Holds(s, k, session, id) && Faithful(s.slots[k].value, sent)
    requires FromSender(es, session, id, sent) && Stays(n, s, es, k, session, id)
    ensures Holds(Run(n, s, es).0, k, session, id)
    ensures Run(n, s, es).0.slots[k].value.firstPacket == s.slots[k].value.firstPacket
    decreases |es|
  {
    hide FrameOk, Faithful, Store, Step, Distinct, PacketOf, SlotOk;
    HeldIsOk(n, s, k, session, id);
    if es != [] {
      var e := es[0];
      assert EventOk(n, e);
      StepValid(n, s, e);
      SlotStep(n, s, e, k, session, id, sent);
      if Brings(e, session, id) { StoreOk(s.slots[k].value, e.packet); }
      StampStays(n, Step(n, s, e).0, k, session, id, es[1..], sent);
    }
  }

  /** A frame keeps the time at which its first datagram came. */
  lemma FirstPacketIs(n: Numbering, s: Pipe, es: seq<Event>, sent: Sent)
    requires Valid(n, s) && EventsOk(n, es) && Lives(n, s, es, sent)
    ensures
      var p, t := es[0].packet, Run(n, s, es).0;
      var k := SlotOpened(s, p);
      Holds(t, k, p.session, p.frame) && t.slots[k].value.firstPacket == es[0].at
  {
    hide FrameOk, Faithful, Store, Distinct, PacketOf, SlotFor, SlotOk, Accept, Opens, SlotOpened;
    var p, now := es[0].packet, es[0].at;
    assert EventOk(n, es[0]) && Brings(es[0], p.session, p.frame);
    OpensSlot(n, s, p, now, sent);
    NewFrameOk(p, now);
    StoreOk(NewFrame(p, now), p);
    StepValid(n, s, es[0]);
    StampStays(n, Step(n, s, es[0]).0, SlotOpened(s, p), p.session, p.frame, es[1..], sent);
  }

  // ---------- The poll that ends it ----------

  /** What a poll delivers was a complete frame in one of the slots. */
  lemma {:induction false} ReadDelivers(n: Numbering, s: Pipe, now: uint64) returns (i: nat)
    requires Read(n, s, now).1.Some?
    ensures i < |s.slots| && s.slots[i].Some? && Complete(s.slots[i].value)
    ensures Read(n, s, now).1 == Some(Deliver(s.slots[i].value))
    decreases Occupied(s.slots), if Newer(n, s.newest, s.next) then 1 else 0
  {
    hide Read, TurnOf, Deliver, Newer, Complete;
    ReadUnfolds(n, s, now);
    match TurnOf(n, s, now) {
      case Waits =>
      case Takes(k) => i := k;
      case Discards(k) => i := ReadDelivers(n, Discard(n, s, k, now), now);
      case Skips => i := ReadDelivers(n, Skip(n, s, now), now);
    }
  }

  /** The turn of the loop that looks at a frame whose number is due. */
  lemma TurnWhenDue(n: Numbering, s: Pipe, k: nat, session: uint32, id: int, now: uint64)
    requires Valid(n, s) && Holds(s, k, session, id) && s.next == id
    ensures TurnOf(n, s, now) ==
      if Complete(s.slots[k].value) then (if Unusable(s, k) then Discards(k) else Takes(k))
      else if Late(n, s, k, now) then Skips else Waits
  {
    hide FrameOk, Complete;
    HeldIsOk(n, s, k, session, id);
    FindNextFinds(s.slots, id, 0);
  }

  lemma NotDelivered(n: Numbering, s: Pipe, id: int, now: uint64)
    requires forall i | 0 <= i < |s.slots| && s.slots[i].Some? :: s.slots[i].value.id != id
    ensures Read(n, s, now).1.Some? ==> Read(n, s, now).1.value.id != id
  {
    hide Read, Complete, Contents;
    if Read(n, s, now).1.Some? { var i := ReadDelivers(n, s, now); }
  }

  /** The poll, when the frame in slot k is due, in terms of the frame. */
  lemma ReadWhenDue(n: Numbering, s: Pipe, k: nat, session: uint32, id: int, now: uint64)
    requires Valid(n, s) && Holds(s, k, session, id) && s.next == id
    ensures
      var f, (t, d) := s.slots[k].value, Read(n, s, now);
      if Complete(f) then
        && k < |t.slots| && t.slots[k].None?
        && (Unusable(s, k) ==> d.Some? ==> d.value.id != id)
        && (!Unusable(s, k) ==> d == Some(Deliver(f)))
      else if Late(n, s, k, now) then
        k < |t.slots| && t.slots[k].None? && t.expired > s.expired && (d.Some? ==> d.value.id != id)
      else (t, d) == (s, None)
  {
    hide Read, TurnOf, Deliver, Complete, FrameOk, Late, SlotOk, Occupied, Newer;
    TurnWhenDue(n, s, k, session, id, now);
    ReadUnfolds(n, s, now);
    var turn := TurnOf(n, s, now);
    if turn.Discards? {
      var u := Discard(n, s, k, now);
      NotDelivered(n, u, id, now);
      ReadFrees(n, u, now);
    } else if turn.Skips? {
      var u := Skip(n, s, now);
      NotDelivered(n, u, id, now);
      ReadFrees(n, u, now);
      SkipValid(n, s, now);
      ReadConserves(n, u, now);
    }
  }

  /**
   * A poll never delivers the frame in any other form than it was sent in, and never before all its
   * groups are gathered. When the frame's number is due, the poll delivers it exactly if they
   * are and it is a keyframe or none is needed; if one is needed, it is discarded. If they are not,
   * it is given up when a newer number is known and 80 ms have passed since its first datagram, on
   * a clock of 64 bits, and nothing changes before.
   */
  lemma PollDecides(n: Numbering, s: Pipe, es: seq<Event>, sent: Sent, now: uint64)
    requires Valid(n, s) && EventsOk(n, es) && Lives(n, s, es, sent)
    ensures
      var p, t := es[0].packet, Run(n, s, es).0;
      var x, id, k := p.session, p.frame, SlotOpened(s, p);
      var (u, d) := Read(n, t, now);
      var whole := Whole(es, x, id, sent);
      && Holds(t, k, x, id)
      && (d.Some? && d.value.id == id ==> d.value == AsSent(x, id, sent) && whole)
      && (t.next == id ==>
           && (d == Some(AsSent(x, id, sent)) <==> whole && (sent.keyframe || !t.needKeyframe))
           && (whole ==> !Holds(u, k, x, id))
           && (var due := && t.haveNewest && Newer(n, t.newest, id)
                          && (now - es[0].at) % 0x1_0000_0000_0000_0000 >= 80000;
               && (!whole && due ==> !Holds(u, k, x, id) && u.expired > t.expired)
               && (!whole && !due ==> (u, d) == (t, None))))
  {
    hide FrameOk, Faithful, Distinct, Whole, Complete, SlotOpened, Opens, FromSender, Stays, Contents, Late, Read;
    CompletionInReceiver(n, s, es, sent);
    FirstPacketIs(n, s, es, sent);
    var p, t := es[0].packet, Run(n, s, es).0;
    var x, id, k := p.session, p.frame, SlotOpened(s, p);
    LateIs(n, t, k, now);
    FaithfulMarks(t.slots[k].value, sent);
    HeldIsOk(n, t, k, x, id);
    if Complete(t.slots[k].value) { CompleteDelivers(t.slots[k].value, sent); }
    if Read(n, t, now).1.Some? && Read(n, t, now).1.value.id == id {
      var i := ReadDelivers(n, t, now);
      OnlySlot(n, t, k, x, id, i);
    }
    if t.next == id { ReadWhenDue(n, t, k, x, id, now); }
  }

  lemma LateIs(n: Numbering, s: Pipe, k: nat, now: uint64)
    requires k < |s.slots| && s.slots[k].Some?
    ensures Late(n, s, k, now) <==>
      && s.haveNewest && Newer(n, s.newest, s.next)
      && (now - s.slots[k].value.firstPacket) % 0x1_0000_0000_0000_0000 >= 80000
  {}

  lemma FaithfulMarks(f: Frame, sent: Sent)
    requires Faithful(f, sent)
    ensures f.keyframe == sent.keyframe
  {}

  lemma OnlySlot(n: Numbering, s: Pipe, k: nat, session: uint32, id: int, i: nat)
    requires Valid(n, s) && Holds(s, k, session, id) && i < |s.slots| && s.slots[i].Some? && s.slots[i].value.id == id
    ensures i == k
  {
    hide FrameOk;
  }

  // ---------- No other end ----------

  /** What a poll frees it has passed. */
  lemma {:induction false} FreedIsPassed(s: Pipe, now: uint64, k: nat)
    requires Valid(Unbounded, s) && k < |s.slots| && s.slots[k].Some?
    ensures
      var t := Read(Unbounded, s, now).0;
      k < |t.slots| && (t.slots[k].None? ==> s.slots[k].value.id < t.next)
    decreases Occupied(s.slots), if Newer(Unbounded, s.newest, s.next) then 1 else 0
  {
    hide Read, TurnOf, FrameOk, Distinct, Deliver, Complete;
    ReadUnfolds(Unbounded, s, now);
    ReadFrees(Unbounded, s, now);
    match TurnOf(Unbounded, s, now) {
      case Waits =>
      case Takes(_) =>
      case Discards(i) =>
        var u := Discard(Unbounded, s, i, now);
        TakenValid(Unbounded, s, i, now);
        ReadMoves(Unbounded, u, now);
        if i != k { FreedIsPassed(u, now, k); }
      case Skips =>
        var u := Skip(Unbounded, s, now);
        SkipValid(Unbounded, s, now);
        ReadMoves(Unbounded, u, now);
        if u.slots[k].Some? { FreedIsPassed(u, now, k); }
    }
  }

  /** A frame leaves its slot only when delivery passes its number or another session begins. */
  lemma LeavesWhenPassed(s: Pipe, e: Event, k: nat, session: uint32, id: int)
    requires Valid(Unbounded, s) && EventOk(Unbounded, e) && Holds(s, k, session, id)
    requires !Holds(Step(Unbounded, s, e).0, k, session, id)
    ensures
      || (e.Arrive? && e.packet.session != session)
      || (e.Poll? && id < Step(Unbounded, s, e).0.next)
  {
    hide FrameOk, Accept, Read, Distinct, Store;
    HeldIsOk(Unbounded, s, k, session, id);
    match e {
      case Garbage =>
      case Poll(now) =>
        ReadFrees(Unbounded, s, now);
        FreedIsPassed(s, now, k);
      case Arrive(p, now) =>
        if p.session == session {
          AcceptActs(Unbounded, s, p, now, k);
          AcceptHolds(s, p, now, k, id);
        }
    }
  }

  /** A datagram of the session leaves every frame in its slot. */
  lemma AcceptHolds(s: Pipe, p: Packet, now: uint64, k: nat, id: int)
    requires Valid(Unbounded, s) && Decoded(p) && p.session == s.session && Holds(s, k, p.session, id)
    ensures Holds(Accept(Unbounded, s, p, now), k, p.session, id)
  {
    hide FrameOk, Store, SlotFor, Distinct;
    HeldIsOk(Unbounded, s, k, p.session, id);
    SlotForFinds(Unbounded, s, p);
    if SlotFor(s, p) < |s.slots| { PlaceShape(Unbounded, s, p, now); }
  }
}
