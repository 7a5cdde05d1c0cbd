/** What is delivered when the frames of a session arrive interleaved: every frame from the first keyframe on. */
module Interleaving {
  import opened Wrappers
  import opened Field
  import opened Wire
  import opened FrameIds
  import opened Reassembly
  import opened ReassemblyInvariant
  import opened Integrity
  import opened Completion
  import opened Wraparound
  import opened FrameLife
  import opened Splitter
  import opened Sender
  import opened Transport
  import opened Liveness

  // ---------- What has arrived ----------

  /** A session and the frames it sends, which have the numbers from 1 on. */
  datatype Source = Source(session: uint32, frames: seq<Sent>)

  ghost predicate SourceOk(src: Source) { src.session != 0 && AllSendable(src.frames) }

  /** Datagrams of the session's frames, garbage and polls. */
  ghost predicate FromSource(es: seq<Event>, src: Source) {
    forall i | 0 <= i < |es| && es[i].Arrive? :: OfFrame(es[i].packet, src)
  }

  ghost predicate OfFrame(p: Packet, src: Source) {
    p.session == src.session && 1 <= p.frame <= |src.frames| && IsShardOf(p, src.frames[p.frame - 1])
  }

  /** What has arrived of frame k. */
  function Came(es: seq<Event>, src: Source, k: nat): seq<Arrival> { Own(es, src.session, k + 1) }

  predicate NothingCame(es: seq<Event>) { forall i | 0 <= i < |es| :: !es[i].Arrive? }

  /** Frame k can be put together from what has arrived of it. */
  ghost predicate Gathers(es: seq<Event>, src: Source, k: nat)
    requires k < |src.frames|
  {
    Whole(es, src.session, k + 1, src.frames[k])
  }

  /** When the first datagram of frame k came. */
  function FirstAt(es: seq<Event>, src: Source, k: nat): uint64
    decreases |es|
  {
    if es == [] then 0
    else
      var m := |es| - 1;
      if Came(es[..m], src, k) != [] || es[m].Garbage? then FirstAt(es[..m], src, k) else es[m].at
  }

  /** The arrival that an event brings. */
  function Brought(e: Event, x: uint32, id: int): seq<Arrival> {
    if Brings(e, x, id) then [Arrival(e.packet.group, e.packet.shard)] else []
  }

  lemma OwnBehind(e: Event, es: seq<Event>, x: uint32, id: int)
    ensures Own([e] + es, x, id) == Brought(e, x, id) + Own(es, x, id)
  {
    hide Brings;
    assert ([e] + es)[0] == e && ([e] + es)[1..] == es;
  }

  lemma {:induction false} OwnSum(a: seq<Event>, b: seq<Event>, x: uint32, id: int)
    ensures Own(a + b, x, id) == Own(a, x, id) + Own(b, x, id)
    decreases |a|
  {
    hide Own, Brought;
    if a == [] {
      assert a + b == b && [] + Own(b, x, id) == Own(b, x, id);
      NothingIsOwn([], x, id);
    } else {
      var e, rest := a[0], a[1..];
      assert a == [e] + rest && a + b == [e] + (rest + b);
      OwnBehind(e, rest, x, id);
      OwnBehind(e, rest + b, x, id);
      OwnSum(rest, b, x, id);
      Regrouped(Brought(e, x, id), Own(rest, x, id), Own(b, x, id));
    }
  }

  lemma OwnNext(es: seq<Event>, e: Event, x: uint32, id: int)
    ensures Own(es + [e], x, id) == Own(es, x, id) + Brought(e, x, id)
  {
    hide Own, Brought;
    OwnSum(es, [e], x, id);
    OwnBehind(e, [], x, id);
    NothingIsOwn([], x, id);
    assert [e] + [] == [e] && Brought(e, x, id) + [] == Brought(e, x, id);
  }

  lemma FirstNext(es: seq<Event>, e: Event, src: Source, k: nat)
    ensures Came(es, src, k) != [] ==> FirstAt(es + [e], src, k) == FirstAt(es, src, k)
    ensures Came(es, src, k) == [] && !e.Garbage? ==> FirstAt(es + [e], src, k) == e.at
  {
    hide Came;
    assert (es + [e])[..|es|] == es && (es + [e])[|es|] == e;
  }

  lemma {:induction false} NothingIsOwn(es: seq<Event>, x: uint32, id: int)
    requires NothingCame(es)
    ensures Own(es, x, id) == []
  {
    if es != [] { NothingIsOwn(es[1..], x, id); }
  }

  lemma FromSourceIsSender(es: seq<Event>, src: Source, k: nat)
    requires FromSource(es, src) && k < |src.frames|
    ensures FromSender(es, src.session, k + 1, src.frames[k]) && Arrivals(src.frames[k], Came(es, src, k))
  {
    hide IsShardOf, PacketOf;
    assert forall i | 0 <= i < |es| && Brings(es[i], src.session, k + 1) :: OfFrame(es[i].packet, src);
    OwnArrivals(es, src.session, k + 1, src.frames[k]);
  }

  lemma FrameIsSendable(src: Source, k: nat)
    requires SourceOk(src) && k < |src.frames|
    ensures Sendable(src.frames[k])
  {}

  // ---------- What a slot should hold ----------

  /** A frame of which nothing has been stored yet. */
  function Fresh(src: Source, k: nat, at: uint64): Frame
    requires k < |src.frames|
  {
    NewFrame(Sample(src, k), at)
  }

  function Sample(src: Source, k: nat): Packet
    requires k < |src.frames|
  {
    var sent := src.frames[k];
    Packet(src.session, k + 1, sent.timestamp, |sent.bytes|, sent.keyframe, 0, 0, 1, [])
  }

  lemma FreshIs(src: Source, k: nat, at: uint64)
    requires SourceOk(src) && k < |src.frames|
    ensures Decoded(Sample(src, k)) && FrameOk(Fresh(src, k, at)) && Faithful(Fresh(src, k, at), src.frames[k])
    ensures Fresh(src, k, at).firstPacket == at
  {
    hide FrameOk, Faithful;
    FrameIsSendable(src, k);
    NewFrameOk(Sample(src, k), at);
    NewFaithful(Sample(src, k), src.frames[k], at);
  }

  lemma FreshIsNew(src: Source, p: Packet, at: uint64)
    requires OfFrame(p, src)
    ensures NewFrame(p, at) == Fresh(src, p.frame - 1, at)
  {}

  /** Frame k, put together from what has arrived of it. */
  ghost function Built(es: seq<Event>, src: Source, k: nat): (f: Frame)
    requires SourceOk(src) && FromSource(es, src) && k < |src.frames|
    ensures FrameOk(f) && Faithful(f, src.frames[k])
  {
    FreshIs(src, k, FirstAt(es, src, k));
    FromSourceIsSender(es, src, k);
    Reassembled(src.session, k + 1, Fresh(src, k, FirstAt(es, src, k)), src.frames[k], Came(es, src, k))
  }

  lemma BuiltIsComplete(es: seq<Event>, src: Source, k: nat)
    requires SourceOk(src) && FromSource(es, src) && k < |src.frames|
    ensures Complete(Built(es, src, k)) <==> Gathers(es, src, k)
  {
    hide FrameOk, Faithful, Gathered, Complete, Reassembled, NewFrame;
    FreshIs(src, k, FirstAt(es, src, k));
    FromSourceIsSender(es, src, k);
    FrameIsSendable(src, k);
    CompletionInAnyOrder(src.session, k + 1, src.frames[k], Came(es, src, k), Sample(src, k), FirstAt(es, src, k));
  }

  lemma {:induction false} ReassembledSame(x: uint32, id: int, f: Frame, sent: Sent, arrivals: seq<Arrival>)
    requires FrameOk(f) && Faithful(f, sent) && Arrivals(sent, arrivals)
    ensures SameFrame(f, Reassembled(x, id, f, sent, arrivals))
    decreases |arrivals|
  {
    hide FrameOk, Faithful, Store, PacketOf;
    if arrivals != [] {
      var m := |arrivals| - 1;
      ReassembledSame(x, id, f, sent, arrivals[..m]);
      var h := Reassembled(x, id, f, sent, arrivals[..m]);
      ArrivalStored(x, id, h, sent, arrivals[m]);
      StoreOk(h, PacketOf(x, id, sent, arrivals[m].group, arrivals[m].shard));
    }
  }

  lemma BuiltMarks(es: seq<Event>, src: Source, k: nat)
    requires SourceOk(src) && FromSource(es, src) && k < |src.frames|
    ensures
      var f := Built(es, src, k);
      && f.session == src.session && f.id == k + 1 && f.firstPacket == FirstAt(es, src, k)
      && f.keyframe == src.frames[k].keyframe
  {
    hide FrameOk, Faithful, Reassembled;
    FreshIs(src, k, FirstAt(es, src, k));
    FromSourceIsSender(es, src, k);
    ReassembledSame(src.session, k + 1, Fresh(src, k, FirstAt(es, src, k)), src.frames[k], Came(es, src, k));
  }

  /** The frame through which a datagram should be stored. */
  ghost function Through(es: seq<Event>, src: Source, p: Packet, at: uint64): (f: Frame)
    requires SourceOk(src) && FromSource(es, src) && OfFrame(p, src)
    ensures FrameOk(f) && Faithful(f, src.frames[p.frame - 1])
  {
    FreshIs(src, p.frame - 1, at);
    if Came(es, src, p.frame - 1) == [] then Fresh(src, p.frame - 1, at) else Built(es, src, p.frame - 1)
  }

  lemma OfFrameDecodes(p: Packet, src: Source)
    requires SourceOk(src) && OfFrame(p, src)
    ensures Decoded(p)
  {
    hide PacketOf;
    FrameIsSendable(src, p.frame - 1);
    PacketDecodes(src.session, p.frame, src.frames[p.frame - 1], Arrival(p.group, p.shard));
  }

  /** A datagram of the frame is stored in it. */
  lemma BuiltNext(es: seq<Event>, src: Source, p: Packet, at: uint64)
    requires SourceOk(src) && FromSource(es, src) && OfFrame(p, src)
    ensures FromSource(es + [Arrive(p, at)], src)
    ensures
      var v := Store(Through(es, src, p, at), p);
      v.Stored? && v.frame == Built(es + [Arrive(p, at)], src, p.frame - 1)
  {
    hide FrameOk, Faithful, Store, PacketOf, NewFrame, Came, Own, Fresh;
    var k, e := p.frame - 1, Arrive(p, at);
    var sent, all := src.frames[k], es + [e];
    assert FromSource(all, src);
    FromSourceIsSender(es, src, k);
    FromSourceIsSender(all, src, k);
    OwnIsCame(es, src, k);
    OwnIsCame(all, src, k);
    OwnNext(es, e, src.session, k + 1);
    FirstNext(es, e, src, k);
    var first := FirstAt(all, src, k);
    FreshIs(src, k, first);
    var arrivals := Came(all, src, k);
    assert arrivals[..|arrivals| - 1] == Came(es, src, k);
    ReassembledNext(src.session, k + 1, Fresh(src, k, first), sent, Came(es, src, k), arrivals);
  }

  lemma OwnIsCame(es: seq<Event>, src: Source, k: nat)
    ensures Came(es, src, k) == Own(es, src.session, k + 1)
  {}

  lemma ReassembledNext(x: uint32, id: int, f: Frame, sent: Sent, some: seq<Arrival>, all: seq<Arrival>)
    requires FrameOk(f) && Faithful(f, sent) && Arrivals(sent, all) && all != [] && all[..|all| - 1] == some
    ensures Arrivals(sent, some) && (some == [] ==> Reassembled(x, id, f, sent, some) == f)
    ensures
      var h := Reassembled(x, id, f, sent, some);
      var a := all[|all| - 1];
      && Store(h, PacketOf(x, id, sent, a.group, a.shard)).Stored?
      && Reassembled(x, id, f, sent, all) == Store(h, PacketOf(x, id, sent, a.group, a.shard)).frame
  {
    hide FrameOk, Faithful, Store, PacketOf;
    var h, a := Reassembled(x, id, f, sent, some), all[|all| - 1];
    ArrivalStored(x, id, h, sent, a);
  }

  /** Anything else changes nothing of it. */
  lemma BuiltKept(es: seq<Event>, e: Event, src: Source, k: nat)
    requires SourceOk(src) && FromSource(es, src) && k < |src.frames| && FromSource(es + [e], src)
    requires !Brings(e, src.session, k + 1)
    ensures Came(es + [e], src, k) == Came(es, src, k)
    ensures Came(es, src, k) != [] ==> Built(es + [e], src, k) == Built(es, src, k)
    ensures Gathers(es + [e], src, k) <==> Gathers(es, src, k)
  {
    hide FrameOk, Faithful, Reassembled, NewFrame, Gathered, Brings;
    OwnNext(es, e, src.session, k + 1);
    FirstNext(es, e, src, k);
  }

  // ---------- How far delivery should be ----------

  /** No keyframe among the first frames. */
  predicate Needs(src: Source, d: nat)
    requires d <= |src.frames|
  {
    forall i | 0 <= i < d :: !src.frames[i].keyframe
  }

  /** Frame d is given to the decoder when it is complete. */
  predicate Wanted(src: Source, d: nat)
    requires d < |src.frames|
  {
    Shows(Needs(src, d), src.frames[d].keyframe)
  }

  /** How far a poll goes when frame d is due: up to an unfinished frame, or behind the first one it shows. */
  ghost function Reach(es: seq<Event>, src: Source, d: nat): (r: nat)
    requires d <= |src.frames|
    ensures d <= r <= |src.frames|
    decreases |src.frames| - d
  {
    if d == |src.frames| || !Gathers(es, src, d) then d
    else if Wanted(src, d) then d + 1
    else Reach(es, src, d + 1)
  }

  /** What the poll delivers. */
  ghost function Given(es: seq<Event>, src: Source, d: nat): Option<Delivery>
    requires d <= |src.frames|
    decreases |src.frames| - d
  {
    if d == |src.frames| || !Gathers(es, src, d) then None
    else if Wanted(src, d) then Some(AsSent(src.session, d + 1, src.frames[d]))
    else Given(es, src, d + 1)
  }

  /** The frame that is due after the events. */
  ghost function Due(es: seq<Event>, src: Source): (d: nat)
    ensures d <= |src.frames|
    decreases |es|
  {
    if es == [] then 0
    else
      var m := |es| - 1;
      var d := Due(es[..m], src);
      if es[m].Poll? then Reach(es[..m], src, d) else d
  }

  /** When delivery came to it. */
  ghost function Since(es: seq<Event>, src: Source): uint64
    decreases |es|
  {
    if es == [] then 0
    else
      var m := |es| - 1;
      var d, e := Due(es[..m], src), es[m];
      if (e.Poll? && Reach(es[..m], src, d) != d) || (e.Arrive? && NothingCame(es[..m])) then e.at
      else Since(es[..m], src)
  }

  /** Something newer than frame d has arrived. */
  ghost predicate NewerCame(es: seq<Event>, src: Source, d: nat) {
    exists k :: d < k < |src.frames| && Came(es, src, k) != []
  }

  /**
   * The poll does not find an unfinished frame for which delivery has waited 80 ms: since its first
   * datagram came, or since it became due if nothing has come of it.
   */
  ghost predicate InTime(es: seq<Event>, src: Source, d: nat, since: uint64, now: uint64)
    requires d <= |src.frames|
    decreases |src.frames| - d
  {
    if d < |src.frames| && Gathers(es, src, d) then Wanted(src, d) || InTime(es, src, d + 1, now, now)
    else
      NewerCame(es, src, d) ==>
        (now - if Came(es, src, d) != [] then FirstAt(es, src, d) else since) % 0x1_0000_0000_0000_0000 < 80000
  }

  /** The first datagram is one of frame 0; none comes sixteen frames or more ahead of the one due, or 2^30 behind. */
  ghost predicate Fits(es: seq<Event>, src: Source, e: Event) {
    var d := Due(es, src);
    match e
    case Garbage => true
    case Arrive(p, _) => (NothingCame(es) ==> p.frame == 1) && d - 0x4000_0000 < p.frame - 1 < d + 16
    case Poll(now) => InTime(es, src, d, Since(es, src), now)
  }

  ghost predicate AllFit(es: seq<Event>, src: Source) {
    forall i | 0 <= i < |es| :: Fits(es[..i], src, es[i])
  }

  // ---------- The receiver behind the events ----------

  /** Something has come, frame d is due since then, and the slots hold what has come of it and of later ones. */
  ghost predicate Going(s: Pipe, es: seq<Event>, src: Source, d: nat, since: uint64)
    requires SourceOk(src) && FromSource(es, src) && d <= |src.frames|
  {
    && s.session == src.session && s.haveNext && s.next == d + 1 && s.nextWait == since
    && s.needKeyframe == Needs(src, d)
    && s.haveNewest && d <= s.newest <= d + 16 && 1 <= s.newest <= |src.frames| && Came(es, src, s.newest - 1) != []
    && (forall k | 0 <= k < |src.frames| && Came(es, src, k) != [] :: k + 1 <= s.newest)
    && AllRight(s, es, src, d) && AllPlaced(s, es, src, d)
  }

  ghost predicate HeldRight(f: Frame, es: seq<Event>, src: Source, d: nat)
    requires SourceOk(src) && FromSource(es, src)
  {
    && d + 1 <= f.id <= |src.frames| && f.id <= d + 16
    && f == Built(es, src, f.id - 1) && Came(es, src, f.id - 1) != []
  }

  ghost predicate HasPlace(s: Pipe, src: Source, k: nat) { Placed(s, src.session, k + 1) }

  ghost predicate Placed(s: Pipe, session: uint32, id: int) { exists i :: Holds(s, i, session, id) }

  ghost predicate AllRight(s: Pipe, es: seq<Event>, src: Source, d: nat)
    requires SourceOk(src) && FromSource(es, src)
  {
    forall i | 0 <= i < |s.slots| && s.slots[i].Some? :: HeldRight(s.slots[i].value, es, src, d)
  }

  ghost predicate AllPlaced(s: Pipe, es: seq<Event>, src: Source, d: nat) {
    forall k | d <= k < |src.frames| && Came(es, src, k) != [] :: HasPlace(s, src, k)
  }

  /** Nothing but garbage has come. */
  ghost predicate Idle(s: Pipe) { s == INITIAL.(invalid := s.invalid) }

  ghost predicate Tracks(s: Pipe, es: seq<Event>, src: Source)
    requires SourceOk(src) && FromSource(es, src)
  {
    if NothingCame(es) then Idle(s) && Due(es, src) == 0 else Going(s, es, src, Due(es, src), Since(es, src))
  }

  // ---------- One poll ----------

  lemma PlaceOfDue(s: Pipe, es: seq<Event>, src: Source, d: nat, since: uint64) returns (i: nat)
    requires Valid(Unbounded, s) && SourceOk(src) && FromSource(es, src) && d <= |src.frames|
    requires Going(s, es, src, d, since)
    ensures i <= |s.slots| && FindNext(s.slots, s.next, 0) == i
    ensures i < |s.slots| <==> d < |src.frames| && Came(es, src, d) != []
    ensures i < |s.slots| ==> Holds(s, i, src.session, d + 1) && s.slots[i].value == Built(es, src, d)
  {
    hide FrameOk, Built, Came, Distinct, AllRight, AllPlaced, HasPlace, Needs;
    i := FindNext(s.slots, s.next, 0);
    if i < |s.slots| { RightThere(s, es, src, d, i); }
    if d < |src.frames| && Came(es, src, d) != [] { PlacedThere(s, es, src, d); }
  }

  lemma RightThere(s: Pipe, es: seq<Event>, src: Source, d: nat, i: nat)
    requires SourceOk(src) && FromSource(es, src) && AllRight(s, es, src, d)
    requires i < |s.slots| && s.slots[i].Some?
    ensures
      var f := s.slots[i].value;
      && d + 1 <= f.id <= |src.frames| && f.id <= d + 16
      && f == Built(es, src, f.id - 1) && Came(es, src, f.id - 1) != [] && f.session == src.session
  {
    hide FrameOk, Built, Came;
    assert HeldRight(s.slots[i].value, es, src, d);
    BuiltMarks(es, src, s.slots[i].value.id - 1);
  }

  lemma PlacedThere(s: Pipe, es: seq<Event>, src: Source, d: nat)
    requires d < |src.frames| && Came(es, src, d) != [] && AllPlaced(s, es, src, d)
    ensures FindNext(s.slots, d + 1, 0) < |s.slots|
  {
    hide Came;
    assert HasPlace(s, src, d);
    FindNextFinds(s.slots, d + 1, 0);
  }

  lemma NothingToGather(es: seq<Event>, src: Source, k: nat)
    requires SourceOk(src) && k < |src.frames| && Came(es, src, k) == []
    ensures !Gathers(es, src, k)
  {
    hide Gathered, Came, Own;
    OwnIsCame(es, src, k);
    FrameIsSendable(src, k);
    NothingGathered(src.frames[k]);
  }

  /** What the poll's first turn is. */
  lemma TurnIs(s: Pipe, es: seq<Event>, src: Source, d: nat, since: uint64, now: uint64)
    requires Valid(Unbounded, s) && SourceOk(src) && FromSource(es, src) && d <= |src.frames|
    requires Going(s, es, src, d, since) && InTime(es, src, d, since, now)
    ensures
      if d == |src.frames| || !Gathers(es, src, d) then TurnOf(Unbounded, s, now) == Waits
      else
        var i := FindNext(s.slots, s.next, 0);
        && i < |s.slots| && Holds(s, i, src.session, d + 1) && s.slots[i].value == Built(es, src, d)
        && TurnOf(Unbounded, s, now) == if Wanted(src, d) then Takes(i) else Discards(i)
  {
    hide FrameOk, Faithful, Built, Came, Distinct, Gathers, Complete, FirstAt, HasPlace, HeldRight;
    var i := PlaceOfDue(s, es, src, d, since);
    if d < |src.frames| {
      BuiltMarks(es, src, d);
      BuiltIsComplete(es, src, d);
      if Came(es, src, d) == [] { NothingToGather(es, src, d); }
    }
    if d == |src.frames| || !Gathers(es, src, d) {
      NotLate(s, es, src, d, since, now);
    }
  }

  lemma NotLate(s: Pipe, es: seq<Event>, src: Source, d: nat, since: uint64, now: uint64)
    requires Valid(Unbounded, s) && SourceOk(src) && FromSource(es, src) && d <= |src.frames|
    requires Going(s, es, src, d, since) && InTime(es, src, d, since, now)
    requires d == |src.frames| || !Gathers(es, src, d)
    ensures !Late(Unbounded, s, FindNext(s.slots, s.next, 0), now)
  {
    hide FrameOk, Faithful, Built, Came, Distinct, Gathers, Complete, FirstAt, HasPlace, HeldRight;
    var i := PlaceOfDue(s, es, src, d, since);
    if d < |src.frames| { BuiltMarks(es, src, d); }
    if s.newest > s.next { assert NewerCame(es, src, d); }
  }

  /** Behind a frame that is passed the next one is due. */
  lemma GoesOn(s: Pipe, es: seq<Event>, src: Source, d: nat, since: uint64, i: nat, now: uint64, need: bool)
    requires Valid(Unbounded, s) && SourceOk(src) && FromSource(es, src) && d < |src.frames|
    requires Going(s, es, src, d, since) && Holds(s, i, src.session, d + 1) && Came(es, src, d) != []
    requires need == Needs(src, d + 1)
    ensures Going(Discard(Unbounded, s, i, now).(needKeyframe := need), es, src, d + 1, now)
  {
    hide FrameOk, Built, Came, Needs, AllRight, AllPlaced, Distinct, SlotOk;
    var t := Discard(Unbounded, s, i, now).(needKeyframe := need);
    RightBehind(s, t, es, src, d, i);
    PlacedBehind(s, t, es, src, d, i);
  }

  lemma RightBehind(s: Pipe, t: Pipe, es: seq<Event>, src: Source, d: nat, i: nat)
    requires Valid(Unbounded, s) && SourceOk(src) && FromSource(es, src) && AllRight(s, es, src, d)
    requires Holds(s, i, src.session, d + 1) && t.slots == s.slots[i := None]
    ensures AllRight(t, es, src, d + 1)
  {
    hide FrameOk, Built, Came;
    forall j | 0 <= j < |t.slots| && t.slots[j].Some? ensures HeldRight(t.slots[j].value, es, src, d + 1) {
      assert HeldRight(s.slots[j].value, es, src, d);
    }
  }

  lemma PlacedBehind(s: Pipe, t: Pipe, es: seq<Event>, src: Source, d: nat, i: nat)
    requires AllPlaced(s, es, src, d) && Holds(s, i, src.session, d + 1) && t.slots == s.slots[i := None]
    ensures AllPlaced(t, es, src, d + 1)
  {
    hide Came;
    forall k | d + 1 <= k < |src.frames| && Came(es, src, k) != [] ensures HasPlace(t, src, k) {
      assert HasPlace(s, src, k);
      var j :| Holds(s, j, src.session, k + 1);
      assert Holds(t, j, src.session, k + 1);
    }
  }

  lemma NeedsNext(src: Source, d: nat)
    requires d < |src.frames|
    ensures Needs(src, d + 1) <==> Needs(src, d) && !src.frames[d].keyframe
  {}

  /** A poll moves delivery as far as it should be and delivers what it should. */
  lemma {:induction false} PollFollows(s: Pipe, es: seq<Event>, src: Source, d: nat, since: uint64, now: uint64)
    requires Valid(Unbounded, s) && SourceOk(src) && FromSource(es, src) && d <= |src.frames|
    requires Going(s, es, src, d, since) && InTime(es, src, d, since, now)
    ensures
      var (t, v), r := Read(Unbounded, s, now), Reach(es, src, d);
      Going(t, es, src, r, if r == d then since else now) && v == Given(es, src, d)
    decreases |src.frames| - d
  {
    hide FrameOk, Faithful, Built, Came, Distinct, Gathers, Complete, FirstAt, HasPlace, HeldRight, Read, TurnOf,
         Deliver, Going, Needs, Discard;
    TurnIs(s, es, src, d, since, now);
    ReadUnfolds(Unbounded, s, now);
    if d < |src.frames| && Gathers(es, src, d) {
      if Came(es, src, d) == [] { NothingToGather(es, src, d); }
      var i := FindNext(s.slots, s.next, 0);
      NeedsNext(src, d);
      NeedIs(s, es, src, d, since, i, now);
      GoesOn(s, es, src, d, since, i, now, Needs(src, d + 1));
      if Wanted(src, d) {
        BuiltMarks(es, src, d);
        BuiltIsComplete(es, src, d);
        CompleteDelivers(Built(es, src, d), src.frames[d]);
      } else {
        TakenValid(Unbounded, s, i, now);
        PollFollows(Discard(Unbounded, s, i, now), es, src, d + 1, now, now);
      }
    }
  }

  lemma NeedIs(s: Pipe, es: seq<Event>, src: Source, d: nat, since: uint64, i: nat, now: uint64)
    requires SourceOk(src) && FromSource(es, src) && d < |src.frames| && Going(s, es, src, d, since) && i < |s.slots|
    requires Needs(src, d + 1) <==> Needs(src, d) && !src.frames[d].keyframe
    ensures Wanted(src, d) ==> !Needs(src, d + 1)
    ensures !Wanted(src, d) ==>
      Discard(Unbounded, s, i, now).(needKeyframe := Needs(src, d + 1)) == Discard(Unbounded, s, i, now)
  {
    hide Came, HasPlace, HeldRight;
  }

  // ---------- One datagram ----------

  /** What has come of all frames but one is the same. */
  ghost predicate SameBesides(es: seq<Event>, fs: seq<Event>, src: Source, j: int)
    requires SourceOk(src) && FromSource(es, src) && FromSource(fs, src)
  {
    forall k | 0 <= k < |src.frames| && k != j ::
      Came(fs, src, k) == Came(es, src, k) && (Came(es, src, k) != [] ==> Built(fs, src, k) == Built(es, src, k))
  }

  lemma NextIsSame(es: seq<Event>, e: Event, src: Source)
    requires SourceOk(src) && FromSource(es, src) && (e.Arrive? ==> OfFrame(e.packet, src))
    ensures FromSource(es + [e], src)
    ensures SameBesides(es, es + [e], src, if e.Arrive? then e.packet.frame - 1 else -1)
    ensures forall k | 0 <= k < |src.frames| && Came(es, src, k) != [] :: Came(es + [e], src, k) != []
    ensures e.Arrive? ==> Came(es + [e], src, e.packet.frame - 1) != []
  {
    hide Own, Built, IsShardOf;
    assert FromSource(es + [e], src);
    forall k | 0 <= k < |src.frames| ensures Came(es, src, k) != [] ==> Came(es + [e], src, k) != [] {
      OwnNext(es, e, src.session, k + 1);
    }
    if e.Arrive? { OwnNext(es, e, src.session, e.packet.frame); }
    forall k | 0 <= k < |src.frames| && k != (if e.Arrive? then e.packet.frame - 1 else -1)
      ensures Came(es + [e], src, k) == Came(es, src, k)
      ensures Came(es, src, k) != [] ==> Built(es + [e], src, k) == Built(es, src, k)
    {
      BuiltKept(es, e, src, k);
    }
  }

  lemma RightStays(s: Pipe, es: seq<Event>, fs: seq<Event>, src: Source, d: nat, j: int)
    requires SourceOk(src) && FromSource(es, src) && FromSource(fs, src) && SameBesides(es, fs, src, j)
    requires AllRight(s, es, src, d)
    requires forall m | 0 <= m < |s.slots| && s.slots[m].Some? :: s.slots[m].value.id != j + 1
    ensures AllRight(s, fs, src, d)
  {
    hide Came, Built, FrameOk;
    forall m | 0 <= m < |s.slots| && s.slots[m].Some? ensures HeldRight(s.slots[m].value, fs, src, d) {
      assert HeldRight(s.slots[m].value, es, src, d);
      assert Came(fs, src, s.slots[m].value.id - 1) == Came(es, src, s.slots[m].value.id - 1);
    }
  }

  lemma RightStored(s: Pipe, t: Pipe, es: seq<Event>, fs: seq<Event>, src: Source, d: nat, i: nat, j: nat)
    requires SourceOk(src) && FromSource(es, src) && FromSource(fs, src) && SameBesides(es, fs, src, j)
    requires AllRight(s, es, src, d) && i < |s.slots| && d <= j < |src.frames| && j < d + 16 && Came(fs, src, j) != []
    requires forall m | 0 <= m < |s.slots| && m != i && s.slots[m].Some? :: s.slots[m].value.id != j + 1
    requires t.slots == s.slots[i := Some(Built(fs, src, j))]
    ensures AllRight(t, fs, src, d)
  {
    hide Came, Built, FrameOk;
    BuiltMarks(fs, src, j);
    forall m | 0 <= m < |t.slots| && t.slots[m].Some? ensures HeldRight(t.slots[m].value, fs, src, d) {
      if m != i {
        assert HeldRight(s.slots[m].value, es, src, d);
        assert Came(fs, src, s.slots[m].value.id - 1) == Came(es, src, s.slots[m].value.id - 1);
      }
    }
  }

  /** A datagram older than the frame that is due changes nothing. */
  lemma OldFollows(s: Pipe, es: seq<Event>, src: Source, d: nat, since: uint64, p: Packet, at: uint64)
    requires Valid(Unbounded, s) && SourceOk(src) && FromSource(es, src) && d <= |src.frames|
    requires Going(s, es, src, d, since) && OfFrame(p, src) && Decoded(p) && p.frame <= d
    ensures FromSource(es + [Arrive(p, at)], src) && Accept(Unbounded, s, p, at) == s
    ensures Going(s, es + [Arrive(p, at)], src, d, since)
  {
    hide Came, Built, FrameOk, Distinct, SlotOk, Place, IsShardOf, AllRight, AllPlaced, Needs;
    var fs := es + [Arrive(p, at)];
    NextIsSame(es, Arrive(p, at), src);
    Further(s, s, es, fs, src, d, since, p.frame - 1);
    NoneOlder(s, es, src, d, p.frame);
    RightStays(s, es, fs, src, d, p.frame - 1);
  }

  lemma NoneOlder(s: Pipe, es: seq<Event>, src: Source, d: nat, id: int)
    requires SourceOk(src) && FromSource(es, src) && AllRight(s, es, src, d) && id <= d
    ensures forall m | 0 <= m < |s.slots| && s.slots[m].Some? :: s.slots[m].value.id != id
  {
    hide Came, Built;
    forall m | 0 <= m < |s.slots| && s.slots[m].Some? ensures s.slots[m].value.id != id {
      assert HeldRight(s.slots[m].value, es, src, d);
    }
  }

  /** What has come and where it is kept, when something of frame j comes besides. */
  lemma Further(s: Pipe, t: Pipe, es: seq<Event>, fs: seq<Event>, src: Source, d: nat, since: uint64, j: int)
    requires SourceOk(src) && FromSource(es, src) && FromSource(fs, src) && d <= |src.frames|
    requires SameBesides(es, fs, src, j) && Going(s, es, src, d, since)
    requires forall k | 0 <= k < |src.frames| && Came(es, src, k) != [] :: Came(fs, src, k) != []
    requires forall k | d <= k < |src.frames| && HasPlace(s, src, k) :: HasPlace(t, src, k)
    requires d <= j < |src.frames| ==> HasPlace(t, src, j)
    ensures AllPlaced(t, fs, src, d) && Came(fs, src, s.newest - 1) != []
    ensures forall k | 0 <= k < |src.frames| && Came(fs, src, k) != [] :: k == j || k + 1 <= s.newest
  {
    hide Came, Built, HasPlace, AllRight, Needs;
  }

  // ---------- There is a slot ----------

  function IdsOf(slots: seq<Option<Frame>>): set<int>
    requires forall i | 0 <= i < |slots| :: slots[i].Some?
  {
    set i | 0 <= i < |slots| :: slots[i].value.id
  }

  lemma {:induction false} DistinctIds(slots: seq<Option<Frame>>)
    requires (forall i | 0 <= i < |slots| :: slots[i].Some?) && Distinct(slots)
    ensures |IdsOf(slots)| == |slots|
  {
    if slots != [] {
      var m := |slots| - 1;
      DistinctIds(slots[..m]);
      assert IdsOf(slots) == IdsOf(slots[..m]) + {slots[m].value.id};
    }
  }

  function Numbers(lo: int, n: nat): set<int> { if n == 0 then {} else Numbers(lo, n - 1) + {lo + n - 1} }

  lemma {:induction false} NumbersAre(lo: int, n: nat)
    ensures |Numbers(lo, n)| == n && forall i :: i in Numbers(lo, n) <==> lo <= i < lo + n
  {
    if n > 0 { NumbersAre(lo, n - 1); }
  }

  /** Sixteen slots cannot all be taken by other frames of the sixteen that may be open. */
  lemma SlotIsLeft(n: Numbering, s: Pipe, p: Packet, lo: int)
    requires Valid(n, s) && s.session == p.session && lo <= p.frame < lo + 16
    requires forall i | 0 <= i < |s.slots| && s.slots[i].Some? :: lo <= s.slots[i].value.id < lo + 16
    ensures SlotFor(s, p) < |s.slots|
  {
    hide FrameOk, SlotFor, SlotOk, Numbers;
    SlotForFinds(n, s, p);
    if SlotFor(s, p) == |s.slots| {
      DistinctIds(s.slots);
      NumbersAre(lo, 16);
      assert IdsOf(s.slots) <= Numbers(lo, 16) - {p.frame};
      Smaller(IdsOf(s.slots), Numbers(lo, 16) - {p.frame});
    }
  }

  lemma Smaller(a: set<int>, b: set<int>)
    requires a <= b
    ensures |a| <= |b|
  {
    assert a + (b - a) == b;
  }

  // ---------- A datagram that is stored ----------

  lemma StoredAccept(s: Pipe, p: Packet, at: uint64, f: Frame)
    requires Valid(Unbounded, s) && Decoded(p) && s.session == p.session && s.haveNext && s.next <= p.frame
    requires SlotFor(s, p) < |s.slots| && f == Before(s, SlotFor(s, p), p, at) && Store(f, p).Stored?
    ensures
      var t, k := Accept(Unbounded, s, p, at), SlotFor(s, p);
      && t.slots == s.slots[k := Some(Store(f, p).frame)]
      && t.session == s.session && t.next == s.next && t.haveNext && t.nextWait == s.nextWait
      && t.needKeyframe == s.needKeyframe && t.haveNewest
      && t.newest == if !s.haveNewest || p.frame > s.newest then p.frame else s.newest
  {
    hide FrameOk, Store, SlotFor, Distinct, SlotOk, Before;
  }

  /** The frame through which a datagram is stored is the one put together so far. */
  lemma ThroughWhich(s: Pipe, es: seq<Event>, src: Source, d: nat, p: Packet, at: uint64)
    requires Valid(Unbounded, s) && SourceOk(src) && FromSource(es, src) && s.session == src.session
    requires AllRight(s, es, src, d) && AllPlaced(s, es, src, d)
    requires OfFrame(p, src) && Decoded(p) && d < p.frame && SlotFor(s, p) < |s.slots|
    ensures
      Before(s, SlotFor(s, p), p, at) == Through(es, src, p, at)
  {
    hide FrameOk, Distinct, SlotOk, Came, Built, NewFrame, SlotFor, IsShardOf;
    FreshIsNew(src, p, at);
    var k, i := p.frame - 1, SlotFor(s, p);
    SlotForFinds(Unbounded, s, p);
    if s.slots[i].Some? { RightThere(s, es, src, d, i); }
    if Came(es, src, k) != [] { assert HasPlace(s, src, k); }
  }

  lemma NewFollows(s: Pipe, es: seq<Event>, src: Source, d: nat, since: uint64, p: Packet, at: uint64)
    requires Valid(Unbounded, s) && SourceOk(src) && FromSource(es, src) && d <= |src.frames|
    requires Going(s, es, src, d, since) && OfFrame(p, src) && Decoded(p) && d < p.frame <= d + 16
    ensures FromSource(es + [Arrive(p, at)], src)
    ensures Going(Accept(Unbounded, s, p, at), es + [Arrive(p, at)], src, d, since)
  {
    hide Came, Built, FrameOk, Distinct, SlotOk, Accept, IsShardOf, AllRight, AllPlaced, Needs, SlotFor, Store, Before,
         NewFrame;
    var fs, j := es + [Arrive(p, at)], p.frame - 1;
    NextIsSame(es, Arrive(p, at), src);
    IdsWithin(s, es, src, d);
    SlotIsLeft(Unbounded, s, p, d + 1);
    SlotForFinds(Unbounded, s, p);
    ThroughWhich(s, es, src, d, p, at);
    BuiltNext(es, src, p, at);
    var i := SlotFor(s, p);
    var f := Before(s, i, p, at);
    StoredAccept(s, p, at, f);
    var t := Accept(Unbounded, s, p, at);
    RightStored(s, t, es, fs, src, d, i, j);
    BuiltMarks(fs, src, j);
    PlacesStay(s, t, src, d, i, j, Built(fs, src, j));
    Further(s, t, es, fs, src, d, since, j);
  }

  lemma IdsWithin(s: Pipe, es: seq<Event>, src: Source, d: nat)
    requires SourceOk(src) && FromSource(es, src) && AllRight(s, es, src, d)
    ensures forall i | 0 <= i < |s.slots| && s.slots[i].Some? :: d + 1 <= s.slots[i].value.id < d + 1 + 16
  {
    hide Came, Built;
    forall i | 0 <= i < |s.slots| && s.slots[i].Some? ensures d + 1 <= s.slots[i].value.id < d + 1 + 16 {
      assert HeldRight(s.slots[i].value, es, src, d);
    }
  }

  lemma PlacesStay(s: Pipe, t: Pipe, src: Source, d: nat, i: nat, j: nat, f: Frame)
    requires i < |s.slots| && t.slots == s.slots[i := Some(f)] && f.session == src.session && f.id == j + 1
    requires s.slots[i].Some? ==> s.slots[i].value.id == j + 1
    ensures HasPlace(t, src, j)
    ensures forall k | d <= k < |src.frames| && HasPlace(s, src, k) :: HasPlace(t, src, k)
  {
    assert Holds(t, i, src.session, j + 1);
    forall k | d <= k < |src.frames| && HasPlace(s, src, k) ensures HasPlace(t, src, k) {
      var m :| Holds(s, m, src.session, k + 1);
      assert Holds(t, m, src.session, k + 1);
    }
  }

  // ---------- Any event ----------

  /** The first datagram of the session takes the first slot. */
  lemma FirstFollows(s: Pipe, es: seq<Event>, src: Source, p: Packet, at: uint64)
    requires SourceOk(src) && FromSource(es, src) && NothingCame(es) && Idle(s)
    requires OfFrame(p, src) && Decoded(p) && p.frame == 1
    ensures FromSource(es + [Arrive(p, at)], src)
    ensures Going(Accept(Unbounded, s, p, at), es + [Arrive(p, at)], src, 0, at)
  {
    hide Came, Built, FrameOk, Distinct, SlotOk, IsShardOf, AllRight, AllPlaced, SlotFor, Store, NewFrame;
    var fs := es + [Arrive(p, at)];
    NextIsSame(es, Arrive(p, at), src);
    NothingIsCame(es, src);
    BuiltNext(es, src, p, at);
    FreshIsNew(src, p, at);
    NewFrameOk(p, at);
    var u := Enter(s, p.session).(next := 1, nextWait := at, haveNext := true);
    NoneSlotFor(u, p);
    var t := Accept(Unbounded, s, p, at);
    assert Before(u, 0, p, at) == NewFrame(p, at);
    assert t.slots == u.slots[0 := Some(Built(fs, src, 0))];
    NoneRight(u, es, src);
    RightStored(u, t, es, fs, src, 0, 0, 0);
    BuiltMarks(fs, src, 0);
    PlacesStay(u, t, src, 0, 0, 0, Built(fs, src, 0));
    OnlyFirstPlaced(t, es, fs, src);
  }

  lemma NothingIsCame(es: seq<Event>, src: Source)
    requires NothingCame(es)
    ensures forall k | 0 <= k < |src.frames| :: Came(es, src, k) == []
  {
    forall k | 0 <= k < |src.frames| ensures Came(es, src, k) == [] { NothingIsOwn(es, src.session, k + 1); }
  }

  lemma NoneSlotFor(s: Pipe, p: Packet)
    requires s.slots == NoFrames(FRAME_SLOTS)
    ensures SlotFor(s, p) == 0
  {
    FindFrameFinds(s.slots, p.session, p.frame, 0);
  }

  lemma NoneRight(s: Pipe, es: seq<Event>, src: Source)
    requires SourceOk(src) && FromSource(es, src) && s.slots == NoFrames(FRAME_SLOTS)
    ensures AllRight(s, es, src, 0)
  {}

  lemma OnlyFirstPlaced(t: Pipe, es: seq<Event>, fs: seq<Event>, src: Source)
    requires SourceOk(src) && FromSource(es, src) && FromSource(fs, src) && SameBesides(es, fs, src, 0)
    requires (forall k | 0 <= k < |src.frames| :: Came(es, src, k) == []) && HasPlace(t, src, 0)
    ensures AllPlaced(t, fs, src, 0)
    ensures forall k | 0 <= k < |src.frames| && Came(fs, src, k) != [] :: k == 0
  {
    hide Came, Built, HasPlace;
  }

  /** Garbage and polls bring nothing. */
  lemma OthersFollow(s: Pipe, t: Pipe, es: seq<Event>, e: Event, src: Source, d: nat, since: uint64)
    requires SourceOk(src) && FromSource(es, src) && d <= |src.frames| && Going(s, es, src, d, since)
    requires !e.Arrive? && t == s.(invalid := t.invalid)
    ensures FromSource(es + [e], src) && Going(t, es + [e], src, d, since)
  {
    hide Came, Built, IsShardOf, Needs;
    NextIsSame(es, e, src);
    forall i | 0 <= i < |t.slots| && t.slots[i].Some? ensures HeldRight(t.slots[i].value, es + [e], src, d) {
      assert HeldRight(s.slots[i].value, es, src, d);
    }
    forall k | d <= k < |src.frames| && Came(es + [e], src, k) != [] ensures HasPlace(t, src, k) {
      assert HasPlace(s, src, k);
      var i :| Holds(s, i, src.session, k + 1);
      assert Holds(t, i, src.session, k + 1);
    }
  }

  lemma DueNext(es: seq<Event>, e: Event, src: Source)
    ensures Due(es + [e], src) == if e.Poll? then Reach(es, src, Due(es, src)) else Due(es, src)
    ensures
      var moved := (e.Poll? && Reach(es, src, Due(es, src)) != Due(es, src)) || (e.Arrive? && NothingCame(es));
      Since(es + [e], src) == if moved then e.at else Since(es, src)
    ensures NothingCame(es + [e]) <==> NothingCame(es) && !e.Arrive?
  {
    hide Reach;
    var all := es + [e];
    assert all[..|es|] == es && all[|es|] == e;
    assert forall i | 0 <= i < |es| :: all[i] == es[i];
  }

  /** While nothing has come no frame can be due but the first. */
  lemma NothingReached(es: seq<Event>, src: Source)
    requires SourceOk(src) && NothingCame(es)
    ensures Reach(es, src, 0) == 0 && Given(es, src, 0) == None
  {
    hide Came, Gathers;
    NothingIsCame(es, src);
    if 0 < |src.frames| { NothingToGather(es, src, 0); }
  }

  lemma IdlePoll(s: Pipe, now: uint64)
    requires Idle(s)
    ensures Read(Unbounded, s, now) == (s, None)
  {
    hide Read;
    ReadUnfolds(Unbounded, s, now);
  }

  /** What an event delivers. */
  ghost function GivenBy(es: seq<Event>, src: Source, e: Event): Option<Delivery> {
    if e.Poll? then Given(es, src, Due(es, src)) else None
  }

  /** Every event does what it should. */
  lemma EventFollows(s: Pipe, es: seq<Event>, e: Event, src: Source)
    requires Valid(Unbounded, s) && SourceOk(src) && FromSource(es, src) && Tracks(s, es, src)
    requires EventOk(Unbounded, e) && (e.Arrive? ==> OfFrame(e.packet, src)) && Fits(es, src, e)
    ensures FromSource(es + [e], src)
    ensures
      var (t, v) := Step(Unbounded, s, e);
      Tracks(t, es + [e], src) && v == GivenBy(es, src, e)
  {
    hide Came, Built, FrameOk, Distinct, SlotOk, IsShardOf, Going, Reach, Given, InTime, Read, Accept, Due, Since;
    NextIsSame(es, e, src);
    DueNext(es, e, src);
    var d, since := Due(es, src), Since(es, src);
    match e {
      case Garbage => if !NothingCame(es) { OthersFollow(s, Step(Unbounded, s, e).0, es, e, src, d, since); }
      case Arrive(p, at) =>
        if NothingCame(es) {
          FirstFollows(s, es, src, p, at);
        } else if p.frame <= d {
          OldFollows(s, es, src, d, since, p, at);
        } else {
          NewFollows(s, es, src, d, since, p, at);
        }
      case Poll(now) =>
        if NothingCame(es) {
          NothingReached(es, src);
          IdlePoll(s, now);
        } else {
          PollFollows(s, es, src, d, since, now);
          var t, r := Read(Unbounded, s, now).0, Reach(es, src, d);
          OthersFollow(t, t, es, e, src, r, if r == d then since else now);
        }
    }
  }

  // ---------- All events ----------

  /** The numbers compared are close to each other. */
  lemma TracksInWindow(s: Pipe, es: seq<Event>, src: Source, e: Event)
    requires Valid(Unbounded, s) && SourceOk(src) && FromSource(es, src) && Tracks(s, es, src)
    requires (e.Arrive? ==> OfFrame(e.packet, src)) && Fits(es, src, e)
    ensures InWindow(s, e)
  {
    hide Came, Built, FrameOk, Distinct, SlotOk, IsShardOf, AllPlaced, InTime, Due, Since, AllRight;
    if !NothingCame(es) { IdsWithin(s, es, src, Due(es, src)); }
  }

  lemma WatchedFront(x: uint32, k: nat, f: Sent, rest: seq<Sent>, need: bool)
    ensures Watched(x, k, [f] + rest, need)
         == Maybe(Shows(need, f.keyframe), AsSent(x, k + 1, f)) + Watched(x, k + 1, rest, need && !f.keyframe)
    ensures Watched(x, k, [], need) == []
  {
    hide AsSent, Maybe, Shows;
    assert ([f] + rest)[0] == f && ([f] + rest)[1..] == rest;
  }

  lemma {:induction false} WatchedBehind(x: uint32, k: nat, frames: seq<Sent>, f: Sent, need: bool)
    ensures
      var needed := need && forall i | 0 <= i < |frames| :: !frames[i].keyframe;
      Watched(x, k, frames + [f], need)
        == Watched(x, k, frames, need) + Maybe(Shows(needed, f.keyframe), AsSent(x, k + |frames| + 1, f))
    decreases |frames|
  {
    hide AsSent, Maybe, Shows, Watched;
    if frames == [] {
      WatchedFront(x, k, f, [], need);
      WatchedFront(x, k + 1, f, [], need && !f.keyframe);
      assert [] + [f] == [f] + [] == [f];
    } else {
      var g, rest := frames[0], frames[1..];
      assert frames == [g] + rest && frames + [f] == [g] + (rest + [f]);
      WatchedFront(x, k, g, rest, need);
      WatchedFront(x, k, g, rest + [f], need);
      WatchedBehind(x, k + 1, rest, f, need && !g.keyframe);
      NoneBehind(frames);
      var needed := need && forall i | 0 <= i < |frames| :: !frames[i].keyframe;
      Regrouped(Maybe(Shows(need, g.keyframe), AsSent(x, k + 1, g)), Watched(x, k + 1, rest, need && !g.keyframe),
                Maybe(Shows(needed, f.keyframe), AsSent(x, k + |frames| + 1, f)));
    }
  }

  lemma NoneBehind(frames: seq<Sent>)
    requires frames != []
    ensures (forall i | 0 <= i < |frames| :: !frames[i].keyframe) <==>
            !frames[0].keyframe && forall i | 0 <= i < |frames[1..]| :: !frames[1..][i].keyframe
  {
    assert forall i | 1 <= i < |frames| :: frames[i] == frames[1..][i - 1];
  }

  /** What is shown of the first d frames. */
  function Until(src: Source, d: nat): seq<Delivery>
    requires d <= |src.frames|
  {
    Watched(src.session, 0, src.frames[..d], true)
  }

  lemma UntilNext(src: Source, d: nat)
    requires d < |src.frames|
    ensures Until(src, d + 1) == Until(src, d) + Maybe(Wanted(src, d), AsSent(src.session, d + 1, src.frames[d]))
  {
    hide Watched, AsSent;
    var frames := src.frames[..d];
    assert src.frames[..d + 1] == frames + [src.frames[d]];
    assert forall i | 0 <= i < d :: frames[i] == src.frames[i];
    WatchedBehind(src.session, 0, frames, src.frames[d], true);
  }

  lemma {:induction false} UntilReached(es: seq<Event>, src: Source, d: nat)
    requires d <= |src.frames|
    ensures
      var v := Given(es, src, d);
      Until(src, Reach(es, src, d)) == Until(src, d) + if v.Some? then [v.value] else []
    decreases |src.frames| - d
  {
    hide Until, Gathers, Wanted, AsSent;
    if d < |src.frames| && Gathers(es, src, d) {
      UntilNext(src, d);
      if !Wanted(src, d) { UntilReached(es, src, d + 1); }
    }
  }

  lemma SourceEventsOk(es: seq<Event>, src: Source)
    requires SourceOk(src) && FromSource(es, src)
    ensures EventsOk(Unbounded, es)
  {
    hide OfFrame, Decoded;
    forall i | 0 <= i < |es| ensures EventOk(Unbounded, es[i]) {
      if es[i].Arrive? { OfFrameDecodes(es[i].packet, src); }
    }
  }

  lemma FrontFits(es: seq<Event>, src: Source)
    requires es != [] && FromSource(es, src) && AllFit(es, src)
    ensures
      var m := |es| - 1;
      && FromSource(es[..m], src) && AllFit(es[..m], src) && Fits(es[..m], src, es[m])
      && (es[m].Arrive? ==> OfFrame(es[m].packet, src)) && es == es[..m] + [es[m]]
  {
    hide Fits, OfFrame;
    var m := |es| - 1;
    forall i | 0 <= i < m ensures Fits(es[..m][..i], src, es[..m][i]) { assert es[..m][..i] == es[..i]; }
  }

  /** A run does what it should. */
  lemma {:induction false} RunFollows(es: seq<Event>, src: Source)
    requires SourceOk(src) && FromSource(es, src) && AllFit(es, src)
    ensures EventsOk(Unbounded, es) && Valid(Unbounded, INITIAL)
    ensures
      var (t, shown) := Effect(INITIAL, es);
      Tracks(t, es, src) && shown == Until(src, Due(es, src)) && RunInWindow(INITIAL, es)
    decreases |es|
  {
    hide Tracks, FrameOk, SlotOk, Distinct, Effect, RunInWindow, InWindow, Step, Fits, OfFrame, Until, Reach, Given,
         AllFit, FromSource, EventOk;
    InitialValid(Unbounded);
    SourceEventsOk(es, src);
    if es == [] {
      EffectNone(INITIAL);
      NothingTracked(src);
    } else {
      FrontFits(es, src);
      var m := |es| - 1;
      var e, before := es[m], es[..m];
      RunFollows(before, src);
      var s := Effect(INITIAL, before).0;
      assert EventOk(Unbounded, e) by { EventAt(es, m); }
      EventFollows(s, before, e, src);
      TracksInWindow(s, before, src, e);
      EffectSum(INITIAL, before, [e]);
      assert [e] + [] == [e];
      EffectFront(s, e, []);
      StepValid(Unbounded, s, e);
      EffectNone(Step(Unbounded, s, e).0);
      UntilReached(before, src, Due(before, src));
      DueNext(before, e, src);
      var v := Step(Unbounded, s, e).1;
      assert (if v.Some? then [v.value] else []) + [] == if v.Some? then [v.value] else [];
    }
  }

  lemma EventAt(es: seq<Event>, i: nat)
    requires EventsOk(Unbounded, es) && i < |es|
    ensures EventOk(Unbounded, es[i])
  {}

  lemma NothingTracked(src: Source)
    requires SourceOk(src)
    ensures FromSource([], src) && Tracks(INITIAL, [], src) && Until(src, Due([], src)) == []
  {
    assert src.frames[..0] == [];
  }

  // ---------- When everything has come ----------

  ghost predicate AllGather(es: seq<Event>, src: Source) { forall k | 0 <= k < |src.frames| :: Gathers(es, src, k) }

  lemma {:induction false} GatheredInTime(es: seq<Event>, src: Source, d: nat, since: uint64, now: uint64)
    requires AllGather(es, src) && d <= |src.frames|
    ensures InTime(es, src, d, since, now)
    decreases |src.frames| - d
  {
    hide Gathers, Wanted, Came, FirstAt;
    if d < |src.frames| { GatheredInTime(es, src, d + 1, now, now); }
  }

  lemma {:induction false} GatheredReach(es: seq<Event>, src: Source, d: nat)
    requires AllGather(es, src) && d <= |src.frames|
    ensures d < |src.frames| ==> Reach(es, src, d) > d
  {
    hide Gathers, Wanted;
  }

  lemma PollsBehind(times: seq<uint64>, now: uint64)
    ensures Polls(times + [now]) == Polls(times) + [Poll(now)]
    decreases |times|
  {
    var all := times + [now];
    if times == [] {
      assert all[1..] == [];
    } else {
      assert all[0] == times[0] && all[1..] == times[1..] + [now];
      PollsBehind(times[1..], now);
    }
  }

  /** Each further poll takes delivery at least one frame on. */
  lemma {:induction false} PollsReachAll(body: seq<Event>, src: Source, times: seq<uint64>)
    requires SourceOk(src) && FromSource(body, src) && AllFit(body, src) && AllGather(body, src)
    ensures
      var es := body + Polls(times);
      && FromSource(es, src) && AllFit(es, src) && AllGather(es, src)
      && (Due(es, src) == |src.frames| || Due(es, src) >= |times|)
    decreases |times|
  {
    hide Gathers, Fits, OfFrame, Reach, Due;
    if times == [] {
      assert body + Polls(times) == body;
    } else {
      var m := |times| - 1;
      var e, es := Poll(times[m]), body + Polls(times[..m]);
      PollsReachAll(body, src, times[..m]);
      PollsBehind(times[..m], times[m]);
      assert times == times[..m] + [times[m]];
      assert body + Polls(times) == es + [e];
      PollKeepsAll(es, src, times[m]);
      DueNext(es, e, src);
      GatheredReach(es, src, Due(es, src));
    }
  }

  lemma PollKeepsAll(es: seq<Event>, src: Source, now: uint64)
    requires SourceOk(src) && FromSource(es, src) && AllFit(es, src) && AllGather(es, src)
    ensures
      var fs := es + [Poll(now)];
      FromSource(fs, src) && AllFit(fs, src) && AllGather(fs, src)
  {
    hide Gathers, Due, Since, InTime, Came;
    var e, fs := Poll(now), es + [Poll(now)];
    NextIsSame(es, e, src);
    GatheredInTime(es, src, Due(es, src), Since(es, src), now);
    forall i | 0 <= i < |fs| ensures Fits(fs[..i], src, fs[i]) {
      assert fs[..i] == es[..i];
    }
    forall k | 0 <= k < |src.frames| ensures Gathers(fs, src, k) { BuiltKept(es, e, src, k); }
  }

  /** A receiver on unbounded numbers shows all frames from the first keyframe on. */
  lemma AllAreShown(body: seq<Event>, src: Source, times: seq<uint64>)
    requires SourceOk(src) && FromSource(body, src) && AllFit(body, src) && AllGather(body, src)
    requires |times| >= |src.frames|
    ensures
      var es := body + Polls(times);
      && EventsOk(Unbounded, es) && Valid(Unbounded, INITIAL)
      && Effect(INITIAL, es).1 == Watched(src.session, 0, src.frames, true) && RunInWindow(INITIAL, es)
  {
    hide *;
    PollsReachAll(body, src, times);
    RunFollows(body + Polls(times), src);
    UntilAll(src);
  }

  lemma UntilAll(src: Source)
    ensures Until(src, |src.frames|) == Watched(src.session, 0, src.frames, true)
  {
    hide Watched;
    assert src.frames[..|src.frames|] == src.frames;
  }

  // ---------- On the wire ----------

  /** Datagrams of one session, noise and ticks. */
  ghost predicate OnlyFrom(feeds: seq<Feed>, x: uint32) {
    forall i | 0 <= i < |feeds| && feeds[i].Datagram? :: feeds[i].session == x
  }

  lemma FeedsFromSource(streams: Streams, x: uint32, feeds: seq<Feed>)
    requires WellSent(streams) && x in streams && AllPossible(streams, feeds) && OnlyFrom(feeds, x)
    ensures SourceOk(Source(x, streams[x])) && FromSource(AllTrue(streams, feeds), Source(x, streams[x]))
  {
    hide PacketOf, AllSendable;
    var es := AllTrue(streams, feeds);
    forall i | 0 <= i < |es| && es[i].Arrive? ensures OfFrame(es[i].packet, Source(x, streams[x])) {
      assert Possible(streams, feeds[i]) && es[i] == True(streams, feeds[i]);
      SentInStream(streams, x, feeds[i].k);
      PacketIsOf(x, feeds[i].k + 1, streams[x][feeds[i].k], feeds[i].g, feeds[i].i);
    }
  }

  lemma PacketIsOf(x: uint32, id: int, sent: Sent, g: nat, i: nat)
    requires Sendable(sent) && g < Groups(sent) && i < Size(sent, g) + PARITY_SHARDS && x != 0
    ensures
      var p := PacketOf(x, id, sent, g, i);
      p.session == x && p.frame == id && IsShardOf(p, sent)
  {
    hide PacketOf;
    PacketDecodes(x, id, sent, Arrival(g, i));
    PacketPlace(x, id, sent, g, i);
  }

  lemma PacketPlace(x: uint32, id: int, sent: Sent, g: nat, i: nat)
    requires g < Groups(sent) && i < Size(sent, g) + PARITY_SHARDS
    ensures PacketOf(x, id, sent, g, i).group == g && PacketOf(x, id, sent, g, i).shard == i
  {}

  /**
   * The frames of a session may arrive interleaved, with losses, repetitions and noise, in any order
   * and polled at will, if the first datagram is one of its first frame, no datagram comes sixteen or
   * more frames ahead of the frame that is due, nor 2^30 behind it, and no poll finds the due frame
   * unfinished, with something newer there, when delivery has waited for it 80 ms. Once every frame
   * can be put together, and as many polls have followed as there are frames, then what has been
   * delivered is every frame from the first keyframe on, as it was sent and in order, over any number
   * of wraps of the frame number.
   */
  lemma InterleavedFramesAreShown(streams: Streams, x: uint32, feeds: seq<Feed>, times: seq<uint64>)
    requires WellSent(streams) && x in streams && AllPossible(streams, feeds) && OnlyFrom(feeds, x)
    requires
      var src, es := Source(x, streams[x]), AllTrue(streams, feeds);
      AllFit(es, src) && AllGather(es, src)
    requires |times| >= |streams[x]|
    ensures
      var all, first := feeds + Ticks(times), FirstKeyframe(streams[x]);
      && AllPossible(streams, all)
      && |Received(streams, all)| == |streams[x]| - first
      && forall m | 0 <= m < |streams[x]| - first :: Received(streams, all)[m] == Delivered(streams, x, first + m)
  {
    hide *;
    var all, first := feeds + Ticks(times), FirstKeyframe(streams[x]);
    MeantIsWatched(streams, x, feeds, times);
    WatchedIs(x, 0, streams[x], true);
    WatchedAreReceived(streams, x, all, first);
  }

  lemma MeantIsWatched(streams: Streams, x: uint32, feeds: seq<Feed>, times: seq<uint64>)
    requires WellSent(streams) && x in streams && AllPossible(streams, feeds) && OnlyFrom(feeds, x)
    requires
      var src, es := Source(x, streams[x]), AllTrue(streams, feeds);
      AllFit(es, src) && AllGather(es, src)
    requires |times| >= |streams[x]|
    ensures
      var all := feeds + Ticks(times);
      && AllPossible(streams, all) && Timely(streams, all)
      && Meant(streams, all) == Watched(x, 0, streams[x], true)
  {
    hide WellSent, Run, RunInWindow, Possible, True, Seen, AllFit, AllGather, FromSource, SourceOk, Watched, OnlyFrom;
    var src, es, all := Source(x, streams[x]), AllTrue(streams, feeds), feeds + Ticks(times);
    TicksMean(streams, times);
    MeansSum(streams, feeds, Ticks(times), es, Polls(times));
    FeedsFromSource(streams, x, feeds);
    AllSeenIsWrapped(streams, all);
    AllAreShown(es, src, times);
  }

  lemma WatchedAreReceived(streams: Streams, x: uint32, feeds: seq<Feed>, first: nat)
    requires WellSent(streams) && x in streams && AllPossible(streams, feeds) && Timely(streams, feeds)
    requires first <= |streams[x]| && |Meant(streams, feeds)| == |streams[x]| - first
    requires forall m | 0 <= m < |streams[x]| - first ::
      Meant(streams, feeds)[m] == AsSent(x, 0 + first + m + 1, streams[x][first + m])
    ensures |Received(streams, feeds)| == |streams[x]| - first
    ensures forall m | 0 <= m < |streams[x]| - first :: Received(streams, feeds)[m] == Delivered(streams, x, first + m)
  {
    hide WellSent, AllPossible, Timely, Meant, Received;
    var which := Witness(streams, feeds);
    forall m | 0 <= m < |streams[x]| - first ensures Received(streams, feeds)[m] == Delivered(streams, x, first + m) {
      assert Meant(streams, feeds)[m] == AsSent(x, first + m + 1, streams[x][first + m]);
    }
  }

  /**
   * From encoder to decoder: of a stream whose frames arrive so, the decoder is given every access
   * unit from the first one with a keyframe on, however the stream is read.
   */
  lemma InterleavedStreamIsShown(x: uint32, chunks: seq<seq<byte>>, clock: nat -> uint64, feeds: seq<Feed>,
                                 times: seq<uint64>)
    requires x != 0 && !Process([], chunks).failed
    requires
      var sent := StreamOf(chunks, clock);
      var streams := map[x := sent];
      && WellSent(streams) && AllPossible(streams, feeds) && OnlyFrom(feeds, x)
      && AllFit(AllTrue(streams, feeds), Source(x, sent)) && AllGather(AllTrue(streams, feeds), Source(x, sent))
      && |times| >= |sent|
    ensures
      var units, streams, all := Frames(Joined(chunks)), map[x := StreamOf(chunks, clock)], feeds + Ticks(times);
      && AllPossible(streams, all)
      && var shown := Received(streams, all);
      var first := |units| - |shown|;
      && 0 <= first
      && (forall k | 0 <= k < first :: !HasKeyNal(units[k]))
      && (shown != [] ==> HasKeyNal(units[first]))
      && (forall m | 0 <= m < |shown| ::
           shown[m].bytes == units[first + m] && shown[m].timestamp == clock(first + m)
           && shown[m].keyframe == HasKeyNal(units[first + m]))
  {
    hide Process, Frames, HasKeyNal, Received, AllPossible, AllFit, AllGather, WellSent, Delivered, StreamOf,
         FirstKeyframe, AllTrue, OnlyFrom;
    var streams, units := map[x := StreamOf(chunks, clock)], Frames(Joined(chunks));
    StreamIsSent(x, chunks, clock);
    InterleavedFramesAreShown(streams, x, feeds, times);
    forall k | 0 <= k < |units| ensures IsUnit(Delivered(streams, x, k), units[k], clock(k)) {
      StreamUnit(x, chunks, clock, k);
    }
    forall k | 0 <= k < |units| ensures streams[x][k].keyframe == HasKeyNal(units[k]) {
      DeliveredKeyframe(streams, x, k);
    }
  }
}
