/** What is delivered when enough of every frame arrives: every frame from the first keyframe on. */
module Liveness {
  import opened Wrappers
  import opened Field
  import opened Fec
  import opened Wire
  import opened FrameIds
  import opened Reassembly
  import opened ReassemblyInvariant
  import opened Integrity
  import opened Completion
  import opened Wraparound
  import opened FrameLife
  import opened Splitter
  import opened Transport
  import opened Sender

  /** A datagram of a frame, and the polls behind it. */
  datatype Exchange = Exchange(arrival: Arrival, at: uint64, polls: seq<uint64>)

  function ArrivalsOf(xs: seq<Exchange>): (arrivals: seq<Arrival>)
    ensures |arrivals| == |xs|
  {
    if xs == [] then [] else [xs[0].arrival] + ArrivalsOf(xs[1..])
  }

  /** Datagrams of the frame, each with a poll behind it. */
  ghost predicate Exchanges(sent: Sent, xs: seq<Exchange>) {
    forall i | 0 <= i < |xs| :: ExchangeOk(sent, xs[i])
  }

  ghost predicate ExchangeOk(sent: Sent, e: Exchange) {
    && e.arrival.group < Groups(sent) && e.arrival.shard < Size(sent, e.arrival.group) + PARITY_SHARDS
    && e.polls != []
  }

  function Polls(times: seq<uint64>): seq<Event> {
    if times == [] then [] else [Poll(times[0])] + Polls(times[1..])
  }

  ghost function Behind(x: uint32, id: int, sent: Sent, xs: seq<Exchange>): (es: seq<Event>)
    requires x != 0 && Sendable(sent) && Exchanges(sent, xs)
    ensures EventsOk(Unbounded, es)
  {
    if xs == [] then []
    else
      var e := xs[0];
      assert ExchangeOk(sent, e);
      PollsOk(e.polls);
      PacketDecodes(x, id, sent, e.arrival);
      [Arrive(PacketOf(x, id, sent, e.arrival.group, e.arrival.shard), e.at)]
        + (Polls(e.polls) + Behind(x, id, sent, xs[1..]))
  }

  lemma {:induction false} PollsOk(times: seq<uint64>)
    ensures EventsOk(Unbounded, Polls(times))
  {
    if times != [] { PollsOk(times[1..]); }
  }

  lemma PacketDecodes(x: uint32, id: int, sent: Sent, a: Arrival)
    requires x != 0 && Sendable(sent)
    requires a.group < Groups(sent) && a.shard < Size(sent, a.group) + PARITY_SHARDS
    ensures
      var p := PacketOf(x, id, sent, a.group, a.shard);
      Decoded(p) && p.session == x && p.frame == id && IsShardOf(p, sent)
  {
    hide Parity, PayloadOf, ShardCount;
    GroupBounds(ShardCount(|sent.bytes|), a.group);
  }

  // ---------- The receiver between two frames and within one ----------

  ghost predicate OnlySlotZero(s: Pipe, first: Option<Frame>) {
    && |s.slots| == FRAME_SLOTS && s.slots[0] == first
    && forall i | 1 <= i < FRAME_SLOTS :: s.slots[i].None?
  }

  /** Before the first datagram of a frame: nothing is held, and the frame is the next to deliver. */
  ghost predicate Expects(s: Pipe, x: uint32, id: int, needKeyframe: bool) {
    var t := Enter(s, x);
    && OnlySlotZero(t, None) && t.needKeyframe == needKeyframe
    && (t.haveNext ==> t.next == id) && (t.haveNewest ==> t.newest == id - 1)
  }

  /** Some of the frame has arrived, and it is all the receiver holds. */
  ghost predicate Collects(s: Pipe, x: uint32, id: int, needKeyframe: bool, f: Frame) {
    && OnlySlotZero(s, Some(f)) && f.session == x && f.id == id
    && s.session == x && s.haveNext && s.next == id && s.haveNewest && s.newest == id
    && s.needKeyframe == needKeyframe
  }

  /** The frame has been delivered or discarded. */
  ghost predicate Passed(s: Pipe, x: uint32, id: int, needKeyframe: bool) {
    && OnlySlotZero(s, None)
    && s.session == x && s.haveNext && s.next == id + 1 && s.haveNewest && s.newest == id
    && s.needKeyframe == needKeyframe
  }

  lemma PassedExpects(s: Pipe, x: uint32, id: int, needKeyframe: bool)
    requires Passed(s, x, id, needKeyframe) && x != 0
    ensures Expects(s, x, id + 1, needKeyframe)
  {}

  /** A poll changes nothing. */
  ghost predicate Quiet(s: Pipe) { forall now: uint64 :: Read(Unbounded, s, now) == (s, None) }

  lemma PassedIsQuiet(s: Pipe, x: uint32, id: int, needKeyframe: bool)
    requires Passed(s, x, id, needKeyframe)
    ensures Quiet(s)
  {
    hide Read, FrameOk;
    forall now: uint64 ensures Read(Unbounded, s, now) == (s, None) { ReadUnfolds(Unbounded, s, now); }
  }

  lemma CollectsIsQuiet(s: Pipe, x: uint32, id: int, needKeyframe: bool, f: Frame)
    requires Collects(s, x, id, needKeyframe, f) && !Complete(f)
    ensures Quiet(s)
  {
    hide Read, Complete;
    forall now: uint64 ensures Read(Unbounded, s, now) == (s, None) {
      ReadUnfolds(Unbounded, s, now);
      FirstIsNext(s, id);
    }
  }

  lemma FirstIsNext(s: Pipe, id: int)
    requires s.slots != [] && s.slots[0].Some? && s.slots[0].value.id == id
    ensures FindNext(s.slots, id, 0) == 0
  {}

  function Shows(needKeyframe: bool, keyframe: bool): bool { keyframe || !needKeyframe }

  function Maybe<T>(b: bool, v: T): seq<T> { if b then [v] else [] }

  /** The poll behind the datagram that completes the frame. */
  lemma CompleteIsPassed(s: Pipe, x: uint32, id: int, needKeyframe: bool, f: Frame, now: uint64)
    requires Collects(s, x, id, needKeyframe, f) && Complete(f)
    ensures
      var (t, d) := Read(Unbounded, s, now);
      && Passed(t, x, id, needKeyframe && !f.keyframe)
      && d == if Shows(needKeyframe, f.keyframe) then Some(Deliver(f)) else None
  {
    hide Read, Complete, Deliver;
    ReadUnfolds(Unbounded, s, now);
    FirstIsNext(s, id);
    if !Shows(needKeyframe, f.keyframe) {
      var u := Discard(Unbounded, s, 0, now);
      PassedIsQuiet(u, x, id, needKeyframe);
    }
  }

  // ---------- One datagram ----------

  /** The first datagram of a frame takes the first slot. */
  lemma ArrivesFirst(s: Pipe, x: uint32, id: int, needKeyframe: bool, sent: Sent, a: Arrival, now: uint64)
    requires Valid(Unbounded, s) && x != 0 && Sendable(sent) && Expects(s, x, id, needKeyframe)
    requires a.group < Groups(sent) && a.shard < Size(sent, a.group) + PARITY_SHARDS
    ensures
      var p := PacketOf(x, id, sent, a.group, a.shard);
      && Decoded(p) && FrameOk(NewFrame(p, now)) && Faithful(NewFrame(p, now), sent)
      && Store(NewFrame(p, now), p).Stored? && Faithful(Store(NewFrame(p, now), p).frame, sent)
      && Collects(Accept(Unbounded, s, p, now), x, id, needKeyframe, Store(NewFrame(p, now), p).frame)
  {
    hide FrameOk, Faithful, Store, PacketOf, Distinct, SlotOk, NewFrame;
    PacketDecodes(x, id, sent, a);
    var p := PacketOf(x, id, sent, a.group, a.shard);
    var t := Enter(s, x);
    EnterValid(Unbounded, s, x);
    EmptySlotFor(t, p);
    OpensSlot(Unbounded, s, p, now, sent);
    var u := if t.haveNext then t else t.(next := p.frame, nextWait := now, haveNext := true);
    SameSlotFor(t, u, p);
    PlaceShape(Unbounded, u, p, now);
  }

  lemma EmptySlotFor(s: Pipe, p: Packet)
    requires OnlySlotZero(s, None)
    ensures SlotFor(s, p) == 0
  {
    FindFrameFinds(s.slots, p.session, p.frame, 0);
  }

  /** A further datagram goes where the first one went. */
  lemma ArrivesFurther(s: Pipe, x: uint32, id: int, needKeyframe: bool, f: Frame, sent: Sent, a: Arrival, now: uint64)
    requires Valid(Unbounded, s) && Collects(s, x, id, needKeyframe, f) && x != 0 && Faithful(f, sent)
    requires a.group < Groups(sent) && a.shard < Size(sent, a.group) + PARITY_SHARDS
    ensures
      var p := PacketOf(x, id, sent, a.group, a.shard);
      && Decoded(p) && FrameOk(f) && Store(f, p).Stored? && Faithful(Store(f, p).frame, sent)
      && Collects(Accept(Unbounded, s, p, now), x, id, needKeyframe, Store(f, p).frame)
  {
    hide FrameOk, Faithful, Store, PacketOf, Distinct, SlotOk;
    SentIsSendable(f, sent);
    PacketDecodes(x, id, sent, a);
    var p := PacketOf(x, id, sent, a.group, a.shard);
    assert FrameOk(s.slots[0].value);
    ArrivalStored(x, id, f, sent, a);
    FirstSlotFor(s, p);
    PlaceShape(Unbounded, s, p, now);
  }

  lemma SentIsSendable(f: Frame, sent: Sent)
    requires Faithful(f, sent)
    ensures Sendable(sent)
  {}

  lemma FirstSlotFor(s: Pipe, p: Packet)
    requires s.slots != [] && s.slots[0].Some?
    requires s.slots[0].value.session == p.session && s.slots[0].value.id == p.frame
    ensures SlotFor(s, p) == 0
  {}

  /** What comes of a frame that has been passed is too old. */
  lemma ArrivesLate(s: Pipe, x: uint32, id: int, needKeyframe: bool, p: Packet, now: uint64)
    requires Valid(Unbounded, s) && Passed(s, x, id, needKeyframe) && x != 0
    requires Decoded(p) && p.session == x && p.frame == id
    ensures Accept(Unbounded, s, p, now) == s
  {
    hide FrameOk;
  }

  // ---------- Runs ----------

  /** The state behind a run, and what it delivered. */
  ghost function Effect(s: Pipe, es: seq<Event>): (r: (Pipe, seq<Delivery>))
    requires Valid(Unbounded, s) && EventsOk(Unbounded, es)
    ensures Valid(Unbounded, r.0)
  {
    (Run(Unbounded, s, es).0, Shown(Run(Unbounded, s, es).1))
  }

  lemma EffectFront(s: Pipe, e: Event, rest: seq<Event>)
    requires Valid(Unbounded, s) && EventOk(Unbounded, e) && EventsOk(Unbounded, rest)
    ensures EventsOk(Unbounded, [e] + rest)
    ensures
      var (t, d) := Step(Unbounded, s, e);
      && Valid(Unbounded, t)
      && Effect(s, [e] + rest).0 == Effect(t, rest).0
      && Effect(s, [e] + rest).1 == (if d.Some? then [d.value] else []) + Effect(t, rest).1
      && (RunInWindow(s, [e] + rest) <==> InWindow(s, e) && RunInWindow(t, rest))
  {
    hide InWindow, Step, FrameOk, SlotOk, Distinct, EventOk;
    StepValid(Unbounded, s, e);
    var all := [e] + rest;
    assert all[0] == e && all[1..] == rest;
    var (t, d) := Step(Unbounded, s, e);
    var ds := Run(Unbounded, t, rest).1;
    assert ([d] + ds)[0] == d && ([d] + ds)[1..] == ds;
  }

  lemma {:induction false} EffectSum(s: Pipe, a: seq<Event>, b: seq<Event>)
    requires Valid(Unbounded, s) && EventsOk(Unbounded, a) && EventsOk(Unbounded, b)
    ensures EventsOk(Unbounded, a + b)
    ensures
      var (t, ds) := Effect(s, a);
      && Effect(s, a + b) == (Effect(t, b).0, ds + Effect(t, b).1)
      && (RunInWindow(s, a + b) <==> RunInWindow(s, a) && RunInWindow(t, b))
    decreases |a|
  {
    hide InWindow, RunInWindow, Step, FrameOk, SlotOk, Distinct, EventOk, Effect;
    if a == [] {
      assert a + b == b && [] + Effect(s, b).1 == Effect(s, b).1;
      EffectNone(s);
    } else {
      assert EventOk(Unbounded, a[0]);
      EffectFront(s, a[0], a[1..]);
      EffectSum(Step(Unbounded, s, a[0]).0, a[1..], b);
      EffectFront(s, a[0], a[1..] + b);
      assert a == [a[0]] + a[1..];
      assert a + b == [a[0]] + (a[1..] + b);
      var (t, d) := Step(Unbounded, s, a[0]);
      var (u, ds) := Effect(t, a[1..]);
      Regrouped(if d.Some? then [d.value] else [], ds, Effect(u, b).1);
    }
  }

  lemma Regrouped<T>(a: seq<T>, b: seq<T>, c: seq<T>)
    ensures (a + b) + c == a + (b + c)
  {}

  lemma EffectNone(s: Pipe)
    requires Valid(Unbounded, s)
    ensures Effect(s, []) == (s, []) && RunInWindow(s, [])
  {}

  lemma {:induction false} QuietPolls(s: Pipe, times: seq<uint64>, rest: seq<Event>)
    requires Valid(Unbounded, s) && EventsOk(Unbounded, rest) && Quiet(s) && PollInWindow(s)
    ensures EventsOk(Unbounded, Polls(times)) && EventsOk(Unbounded, Polls(times) + rest)
    ensures Effect(s, Polls(times) + rest) == Effect(s, rest)
    ensures RunInWindow(s, Polls(times) + rest) <==> RunInWindow(s, rest)
    decreases |times|
  {
    hide Read, FrameOk, SlotOk, Distinct, Effect, PollInWindow, RunInWindow;
    PollsOk(times);
    if times == [] {
      assert Polls(times) + rest == rest;
    } else {
      QuietPolls(s, times[1..], rest);
      EffectFront(s, Poll(times[0]), Polls(times[1..]) + rest);
      PollsFront(times, rest);
      assert [] + Effect(s, rest).1 == Effect(s, rest).1;
    }
  }

  // ---------- All numbers are close to each other ----------

  lemma PassedInWindow(s: Pipe, x: uint32, id: int, needKeyframe: bool, e: Event)
    requires Passed(s, x, id, needKeyframe) && (e.Arrive? ==> e.packet.frame == id)
    ensures InWindow(s, e) && PollInWindow(s)
  {}

  lemma CollectsInWindow(s: Pipe, x: uint32, id: int, needKeyframe: bool, f: Frame, e: Event)
    requires Collects(s, x, id, needKeyframe, f) && (e.Arrive? ==> e.packet.frame == id)
    ensures InWindow(s, e) && PollInWindow(s)
  {}

  lemma ExpectsInWindow(s: Pipe, x: uint32, id: int, needKeyframe: bool, p: Packet)
    requires Expects(s, x, id, needKeyframe) && p.session == x && p.frame == id
    ensures ArrivalInWindow(s, p)
  {}

  // ---------- The datagrams of one frame ----------

  lemma {:induction false} PassedStays(s: Pipe, x: uint32, id: int, needKeyframe: bool, sent: Sent, xs: seq<Exchange>)
    requires Valid(Unbounded, s) && Passed(s, x, id, needKeyframe)
    requires x != 0 && Sendable(sent) && Exchanges(sent, xs)
    ensures Effect(s, Behind(x, id, sent, xs)) == (s, []) && RunInWindow(s, Behind(x, id, sent, xs))
    decreases |xs|
  {
    hide FrameOk, SlotOk, Distinct, Passed, Effect, Read, Accept, PacketOf, Quiet, Sendable, PollInWindow,
         RunInWindow, ArrivalInWindow;
    if xs == [] {
      EffectNone(s);
    } else {
      var e := xs[0];
      assert ExchangeOk(sent, e);
      PacketDecodes(x, id, sent, e.arrival);
      var p := PacketOf(x, id, sent, e.arrival.group, e.arrival.shard);
      ArrivesLate(s, x, id, needKeyframe, p, e.at);
      PassedInWindow(s, x, id, needKeyframe, Arrive(p, e.at));
      PassedIsQuiet(s, x, id, needKeyframe);
      PassedStays(s, x, id, needKeyframe, sent, xs[1..]);
      QuietPolls(s, e.polls, Behind(x, id, sent, xs[1..]));
      EffectFront(s, Arrive(p, e.at), Polls(e.polls) + Behind(x, id, sent, xs[1..]));
    }
  }

  lemma {:induction false} ExchangesArrive(sent: Sent, xs: seq<Exchange>)
    requires Exchanges(sent, xs)
    ensures Arrivals(sent, ArrivalsOf(xs))
  {
    if xs != [] {
      assert ExchangeOk(sent, xs[0]);
      ExchangesArrive(sent, xs[1..]);
    }
  }

  /** A complete frame stays complete. */
  lemma {:induction false} CompleteStays(x: uint32, id: int, f: Frame, sent: Sent, arrivals: seq<Arrival>)
    requires FrameOk(f) && Faithful(f, sent) && Arrivals(sent, arrivals) && Complete(f)
    ensures Complete(Reassembled(x, id, f, sent, arrivals))
    decreases |arrivals|
  {
    hide FrameOk, Faithful, Store, PacketOf;
    if arrivals != [] {
      var m := |arrivals| - 1;
      CompleteStays(x, id, f, sent, arrivals[..m]);
      var h := Reassembled(x, id, f, sent, arrivals[..m]);
      ArrivalStored(x, id, h, sent, arrivals[m]);
      var p := PacketOf(x, id, sent, arrivals[m].group, arrivals[m].shard);
      StoreOk(h, p);
      CountBounded(Store(h, p).frame);
    }
  }

  lemma CountBounded(f: Frame)
    requires FrameOk(f)
    ensures f.received <= |f.shards|
  {
    CompleteMeansPresent(f.present);
  }

  /** What the rest of a frame's datagrams bring about, from a frame of which h is made in the end. */
  ghost predicate Ends(r: (Pipe, seq<Delivery>), x: uint32, id: int, needKeyframe: bool, sent: Sent, h: Frame) {
    if Complete(h) then
      && Passed(r.0, x, id, needKeyframe && !sent.keyframe)
      && r.1 == Maybe(Shows(needKeyframe, sent.keyframe), AsSent(x, id, sent))
    else Collects(r.0, x, id, needKeyframe, h) && r.1 == []
  }

  lemma PollsFront(times: seq<uint64>, rest: seq<Event>)
    requires times != []
    ensures Polls(times) + rest == [Poll(times[0])] + (Polls(times[1..]) + rest)
  {}

  /** Once the frame is complete, the first poll shows or discards it, and the rest changes nothing. */
  lemma AfterCompletion(s: Pipe, x: uint32, id: int, needKeyframe: bool, f: Frame, sent: Sent,
                        times: seq<uint64>, xs: seq<Exchange>)
    requires Valid(Unbounded, s) && Collects(s, x, id, needKeyframe, f) && FrameOk(f) && Faithful(f, sent)
    requires Complete(f) && x != 0 && Sendable(sent) && Exchanges(sent, xs) && times != []
    ensures EventsOk(Unbounded, Polls(times) + Behind(x, id, sent, xs))
    ensures
      var r := Effect(s, Polls(times) + Behind(x, id, sent, xs));
      && Passed(r.0, x, id, needKeyframe && !sent.keyframe)
      && r.1 == Maybe(Shows(needKeyframe, sent.keyframe), AsSent(x, id, sent))
    ensures RunInWindow(s, Polls(times) + Behind(x, id, sent, xs))
  {
    hide SlotOk, Distinct, Passed, Collects, Effect, Read, Complete, FrameOk, Faithful, Deliver, Quiet, Sendable,
         PollInWindow, RunInWindow, ArrivalInWindow, Behind;
    var rest, now := Behind(x, id, sent, xs), times[0];
    PollsOk(times);
    PollsOk(times[1..]);
    CollectsInWindow(s, x, id, needKeyframe, f, Poll(now));
    CompleteIsPassed(s, x, id, needKeyframe, f, now);
    FaithfulMarks(f, sent);
    CollectedIs(s, x, id, needKeyframe, f);
    CompleteDelivers(f, sent);
    EffectFront(s, Poll(now), Polls(times[1..]) + rest);
    PollsFront(times, rest);
    var t := Read(Unbounded, s, now).0;
    PassedIsQuiet(t, x, id, needKeyframe && !f.keyframe);
    PassedInWindow(t, x, id, needKeyframe && !f.keyframe, Poll(now));
    QuietPolls(t, times[1..], rest);
    PassedStays(t, x, id, needKeyframe && !f.keyframe, sent, xs);
  }

  lemma {:induction false} AfterArrival(s: Pipe, x: uint32, id: int, needKeyframe: bool, f: Frame, sent: Sent,
                                        times: seq<uint64>, xs: seq<Exchange>)
    requires Valid(Unbounded, s) && Collects(s, x, id, needKeyframe, f) && FrameOk(f) && Faithful(f, sent)
    requires x != 0 && Sendable(sent) && Exchanges(sent, xs) && times != []
    ensures Arrivals(sent, ArrivalsOf(xs)) && EventsOk(Unbounded, Polls(times) + Behind(x, id, sent, xs))
    ensures Ends(Effect(s, Polls(times) + Behind(x, id, sent, xs)), x, id, needKeyframe, sent,
                 Reassembled(x, id, f, sent, ArrivalsOf(xs)))
    ensures RunInWindow(s, Polls(times) + Behind(x, id, sent, xs))
    decreases |xs|, 1
  {
    hide SlotOk, Distinct, Passed, Collects, Effect, Read, Complete, FrameOk, Faithful, Deliver, Quiet, Sendable,
         PollInWindow, RunInWindow, ArrivalInWindow, Behind, Reassembled, Exchanges, Arrivals;
    ExchangesArrive(sent, xs);
    if Complete(f) {
      CompleteStays(x, id, f, sent, ArrivalsOf(xs));
      AfterCompletion(s, x, id, needKeyframe, f, sent, times, xs);
    } else {
      CollectsInWindow(s, x, id, needKeyframe, f, Poll(times[0]));
      CollectsIsQuiet(s, x, id, needKeyframe, f);
      QuietPolls(s, times, Behind(x, id, sent, xs));
      FrameFollows(s, x, id, needKeyframe, f, sent, xs);
    }
  }

  lemma CollectedIs(s: Pipe, x: uint32, id: int, needKeyframe: bool, f: Frame)
    requires Collects(s, x, id, needKeyframe, f)
    ensures f.session == x && f.id == id
  {}

  lemma {:induction false} FrameFollows(s: Pipe, x: uint32, id: int, needKeyframe: bool, f: Frame, sent: Sent,
                                        xs: seq<Exchange>)
    requires Valid(Unbounded, s) && Collects(s, x, id, needKeyframe, f) && FrameOk(f) && Faithful(f, sent)
    requires !Complete(f) && x != 0 && Sendable(sent) && Exchanges(sent, xs)
    ensures Arrivals(sent, ArrivalsOf(xs))
    ensures Ends(Effect(s, Behind(x, id, sent, xs)), x, id, needKeyframe, sent,
                 Reassembled(x, id, f, sent, ArrivalsOf(xs)))
    ensures RunInWindow(s, Behind(x, id, sent, xs))
    decreases |xs|, 0
  {
    hide RunInWindow, ArrivalInWindow, SlotOk, Distinct, Passed, Collects, Effect, Accept, Complete, FrameOk,
         Faithful, Store, PacketOf, Sendable;
    ExchangesArrive(sent, xs);
    if xs == [] {
      EffectNone(s);
    } else {
      var e := xs[0];
      assert ExchangeOk(sent, e);
      ExchangesArrive(sent, xs[1..]);
      ArrivesFurther(s, x, id, needKeyframe, f, sent, e.arrival, e.at);
      PacketDecodes(x, id, sent, e.arrival);
      var p := PacketOf(x, id, sent, e.arrival.group, e.arrival.shard);
      var t := Accept(Unbounded, s, p, e.at);
      AcceptValid(Unbounded, s, p, e.at);
      ArrivalStored(x, id, f, sent, e.arrival);
      CollectsInWindow(s, x, id, needKeyframe, f, Arrive(p, e.at));
      AfterArrival(t, x, id, needKeyframe, Store(f, p).frame, sent, e.polls, xs[1..]);
      EffectFront(s, Arrive(p, e.at), Polls(e.polls) + Behind(x, id, sent, xs[1..]));
      ReassembledFront(x, id, f, sent, e.arrival, ArrivalsOf(xs[1..]));
    }
  }

  /** Every group of the frame is gathered from these datagrams. */
  ghost predicate EnoughArrives(sent: Sent, xs: seq<Exchange>) {
    Exchanges(sent, xs) && forall g | 0 <= g < Groups(sent) :: Gathered(sent, ArrivalsOf(xs), g)
  }

  lemma NothingGathered(sent: Sent)
    requires Sendable(sent)
    ensures 0 < Groups(sent) && !Gathered(sent, [], 0)
  {
    hide Mended, Missing;
    MendedNever(sent, 0);
    NothingMissing(Arrived(sent, [], 0), Size(sent, 0));
    assert !Arrived(sent, [], 0)[0];
  }

  lemma SomethingArrived(sent: Sent, xs: seq<Exchange>)
    requires Sendable(sent) && EnoughArrives(sent, xs)
    ensures xs != []
  {
    hide Gathered, Sendable;
    NothingGathered(sent);
    assert Gathered(sent, ArrivalsOf(xs), 0);
  }

  /** A frame of which enough arrives is passed, and shown unless it is not a keyframe and one is needed. */
  lemma FrameArrives(s: Pipe, x: uint32, id: int, needKeyframe: bool, sent: Sent, xs: seq<Exchange>)
    requires Valid(Unbounded, s) && Expects(s, x, id, needKeyframe) && x != 0 && Sendable(sent)
      && EnoughArrives(sent, xs)
    ensures
      var (t, ds) := Effect(s, Behind(x, id, sent, xs));
      && Passed(t, x, id, needKeyframe && !sent.keyframe)
      && ds == Maybe(Shows(needKeyframe, sent.keyframe), AsSent(x, id, sent))
      && RunInWindow(s, Behind(x, id, sent, xs))
  {
    hide RunInWindow, ArrivalInWindow, SlotOk, Distinct, Passed, Collects, Expects, Effect, Accept, Complete,
         FrameOk, Faithful, Store, PacketOf, Sendable, Gathered, NewFrame;
    SomethingArrived(sent, xs);
    var e := xs[0];
    assert ExchangeOk(sent, e);
    ExchangesArrive(sent, xs);
    ExchangesArrive(sent, xs[1..]);
    ArrivesFirst(s, x, id, needKeyframe, sent, e.arrival, e.at);
    PacketDecodes(x, id, sent, e.arrival);
    var p := PacketOf(x, id, sent, e.arrival.group, e.arrival.shard);
    var f := NewFrame(p, e.at);
    AcceptValid(Unbounded, s, p, e.at);
    ArrivalStored(x, id, f, sent, e.arrival);
    ExpectsInWindow(s, x, id, needKeyframe, p);
    AfterArrival(Accept(Unbounded, s, p, e.at), x, id, needKeyframe, Store(f, p).frame, sent, e.polls, xs[1..]);
    EffectFront(s, Arrive(p, e.at), Polls(e.polls) + Behind(x, id, sent, xs[1..]));
    ReassembledFront(x, id, f, sent, e.arrival, ArrivalsOf(xs[1..]));
    PacketMarks(x, id, sent, e.arrival);
    CompletionInAnyOrder(x, id, sent, ArrivalsOf(xs), p, e.at);
  }

  lemma PacketMarks(x: uint32, id: int, sent: Sent, a: Arrival)
    requires a.group < Groups(sent) && a.shard < Size(sent, a.group) + PARITY_SHARDS
    ensures
      var p := PacketOf(x, id, sent, a.group, a.shard);
      p.frameSize == |sent.bytes| && p.timestamp == sent.timestamp && p.keyframe == sent.keyframe
  {}

  // ---------- All frames of a session, one behind the other ----------

  ghost predicate AllArrive(frames: seq<Sent>, script: seq<seq<Exchange>>) {
    && |frames| == |script| && AllSendable(frames)
    && forall k | 0 <= k < |frames| :: EnoughArrives(frames[k], script[k])
  }

  /** The events of frames k + 1 and up of a session. */
  ghost function SessionEvents(x: uint32, k: nat, frames: seq<Sent>, script: seq<seq<Exchange>>): (es: seq<Event>)
    requires x != 0 && AllArrive(frames, script)
    ensures EventsOk(Unbounded, es)
    decreases |frames|
  {
    if frames == [] then []
    else
      assert EnoughArrives(frames[0], script[0]);
      Behind(x, k + 1, frames[0], script[0]) + SessionEvents(x, k + 1, frames[1..], script[1..])
  }

  /** What the decoder should be given of them. */
  function Watched(x: uint32, k: nat, frames: seq<Sent>, needKeyframe: bool): seq<Delivery>
    decreases |frames|
  {
    if frames == [] then []
    else
      Maybe(Shows(needKeyframe, frames[0].keyframe), AsSent(x, k + 1, frames[0]))
      + Watched(x, k + 1, frames[1..], needKeyframe && !frames[0].keyframe)
  }

  lemma {:induction false} SessionArrives(s: Pipe, x: uint32, k: nat, frames: seq<Sent>, script: seq<seq<Exchange>>,
                                          needKeyframe: bool)
    requires Valid(Unbounded, s) && Expects(s, x, k + 1, needKeyframe) && x != 0 && AllArrive(frames, script)
    ensures Effect(s, SessionEvents(x, k, frames, script)).1 == Watched(x, k, frames, needKeyframe)
    ensures RunInWindow(s, SessionEvents(x, k, frames, script))
    decreases |frames|
  {
    hide FrameOk, SlotOk, Distinct, Expects, Passed, Effect, RunInWindow, EnoughArrives, Sendable;
    if frames == [] {
      EffectNone(s);
    } else {
      assert EnoughArrives(frames[0], script[0]);
      ArriveInExchanges(frames[0], script[0]);
      FrameArrives(s, x, k + 1, needKeyframe, frames[0], script[0]);
      var es := Behind(x, k + 1, frames[0], script[0]);
      var t := Effect(s, es).0;
      PassedExpects(t, x, k + 1, needKeyframe && !frames[0].keyframe);
      SessionArrives(t, x, k + 1, frames[1..], script[1..], needKeyframe && !frames[0].keyframe);
      EffectSum(s, es, SessionEvents(x, k + 1, frames[1..], script[1..]));
    }
  }

  /** The first keyframe, or the end. */
  function FirstKeyframe(frames: seq<Sent>): (k: nat)
    ensures k <= |frames| && (k < |frames| ==> frames[k].keyframe)
    ensures forall i | 0 <= i < k :: !frames[i].keyframe
  {
    if frames == [] || frames[0].keyframe then 0 else 1 + FirstKeyframe(frames[1..])
  }

  /** From the first keyframe on nothing is left out. */
  lemma {:induction false} WatchedIs(x: uint32, k: nat, frames: seq<Sent>, needKeyframe: bool)
    ensures
      var first, watched := if needKeyframe then FirstKeyframe(frames) else 0, Watched(x, k, frames, needKeyframe);
      && |watched| == |frames| - first
      && forall m | 0 <= m < |watched| :: watched[m] == AsSent(x, k + first + m + 1, frames[first + m])
    decreases |frames|
  {
    hide AsSent;
    if frames != [] { WatchedIs(x, k + 1, frames[1..], needKeyframe && !frames[0].keyframe); }
  }

  // ---------- On the wire ----------

  function Ticks(times: seq<uint64>): seq<Feed> {
    if times == [] then [] else [Tick(times[0])] + Ticks(times[1..])
  }

  function FrameFeeds(x: uint32, k: nat, xs: seq<Exchange>): seq<Feed> {
    if xs == [] then []
    else
      var e := xs[0];
      [Datagram(x, k, e.arrival.group, e.arrival.shard, e.at)] + (Ticks(e.polls) + FrameFeeds(x, k, xs[1..]))
  }

  function SessionFeeds(x: uint32, k: nat, script: seq<seq<Exchange>>): seq<Feed>
    decreases |script|
  {
    if script == [] then [] else FrameFeeds(x, k, script[0]) + SessionFeeds(x, k + 1, script[1..])
  }

  /** A feed and what it means; feeds can be put together. */
  ghost predicate Means(streams: Streams, feeds: seq<Feed>, es: seq<Event>)
    requires WellSent(streams)
  {
    AllPossible(streams, feeds) && AllTrue(streams, feeds) == es
  }

  lemma MeansSum(streams: Streams, a: seq<Feed>, b: seq<Feed>, es: seq<Event>, fs: seq<Event>)
    requires WellSent(streams) && Means(streams, a, es) && Means(streams, b, fs)
    ensures Means(streams, a + b, es + fs)
  {
    hide True, WellSent, Possible;
    forall i | 0 <= i < |a + b| ensures Possible(streams, (a + b)[i]) {
      if i < |a| { assert (a + b)[i] == a[i]; } else { assert (a + b)[i] == b[i - |a|]; }
    }
  }

  lemma {:induction false} TicksMean(streams: Streams, times: seq<uint64>)
    requires WellSent(streams)
    ensures Means(streams, Ticks(times), Polls(times))
  {
    hide WellSent;
    if times != [] {
      TicksMean(streams, times[1..]);
      assert Means(streams, [Tick(times[0])], [Poll(times[0])]);
      MeansSum(streams, [Tick(times[0])], Ticks(times[1..]), [Poll(times[0])], Polls(times[1..]));
    }
  }

  lemma {:induction false} FrameFeedsMean(streams: Streams, x: uint32, k: nat, xs: seq<Exchange>)
    requires WellSent(streams) && x in streams && k < |streams[x]| && Exchanges(streams[x][k], xs)
    ensures x != 0 && Sendable(streams[x][k])
    ensures Means(streams, FrameFeeds(x, k, xs), Behind(x, k + 1, streams[x][k], xs))
    decreases |xs|
  {
    hide Sendable, PacketOf, Means;
    SentInStream(streams, x, k);
    if xs == [] {
      NothingMeans(streams);
    } else {
      var e := xs[0];
      assert ExchangeOk(streams[x][k], e);
      var sent, rest := streams[x][k], xs[1..];
      FrameFeedsMean(streams, x, k, rest);
      TicksMean(streams, e.polls);
      MeansSum(streams, Ticks(e.polls), FrameFeeds(x, k, rest), Polls(e.polls), Behind(x, k + 1, sent, rest));
      OneMeans(streams, x, k, e.arrival, e.at);
      MeansSum(streams, [Datagram(x, k, e.arrival.group, e.arrival.shard, e.at)],
               Ticks(e.polls) + FrameFeeds(x, k, rest),
               [Arrive(PacketOf(x, k + 1, sent, e.arrival.group, e.arrival.shard), e.at)],
               Polls(e.polls) + Behind(x, k + 1, sent, rest));
    }
  }

  lemma SentInStream(streams: Streams, x: uint32, k: nat)
    requires WellSent(streams) && x in streams && k < |streams[x]|
    ensures x != 0 && AllSendable(streams[x]) && Sendable(streams[x][k])
  {}

  lemma NothingMeans(streams: Streams)
    requires WellSent(streams)
    ensures Means(streams, [], [])
  {}

  lemma OneMeans(streams: Streams, x: uint32, k: nat, a: Arrival, now: uint64)
    requires WellSent(streams) && x in streams && k < |streams[x]|
    requires a.group < Groups(streams[x][k]) && a.shard < Size(streams[x][k], a.group) + PARITY_SHARDS
    ensures Means(streams, [Datagram(x, k, a.group, a.shard, now)],
                  [Arrive(PacketOf(x, k + 1, streams[x][k], a.group, a.shard), now)])
  {
    hide WellSent, PacketOf;
  }

  lemma {:induction false} SessionFeedsMean(streams: Streams, x: uint32, k: nat, script: seq<seq<Exchange>>)
    requires WellSent(streams) && x in streams && k <= |streams[x]| && AllArrive(streams[x][k..], script)
    ensures x != 0 && Means(streams, SessionFeeds(x, k, script), SessionEvents(x, k, streams[x][k..], script))
    decreases |script|
  {
    hide EnoughArrives, Means;
    if script == [] {
      NothingMeans(streams);
    } else {
      SentInStream(streams, x, k);
      var frames := streams[x][k..];
      assert frames[1..] == streams[x][k + 1..] && frames[0] == streams[x][k];
      assert EnoughArrives(frames[0], script[0]);
      ArriveInExchanges(frames[0], script[0]);
      FrameFeedsMean(streams, x, k, script[0]);
      SessionFeedsMean(streams, x, k + 1, script[1..]);
      MeansSum(streams, FrameFeeds(x, k, script[0]), SessionFeeds(x, k + 1, script[1..]),
               Behind(x, k + 1, frames[0], script[0]), SessionEvents(x, k + 1, frames[1..], script[1..]));
    }
  }

  lemma ArriveInExchanges(sent: Sent, xs: seq<Exchange>)
    requires EnoughArrives(sent, xs)
    ensures Exchanges(sent, xs)
  {}

  lemma InitialExpects(x: uint32)
    requires x != 0
    ensures Expects(INITIAL, x, 1, true) && Valid(Unbounded, INITIAL)
  {
    InitialValid(Unbounded);
  }

  /** What a receiver on unbounded numbers delivers of such a session. */
  lemma SessionIsWatched(streams: Streams, x: uint32, script: seq<seq<Exchange>>)
    requires WellSent(streams) && x in streams && AllArrive(streams[x], script)
    ensures AllPossible(streams, SessionFeeds(x, 0, script)) && Timely(streams, SessionFeeds(x, 0, script))
    ensures Meant(streams, SessionFeeds(x, 0, script)) == Watched(x, 0, streams[x], true)
  {
    hide WellSent, AllArrive, SessionEvents, Run, RunInWindow, Possible, True, Seen, Expects;
    assert streams[x][0..] == streams[x];
    SessionFeedsMean(streams, x, 0, script);
    AllSeenIsWrapped(streams, SessionFeeds(x, 0, script));
    InitialExpects(x);
    SessionArrives(INITIAL, x, 0, streams[x], script, true);
  }

  /**
   * If the frames of a session arrive one behind the other, with so few losses that every group is
   * gathered, and the receiver is polled behind every datagram, then at whatever times it all
   * happens, and over any number of wraps, what is delivered is every frame from the first keyframe
   * on, as it was sent and in order.
   */
  lemma EveryFrameIsShown(streams: Streams, x: uint32, script: seq<seq<Exchange>>)
    requires WellSent(streams) && x in streams && AllArrive(streams[x], script)
    ensures
      var feeds, first := SessionFeeds(x, 0, script), FirstKeyframe(streams[x]);
      && AllPossible(streams, feeds)
      && |Received(streams, feeds)| == |streams[x]| - first
      && forall m | 0 <= m < |streams[x]| - first :: Received(streams, feeds)[m] == Delivered(streams, x, first + m)
  {
    hide WellSent, AllArrive, AllPossible, Timely, Meant, Received, Watched, SessionFeeds, FirstKeyframe;
    var feeds, first := SessionFeeds(x, 0, script), FirstKeyframe(streams[x]);
    SessionIsWatched(streams, x, script);
    WatchedIs(x, 0, streams[x], true);
    var which := Witness(streams, feeds);
    forall m | 0 <= m < |streams[x]| - first ensures Received(streams, feeds)[m] == Delivered(streams, x, first + m) {
      assert Meant(streams, feeds)[m] == AsSent(x, first + m + 1, streams[x][first + m]);
    }
  }

  /** If all data shards of a frame arrive, every group is gathered, whatever parity does. */
  lemma AllDataIsEnough(sent: Sent, xs: seq<Exchange>)
    requires Exchanges(sent, xs)
    requires forall g: nat, i: nat | g < Groups(sent) && i < Size(sent, g) :: Arrival(g, i) in ArrivalsOf(xs)
    ensures EnoughArrives(sent, xs)
  {
    hide Mended, Missing, Exchanges;
    forall g | 0 <= g < Groups(sent) ensures Gathered(sent, ArrivalsOf(xs), g) {
      NothingMissing(Arrived(sent, ArrivalsOf(xs), g), Size(sent, g));
      assert forall i | 0 <= i < Size(sent, g) :: Arrived(sent, ArrivalsOf(xs), g)[i];
    }
  }

  /**
   * From encoder to decoder: if enough of every frame arrives, frame by frame, the decoder is given
   * every access unit of the stream from the first one with a keyframe on, however the stream is read.
   */
  lemma StreamIsShown(x: uint32, chunks: seq<seq<byte>>, clock: nat -> uint64, script: seq<seq<Exchange>>)
    requires x != 0 && !Process([], chunks).failed && AllArrive(StreamOf(chunks, clock), script)
    ensures
      var units, streams, feeds := Frames(Joined(chunks)), map[x := StreamOf(chunks, clock)],
        SessionFeeds(x, 0, script);
      && WellSent(streams) && AllPossible(streams, feeds)
      && var shown := Received(streams, feeds);
      var first := |units| - |shown|;
      && 0 <= first
      && (forall k | 0 <= k < first :: !HasKeyNal(units[k]))
      && (shown != [] ==> HasKeyNal(units[first]))
      && (forall m | 0 <= m < |shown| ::
           shown[m].bytes == units[first + m] && shown[m].timestamp == clock(first + m)
           && shown[m].keyframe == HasKeyNal(units[first + m]))
  {
    hide Process, Frames, HasKeyNal, Received, AllPossible, SessionFeeds, AllArrive, WellSent, Delivered, StreamOf,
         FirstKeyframe;
    var streams, units := map[x := StreamOf(chunks, clock)], Frames(Joined(chunks));
    StreamIsSent(x, chunks, clock);
    EveryFrameIsShown(streams, x, script);
    forall k | 0 <= k < |units| ensures IsUnit(Delivered(streams, x, k), units[k], clock(k)) {
      StreamUnit(x, chunks, clock, k);
    }
    forall k | 0 <= k < |units| ensures streams[x][k].keyframe == HasKeyNal(units[k]) {
      DeliveredKeyframe(streams, x, k);
    }
  }

  lemma DeliveredKeyframe(streams: Streams, x: uint32, k: nat)
    requires x in streams && k < |streams[x]|
    ensures Delivered(streams, x, k).keyframe == streams[x][k].keyframe
  {}
}
