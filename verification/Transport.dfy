/** Sender and receiver together, datagram for datagram. */
module Transport {
  import opened Wrappers
  import opened Field
  import opened Fec
  import opened Wire
  import opened FrameIds
  import opened Reassembly
  import opened ReassemblyInvariant
  import opened Integrity
  import opened Counters
  import opened DeliveryOrder
  import opened Wraparound
  import opened Splitter
  import opened Sender

  /** The frames of every session a sender has run; frame k of a session carries number k + 1. */
  type Streams = map<uint32, seq<Sent>>

  /**
   * What happens at the receiver: bytes that are no video datagram arrive, shard i of group g of
   * frame k of a session arrives, or the read loop ticks.
   */
  datatype Feed = Noise(bytes: seq<byte>, at: uint64)
                | Datagram(session: uint32, k: nat, g: nat, i: nat, at: uint64)
                | Tick(at: uint64)

  ghost predicate WellSent(streams: Streams) {
    0 !in streams && forall x | x in streams :: AllSendable(streams[x])
  }

  /** The feed carries noise that the header check refuses, or something that was sent. */
  ghost predicate Possible(streams: Streams, f: Feed)
    requires WellSent(streams)
  {
    match f
    case Noise(bytes, _) => FromWire(bytes).None?
    case Datagram(x, k, g, i, _) =>
      && x in streams && k < |streams[x]|
      && g < GroupCount(ShardCount(|streams[x][k].bytes|))
      && i < GroupSize(ShardCount(|streams[x][k].bytes|), g) + PARITY_SHARDS
    case Tick(_) => true
  }

  ghost predicate AllPossible(streams: Streams, feeds: seq<Feed>)
    requires WellSent(streams)
  {
    forall i | 0 <= i < |feeds| :: Possible(streams, feeds[i])
  }

  /** The bytes that arrive. */
  ghost function BytesOf(streams: Streams, f: Feed): seq<byte>
    requires WellSent(streams) && Possible(streams, f) && !f.Tick?
  {
    match f
    case Noise(bytes, _) => bytes
    case Datagram(x, k, g, i, _) => DatagramOf(x, Wrap(k + 1), streams[x][k], g, i)
  }

  /** What the receiver makes of them. */
  ghost function Seen(streams: Streams, f: Feed): Event
    requires WellSent(streams) && Possible(streams, f)
  {
    if f.Tick? then Poll(f.at) else EventOf(BytesOf(streams, f), f.at)
  }

  /** The same event with the true frame number, which the datagram carries modulo 2^32. */
  ghost function True(streams: Streams, f: Feed): Event
    requires WellSent(streams) && Possible(streams, f)
  {
    match f
    case Noise(_, _) => Garbage
    case Datagram(x, k, g, i, now) => Arrive(PacketOf(x, k + 1, streams[x][k], g, i), now)
    case Tick(now) => Poll(now)
  }

  ghost function AllSeen(streams: Streams, feeds: seq<Feed>): (es: seq<Event>)
    requires WellSent(streams) && AllPossible(streams, feeds)
    ensures |es| == |feeds| && forall i | 0 <= i < |feeds| :: es[i] == Seen(streams, feeds[i])
  {
    seq(|feeds|, i requires 0 <= i < |feeds| => Seen(streams, feeds[i]))
  }

  ghost function AllTrue(streams: Streams, feeds: seq<Feed>): (es: seq<Event>)
    requires WellSent(streams) && AllPossible(streams, feeds)
    ensures |es| == |feeds| && forall i | 0 <= i < |feeds| :: es[i] == True(streams, feeds[i])
  {
    seq(|feeds|, i requires 0 <= i < |feeds| => True(streams, feeds[i]))
  }

  ghost function HistoryOf(streams: Streams): History {
    map x, k | x in streams && 1 <= k <= |streams[x]| :: (x, k) := streams[x][k - 1]
  }

  // ---------- The sender's wire ----------

  /** The bytes are shard i of group g of frame k of the session. */
  ghost predicate IsDatagram(x: uint32, frames: seq<Sent>, bytes: seq<byte>, k: nat, g: nat, i: nat)
    requires x != 0 && AllSendable(frames)
  {
    && k < |frames| && g < GroupCount(ShardCount(|frames[k].bytes|))
    && i < GroupSize(ShardCount(|frames[k].bytes|), g) + PARITY_SHARDS
    && bytes == DatagramOf(x, Wrap(k + 1), frames[k], g, i)
  }

  /** The wire of a session carries exactly the datagrams that a feed can bring. */
  lemma {:induction false} WireIsDatagrams(x: uint32, frames: seq<Sent>, bytes: seq<byte>)
    requires x != 0 && AllSendable(frames)
    ensures bytes in SessionWire(x, frames) <==>
            exists k: nat, g: nat, i: nat :: IsDatagram(x, frames, bytes, k, g, i)
    decreases |frames|
  {
    hide DatagramOf, Wired, FrameWire, GroupCount, GroupSize, ShardCount;
    if frames != [] {
      var m := |frames| - 1;
      var sent := frames[m];
      WireIsDatagrams(x, frames[..m], bytes);
      WiredIsDatagrams(x, Wrap(m + 1), sent, bytes);
      if bytes in SessionWire(x, frames[..m]) {
        var k: nat, g: nat, i: nat :| IsDatagram(x, frames[..m], bytes, k, g, i);
        assert IsDatagram(x, frames, bytes, k, g, i);
      }
      if bytes in Wired(x, Wrap(m + 1), sent) {
        var g: nat, i: nat :| IsShard(x, Wrap(m + 1), sent, bytes, g, i);
        assert IsDatagram(x, frames, bytes, m, g, i);
      }
      if k: nat, g: nat, i: nat :| IsDatagram(x, frames, bytes, k, g, i) {
        if k < m {
          assert IsDatagram(x, frames[..m], bytes, k, g, i);
        } else {
          assert IsShard(x, Wrap(m + 1), sent, bytes, g, i);
        }
      }
    }
  }

  // ---------- One datagram ----------

  /** Decoding what was sent gives the true packet, its number taken modulo 2^32. */
  lemma SeenIsWrapped(streams: Streams, f: Feed)
    requires WellSent(streams) && Possible(streams, f)
    ensures Seen(streams, f) == WrapEvent(True(streams, f))
    ensures EventOk(Wrapping, Seen(streams, f)) && EventOk(Unbounded, True(streams, f))
    ensures Honest(HistoryOf(streams), True(streams, f))
  {
    hide FromWire, DatagramOf, ShardCount, GroupSize, GroupCount, PacketOf, HistoryOf;
    match f {
      case Noise(_, _) =>
      case Datagram(x, k, g, i, _) =>
        var sent := streams[x][k];
        DatagramAgrees(x, Wrap(k + 1), sent, g, i);
        HistoryHas(streams, x, k);
        PacketWraps(x, k + 1, sent, g, i);
      case Tick(_) =>
    }
  }

  lemma HistoryHas(streams: Streams, x: uint32, k: nat)
    requires x in streams && k < |streams[x]|
    ensures (x, k + 1) in HistoryOf(streams) && HistoryOf(streams)[(x, k + 1)] == streams[x][k]
  {}

  /** A packet carries its frame number and looks at it nowhere else. */
  lemma PacketWraps(x: uint32, id: int, sent: Sent, g: nat, i: nat)
    requires g < GroupCount(ShardCount(|sent.bytes|)) && i < GroupSize(ShardCount(|sent.bytes|), g) + PARITY_SHARDS
    ensures WrapPacket(PacketOf(x, id, sent, g, i)) == PacketOf(x, Wrap(id), sent, g, i)
    ensures PacketOf(x, id, sent, g, i).session == x && PacketOf(x, id, sent, g, i).frame == id
    ensures PacketOf(x, id, sent, g, i).group == g && PacketOf(x, id, sent, g, i).shard == i
  {
    hide Parity, PayloadOf, ShardCount, GroupSize, GroupCount;
  }

  lemma AllSeenIsWrapped(streams: Streams, feeds: seq<Feed>)
    requires WellSent(streams) && AllPossible(streams, feeds)
    ensures AllSeen(streams, feeds) == WrapEvents(AllTrue(streams, feeds))
    ensures EventsOk(Wrapping, AllSeen(streams, feeds)) && EventsOk(Unbounded, AllTrue(streams, feeds))
    ensures forall i | 0 <= i < |feeds| :: Honest(HistoryOf(streams), AllTrue(streams, feeds)[i])
  {
    hide Seen, True, EventOk, Honest, WrapEvent, Possible, WellSent, HistoryOf;
    forall i | 0 <= i < |feeds|
      ensures AllSeen(streams, feeds)[i] == WrapEvents(AllTrue(streams, feeds))[i]
      ensures EventOk(Wrapping, AllSeen(streams, feeds)[i]) && EventOk(Unbounded, AllTrue(streams, feeds)[i])
      ensures Honest(HistoryOf(streams), AllTrue(streams, feeds)[i])
    {
      SeenIsWrapped(streams, feeds[i]);
    }
  }

  // ---------- What is shown ----------

  /** The deliveries of a run, without the events that deliver nothing. */
  function Shown(ds: seq<Option<Delivery>>): seq<Delivery> {
    if ds == [] then [] else (if ds[0].Some? then [ds[0].value] else []) + Shown(ds[1..])
  }

  /** Increasing numbers, a keyframe first, and a keyframe after every gap. */
  ghost predicate InOrder(last: Option<int>, shown: seq<Delivery>) {
    && (shown != [] ==> Follows(last, shown[0]))
    && (forall m | 0 < m < |shown| :: Follows(Some(shown[m - 1].id), shown[m]))
  }

  predicate Follows(last: Option<int>, d: Delivery) {
    match last
    case None => d.keyframe
    case Some(id) => id < d.id && (d.id == id + 1 || d.keyframe)
  }

  ghost predicate OneSession(x: uint32, es: seq<Event>) {
    forall i | 0 <= i < |es| && es[i].Arrive? :: es[i].packet.session == x
  }

  lemma {:induction false} SessionInOrder(s: Pipe, es: seq<Event>, x: uint32, last: Option<int>)
    requires Valid(Unbounded, s) && EventsOk(Unbounded, es) && OneSession(x, es)
    requires Remembers(Unbounded, s, last)
    requires s.session == x || (s.session == 0 && last.None?)
    ensures InOrder(last, Shown(Run(Unbounded, s, es).1))
    ensures forall m | 0 <= m < |Shown(Run(Unbounded, s, es).1)| :: Shown(Run(Unbounded, s, es).1)[m].session == x
    decreases |es|
  {
    hide Accept, Read, Remembers, FrameOk, SlotOk, Distinct;
    if es != [] {
      var e := es[0];
      assert EventOk(Unbounded, e);
      StepRemembers(Unbounded, s, e, last);
      StepValid(Unbounded, s, e);
      var (t, d) := Step(Unbounded, s, e);
      match e {
        case Garbage =>
        case Arrive(p, now) => AcceptKeeps(Unbounded, s, p, now);
        case Poll(now) => ReadMoves(Unbounded, s, now);
      }
      if s.session == 0 { ReadFromNone(s, e); }
      var later := if OutcomeOf(s, e, d).Restart? then None else if d.Some? then Some(d.value.id) else last;
      SessionInOrder(t, es[1..], x, later);
      var ds := Run(Unbounded, s, es).1;
      assert ds[0] == d && ds[1..] == Run(Unbounded, t, es[1..]).1;
    }
  }

  /** Before the first datagram there is nothing to deliver. */
  lemma ReadFromNone(s: Pipe, e: Event)
    requires Valid(Unbounded, s) && EventOk(Unbounded, e) && s.session == 0
    ensures Step(Unbounded, s, e).1.None?
  {
    hide FrameOk, Accept, SlotOk, Distinct;
    if e.Poll? { ReadNeedsNext(Unbounded, s, e.at); }
  }

  lemma {:induction false} ShownWrapped(ds: seq<Option<Delivery>>, us: seq<Option<Delivery>>)
    requires |ds| == |us| && forall i | 0 <= i < |ds| :: ds[i] == WrapDelivery(us[i])
    ensures |Shown(ds)| == |Shown(us)|
    ensures forall m | 0 <= m < |Shown(ds)| :: Some(Shown(ds)[m]) == WrapDelivery(Some(Shown(us)[m]))
  {
    if ds != [] { ShownWrapped(ds[1..], us[1..]); }
  }

  lemma {:induction false} ShownIntact(h: History, us: seq<Option<Delivery>>)
    requires forall i | 0 <= i < |us| && us[i].Some? :: Intact(h, us[i].value)
    ensures forall m | 0 <= m < |Shown(us)| :: Intact(h, Shown(us)[m])
  {
    hide Intact;
    if us != [] { ShownIntact(h, us[1..]); }
  }

  /** Everything the receiver delivers, from power-on. */
  ghost function Received(streams: Streams, feeds: seq<Feed>): seq<Delivery>
    requires WellSent(streams) && AllPossible(streams, feeds)
  {
    AllSeenIsWrapped(streams, feeds);
    InitialValid(Wrapping);
    Shown(Run(Wrapping, INITIAL, AllSeen(streams, feeds)).1)
  }

  /** What a receiver on unbounded frame numbers would deliver. */
  ghost function Meant(streams: Streams, feeds: seq<Feed>): seq<Delivery>
    requires WellSent(streams) && AllPossible(streams, feeds)
  {
    AllSeenIsWrapped(streams, feeds);
    InitialValid(Unbounded);
    Shown(Run(Unbounded, INITIAL, AllTrue(streams, feeds)).1)
  }

  /** Whatever frame numbers the receiver compares are less than 2^31 apart. */
  ghost predicate Timely(streams: Streams, feeds: seq<Feed>)
    requires WellSent(streams) && AllPossible(streams, feeds)
  {
    AllSeenIsWrapped(streams, feeds);
    InitialValid(Unbounded);
    RunInWindow(INITIAL, AllTrue(streams, feeds))
  }

  /** Frame k of a session, as the 32-bit receiver delivers it. */
  ghost function Delivered(streams: Streams, x: uint32, k: nat): Delivery
    requires x in streams && k < |streams[x]|
  {
    AsSent(x, Wrap(k + 1), streams[x][k])
  }

  ghost predicate WasSent(streams: Streams, d: Delivery) {
    exists x, k: nat | x in streams && k < |streams[x]| :: d == Delivered(streams, x, k)
  }

  /**
   * End to end, over any number of sessions and of wraps of the frame number: whatever datagrams
   * are lost, repeated or reordered, and whatever noise comes between, each delivery is exactly a
   * frame that a sender sent, with its bytes, its time and its keyframe mark.
   */
  lemma EndToEnd(streams: Streams, feeds: seq<Feed>)
    requires WellSent(streams) && AllPossible(streams, feeds)
    requires Timely(streams, feeds)
    ensures forall m | 0 <= m < |Received(streams, feeds)| :: WasSent(streams, Received(streams, feeds)[m])
  {
    hide *;
    var which := Witness(streams, feeds);
    var shown := Received(streams, feeds);
    forall m | 0 <= m < |shown|
      ensures WasSent(streams, shown[m])
    {
      SentIs(streams, which[m].0, which[m].1);
    }
  }

  lemma SentIs(streams: Streams, x: uint32, k: nat)
    requires x in streams && k < |streams[x]|
    ensures WasSent(streams, Delivered(streams, x, k))
  {}

  /** A delivery of the 32-bit receiver, and the unbounded receiver's that says which frame it is. */
  ghost predicate Matches(streams: Streams, shown: Delivery, meant: Delivery) {
    Intact(HistoryOf(streams), meant) && Some(shown) == WrapDelivery(Some(meant))
  }

  /** The two receivers deliver in step. */
  lemma ReceivedMatches(streams: Streams, feeds: seq<Feed>)
    requires WellSent(streams) && AllPossible(streams, feeds)
    requires Timely(streams, feeds)
    ensures
      var shown, meant := Received(streams, feeds), Meant(streams, feeds);
      |shown| == |meant| && forall m | 0 <= m < |shown| :: Matches(streams, shown[m], meant[m])
  {
    hide True, Seen, RunInWindow, WellSent, Possible, Tracked, FrameOk, SlotOk, Distinct, HistoryOf, Intact,
         WrapDelivery, WrapEvents, Run, Shown, Honest, AllFaithful;
    AllSeenIsWrapped(streams, feeds);
    var h, es := HistoryOf(streams), AllTrue(streams, feeds);
    StartsEmpty(h);
    InitialValid(Wrapping);
    InitialValid(Unbounded);
    RunWraps(INITIAL, es);
    RunIsIntact(Unbounded, h, INITIAL, es);
    ShownWrapped(Run(Wrapping, INITIAL, AllSeen(streams, feeds)).1, Run(Unbounded, INITIAL, es).1);
    ShownIntact(h, Run(Unbounded, INITIAL, es).1);
  }

  lemma StartsEmpty(h: History)
    ensures WrapPipe(INITIAL) == INITIAL && Tracked(INITIAL) && AllFaithful(h, INITIAL)
  {
    assert WrapPipe(INITIAL).slots == INITIAL.slots;
  }

  /** Frame k of its session, on both receivers. */
  lemma MatchIsFrame(streams: Streams, shown: Delivery, meant: Delivery)
    requires Matches(streams, shown, meant)
    ensures meant.session in streams && 0 < meant.id <= |streams[meant.session]|
    ensures shown == Delivered(streams, meant.session, meant.id - 1)
    ensures meant.keyframe == streams[meant.session][meant.id - 1].keyframe
  {}

  /** Which frames they are. */
  lemma {:induction false} FramesOf(streams: Streams, shown: seq<Delivery>, meant: seq<Delivery>)
    returns (which: seq<(uint32, nat)>)
    requires |shown| == |meant| && forall m | 0 <= m < |shown| :: Matches(streams, shown[m], meant[m])
    ensures |which| == |shown|
    ensures forall m | 0 <= m < |which| ::
      && which[m].0 == meant[m].session && which[m].1 + 1 == meant[m].id
      && which[m].0 in streams && which[m].1 < |streams[which[m].0]|
      && shown[m] == Delivered(streams, which[m].0, which[m].1)
      && meant[m].keyframe == streams[which[m].0][which[m].1].keyframe
    decreases |shown|
  {
    hide Matches, Delivered;
    which := [];
    if shown != [] {
      var m := |shown| - 1;
      var before := FramesOf(streams, shown[..m], meant[..m]);
      MatchIsFrame(streams, shown[m], meant[m]);
      which := before + [(meant[m].session, meant[m].id - 1)];
    }
  }

  /** Which frame each delivery is: the unbounded receiver says. */
  lemma Witness(streams: Streams, feeds: seq<Feed>) returns (which: seq<(uint32, nat)>)
    requires WellSent(streams) && AllPossible(streams, feeds)
    requires Timely(streams, feeds)
    ensures
      var shown, meant := Received(streams, feeds), Meant(streams, feeds);
      && |which| == |shown| == |meant|
      && (forall m | 0 <= m < |which| ::
           && which[m].0 in streams && which[m].1 < |streams[which[m].0]|
           && shown[m] == Delivered(streams, which[m].0, which[m].1)
           && meant[m].session == which[m].0 && meant[m].id == which[m].1 + 1
           && meant[m].keyframe == streams[which[m].0][which[m].1].keyframe)
  {
    hide *;
    ReceivedMatches(streams, feeds);
    which := FramesOf(streams, Received(streams, feeds), Meant(streams, feeds));
  }

  // ---------- One session ----------

  /** All that happens concerns one session. */
  ghost predicate FeedsOf(x: uint32, feeds: seq<Feed>) {
    forall i | 0 <= i < |feeds| && feeds[i].Datagram? :: feeds[i].session == x
  }

  /** The first of the numbers, or one that is not the successor of the number before it. */
  predicate Starts(which: seq<nat>, m: nat)
    requires m < |which|
  {
    m == 0 || which[m - 1] + 1 < which[m]
  }

  /**
   * What the viewer of one session sees is a selection of its frames in the order they were sent,
   * each at most once, starting with a keyframe and restarting with one after every gap.
   */
  lemma SessionShown(streams: Streams, x: uint32, feeds: seq<Feed>) returns (which: seq<nat>)
    requires WellSent(streams) && AllPossible(streams, feeds) && FeedsOf(x, feeds)
    requires Timely(streams, feeds)
    ensures
      var shown := Received(streams, feeds);
      && |which| == |shown|
      && (which != [] ==> x in streams)
      && (forall m | 0 <= m < |which| :: which[m] < |streams[x]| && shown[m] == Delivered(streams, x, which[m]))
      && (forall m | 0 < m < |which| :: which[m - 1] < which[m])
      && (forall m | 0 <= m < |which| && Starts(which, m) :: shown[m].keyframe)
  {
    hide True, Seen, RunInWindow, WellSent, Possible, FrameOk, SlotOk, Distinct;
    AllSeenIsWrapped(streams, feeds);
    var es := AllTrue(streams, feeds);
    var all := Witness(streams, feeds);
    TrueSession(streams, x, feeds);
    InitialValid(Unbounded);
    SessionInOrder(INITIAL, es, x, None);
    which := seq(|all|, m requires 0 <= m < |all| => all[m].1);
  }

  lemma TrueSession(streams: Streams, x: uint32, feeds: seq<Feed>)
    requires WellSent(streams) && AllPossible(streams, feeds) && FeedsOf(x, feeds)
    ensures OneSession(x, AllTrue(streams, feeds))
  {
    forall i | 0 <= i < |feeds| && AllTrue(streams, feeds)[i].Arrive?
      ensures AllTrue(streams, feeds)[i].packet.session == x
    {
      assert Possible(streams, feeds[i]) && feeds[i].Datagram?;
    }
  }

  // ---------- Sessions of fewer than 2^31 frames ----------

  /** Every number the receiver holds is that of a sent frame, or the next after one. */
  ghost predicate InRange(s: Pipe, limit: int) {
    && (s.haveNext ==> 1 <= s.next <= limit + 1)
    && (s.haveNewest ==> 1 <= s.newest <= limit)
    && (forall i | 0 <= i < |s.slots| && s.slots[i].Some? :: 1 <= s.slots[i].value.id <= limit)
  }

  lemma AcceptInRange(s: Pipe, p: Packet, now: uint64, limit: int)
    requires Valid(Unbounded, s) && InRange(s, limit) && Decoded(p) && 1 <= p.frame <= limit
    ensures InRange(Accept(Unbounded, s, p, now), limit)
  {
    hide FrameOk, Place, Distinct, SlotOk;
    EnterValid(Unbounded, s, p.session);
    var t := Enter(s, p.session);
    if !(t.haveNext && Newer(Unbounded, t.next, p.frame)) {
      FirstValid(Unbounded, t, p.frame, now);
      PlaceInRange(if t.haveNext then t else t.(next := p.frame, nextWait := now, haveNext := true), p, now, limit);
    }
  }

  lemma PlaceInRange(s: Pipe, p: Packet, now: uint64, limit: int)
    requires Valid(Unbounded, s) && InRange(s, limit) && Decoded(p) && 1 <= p.frame <= limit && s.session == p.session
    ensures InRange(Place(Unbounded, s, p, now), limit)
  {
    hide FrameOk, Store, SlotFor, Distinct, SlotOk;
    SlotForFinds(Unbounded, s, p);
    if SlotFor(s, p) < |s.slots| { PlaceShape(Unbounded, s, p, now); }
  }

  lemma {:induction false} ReadInRange(s: Pipe, now: uint64, limit: int)
    requires Valid(Unbounded, s) && InRange(s, limit)
    ensures InRange(Read(Unbounded, s, now).0, limit)
    decreases Occupied(s.slots), if Newer(Unbounded, s.newest, s.next) then 1 else 0
  {
    hide Read, FrameOk, Distinct, Deliver;
    ReadUnfolds(Unbounded, s, now);
    match TurnOf(Unbounded, s, now) {
      case Waits =>
      case Takes(k) =>
      case Discards(k) =>
        TakenValid(Unbounded, s, k, now);
        ReadInRange(Discard(Unbounded, s, k, now), now, limit);
      case Skips =>
        SkipValid(Unbounded, s, now);
        ReadInRange(Skip(Unbounded, s, now), now, limit);
    }
  }

  lemma EventInWindow(s: Pipe, e: Event, limit: int)
    requires Valid(Unbounded, s) && InRange(s, limit) && limit < HALF && (e.Arrive? ==> 1 <= e.packet.frame <= limit)
    ensures InWindow(s, e)
  {
    hide FrameOk, Distinct;
    forall i | 0 <= i < |s.slots| && s.slots[i].Some? ensures s.haveNext {
      assert SlotOk(Unbounded, s, s.slots[i].value);
    }
  }

  lemma {:induction false} RunStaysInWindow(s: Pipe, es: seq<Event>, limit: int)
    requires Valid(Unbounded, s) && EventsOk(Unbounded, es) && InRange(s, limit) && 0 <= limit < HALF
    requires forall i | 0 <= i < |es| && es[i].Arrive? :: 1 <= es[i].packet.frame <= limit
    ensures RunInWindow(s, es)
    decreases |es|
  {
    hide Accept, Read, FrameOk, SlotOk, Distinct, InWindow;
    if es != [] {
      var e := es[0];
      assert EventOk(Unbounded, e);
      StepValid(Unbounded, s, e);
      match e {
        case Garbage =>
        case Arrive(p, now) => AcceptInRange(s, p, now, limit);
        case Poll(now) => ReadInRange(s, now, limit);
      }
      EventInWindow(s, e, limit);
      RunStaysInWindow(Step(Unbounded, s, e).0, es[1..], limit);
    }
  }

  /** While no session is longer than 2^31 - 1 frames, the window is never left. */
  lemma ShortSessionsAreTimely(streams: Streams, feeds: seq<Feed>)
    requires WellSent(streams) && AllPossible(streams, feeds)
    requires forall x | x in streams :: |streams[x]| < HALF
    ensures Timely(streams, feeds)
  {
    hide RunInWindow, FrameOk, SlotOk, Distinct, Parity, PayloadOf;
    AllSeenIsWrapped(streams, feeds);
    InitialValid(Unbounded);
    var es := AllTrue(streams, feeds);
    forall i | 0 <= i < |es| && es[i].Arrive? ensures 1 <= es[i].packet.frame <= HALF - 1 {
      assert Possible(streams, feeds[i]);
    }
    RunStaysInWindow(INITIAL, es, HALF - 1);
  }

  // ---------- From the encoder's byte stream to the decoder ----------

  /** The frames that PacketizerThread sends, from the chunks it reads. */
  ghost function StreamOf(chunks: seq<seq<byte>>, clock: nat -> uint64): (frames: seq<Sent>)
    ensures |frames| == |Process([], chunks).frames| && AllSendable(frames)
  {
    ProcessSendable([], chunks);
    Stamped(Process([], chunks).frames, 0, clock)
  }

  lemma {:induction false} ProcessSendable(pending: seq<byte>, chunks: seq<seq<byte>>)
    requires |pending| <= MAX_FRAME_SIZE
    ensures forall i | 0 <= i < |Process(pending, chunks).frames| ::
      0 < |Process(pending, chunks).frames[i]| <= MAX_FRAME_SIZE
    decreases |chunks|
  {
    hide Units, Rest, Accepted;
    if chunks != [] {
      var data := pending + chunks[0];
      UnitsNonEmpty(data);
      AcceptedPrefix(Units(data));
      if |Rest(data)| <= MAX_FRAME_SIZE { ProcessSendable(Rest(data), chunks[1..]); }
    }
  }

  /**
   * From encoder to decoder: however the encoder's output is cut into reads and whatever happens
   * to the datagrams, the decoder is given access units of the stream, whole and unchanged, in
   * increasing order, with a keyframe first and after every gap.
   */
  lemma StreamDelivered(x: uint32, chunks: seq<seq<byte>>, clock: nat -> uint64, feeds: seq<Feed>)
    returns (which: seq<nat>)
    requires x != 0 && !Process([], chunks).failed && |Frames(Joined(chunks))| < HALF
    requires AllPossible(map[x := StreamOf(chunks, clock)], feeds)
    ensures
      var units, shown := Frames(Joined(chunks)), Received(map[x := StreamOf(chunks, clock)], feeds);
      && |which| == |shown|
      && (forall m | 0 <= m < |which| ::
           && which[m] < |units| && shown[m].bytes == units[which[m]]
           && shown[m].timestamp == clock(which[m]) && shown[m].keyframe == HasKeyNal(units[which[m]]))
      && (forall m | 0 < m < |which| :: which[m - 1] < which[m])
      && (forall m | 0 <= m < |which| && Starts(which, m) :: HasKeyNal(units[which[m]]))
  {
    hide Process, Frames, HasKeyNal, Received, Timely, Possible, AllPossible, WellSent, Delivered, StreamOf, Starts;
    var streams := map[x := StreamOf(chunks, clock)];
    StreamIsSent(x, chunks, clock);
    ShortSessionsAreTimely(streams, feeds);
    OneStream(streams, x, feeds);
    which := SessionShown(streams, x, feeds);
    var shown := Received(streams, feeds);
    forall m | 0 <= m < |which|
      ensures which[m] < |Frames(Joined(chunks))| && IsUnit(shown[m], Frames(Joined(chunks))[which[m]], clock(which[m]))
    {
      StreamUnit(x, chunks, clock, which[m]);
      assert shown[m] == Delivered(streams, x, which[m]);
    }
    forall m | 0 <= m < |which| && Starts(which, m) ensures HasKeyNal(Frames(Joined(chunks))[which[m]]) {
      assert IsUnit(shown[m], Frames(Joined(chunks))[which[m]], clock(which[m])) && shown[m].keyframe;
    }
  }

  /** A delivery that is a unit of the stream, with the time it was handed on. */
  ghost predicate IsUnit(d: Delivery, unit: seq<byte>, at: uint64) {
    d.bytes == unit && d.timestamp == at && d.keyframe == HasKeyNal(unit)
  }

  lemma StreamIsSent(x: uint32, chunks: seq<seq<byte>>, clock: nat -> uint64)
    requires x != 0 && !Process([], chunks).failed
    ensures WellSent(map[x := StreamOf(chunks, clock)]) && |StreamOf(chunks, clock)| == |Frames(Joined(chunks))|
  {
    hide Process, Frames, StreamOf;
    assert Cut([]) == 0 && [] + Joined(chunks) == Joined(chunks);
    ChunksDoNotMatter([], chunks);
  }

  /** Frame k of the session is unit k of the stream. */
  lemma StreamUnit(x: uint32, chunks: seq<seq<byte>>, clock: nat -> uint64, k: nat)
    requires !Process([], chunks).failed && k < |StreamOf(chunks, clock)|
    ensures k < |Frames(Joined(chunks))|
    ensures IsUnit(Delivered(map[x := StreamOf(chunks, clock)], x, k), Frames(Joined(chunks))[k], clock(k))
  {
    hide Process, Frames, HasKeyNal;
    assert Cut([]) == 0 && [] + Joined(chunks) == Joined(chunks);
    ChunksDoNotMatter([], chunks);
    ProcessSendable([], chunks);
    assert StreamOf(chunks, clock)[k] == SentOf(Process([], chunks).frames[k], clock(0 + k));
  }

  lemma OneStream(streams: Streams, x: uint32, feeds: seq<Feed>)
    requires WellSent(streams) && AllPossible(streams, feeds) && forall y | y in streams :: y == x
    ensures FeedsOf(x, feeds)
  {
    forall i | 0 <= i < |feeds| && feeds[i].Datagram? ensures feeds[i].session == x {
      assert Possible(streams, feeds[i]);
    }
  }

  // ---------- What is counted invalid ----------

  /** A datagram of the sender is counted invalid exactly when it finds no slot. */
  lemma CountedInvalid(h: History, s: Pipe, x: uint32, id: uint32, sent: Sent, g: nat, i: nat, now: uint64)
    requires Valid(Wrapping, s) && AllFaithful(h, s) && x != 0 && Sendable(sent)
    requires g < GroupCount(ShardCount(|sent.bytes|)) && i < GroupSize(ShardCount(|sent.bytes|), g) + PARITY_SHARDS
    requires (x, id as int) in h && h[(x, id as int)] == sent
    ensures
      var e := EventOf(DatagramOf(x, id, sent, g, i), now);
      && EventOk(Wrapping, e)
      && Step(Wrapping, s, e).0.invalid == s.invalid + if Crowded(Wrapping, s, x, id) then 1 else 0
  {
    hide FromWire, DatagramOf, ShardCount, GroupSize, GroupCount, PacketOf, FrameOk, Accept, Distinct, FaithfulIn,
         Crowded;
    DatagramAgrees(x, id, sent, g, i);
    var p := PacketOf(x, id, sent, g, i);
    PacketFields(x, id, sent, g, i);
    assert FromWire(DatagramOf(x, id, sent, g, i)) == Some(p);
    AcceptCounts(Wrapping, h, s, p, now);
  }

  lemma PacketFields(x: uint32, id: uint32, sent: Sent, g: nat, i: nat)
    requires x != 0 && Sendable(sent)
    requires g < GroupCount(ShardCount(|sent.bytes|)) && i < GroupSize(ShardCount(|sent.bytes|), g) + PARITY_SHARDS
    ensures
      var p := PacketOf(x, id, sent, g, i);
      Decoded(p) && p.session == x && p.frame == id && p.group == g && p.shard == i
  {
    hide Parity, PayloadOf;
    DatagramAgrees(x, id, sent, g, i);
  }
}
