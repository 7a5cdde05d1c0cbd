/** The 32-bit receiver computes what one with unbounded frame numbers would. */
module Wraparound {
  import opened Wrappers
  import opened Field
  import opened Fec
  import opened Wire
  import opened FrameIds
  import opened Reassembly
  import opened ReassemblyInvariant
  import opened Integrity

  // ---------- From unbounded numbers to 32 bits ----------

  function WrapFrame(f: Frame): Frame { f.(id := Wrap(f.id)) }

  function WrapSlot(slot: Option<Frame>): Option<Frame> {
    match slot
    case None => None
    case Some(f) => Some(WrapFrame(f))
  }

  function WrapSlots(slots: seq<Option<Frame>>): (r: seq<Option<Frame>>)
    ensures |r| == |slots|
  {
    seq(|slots|, i requires 0 <= i < |slots| => WrapSlot(slots[i]))
  }

  function WrapPipe(s: Pipe): Pipe {
    s.(slots := WrapSlots(s.slots), next := Wrap(s.next), newest := Wrap(s.newest))
  }

  function WrapPacket(p: Packet): Packet { p.(frame := Wrap(p.frame)) }

  function WrapEvent(e: Event): Event {
    match e
    case Arrive(p, now) => Arrive(WrapPacket(p), now)
    case _ => e
  }

  function WrapDelivery(d: Option<Delivery>): Option<Delivery> {
    match d
    case None => None
    case Some(f) => Some(f.(id := Wrap(f.id)))
  }

  // ---------- The window ----------

  predicate Close(a: int, b: int) { -HALF < a - b < HALF }

  /** newer() on 32 bits decides the true order of two numbers less than 2^31 apart. */
  lemma NewerIsOrder(a: int, b: int)
    requires Close(a, b)
    ensures Newer(Wrapping, Wrap(a), Wrap(b)) == (a > b)
    ensures Wrap(a) == Wrap(b) <==> a == b
    ensures a >= b ==> Ahead(Wrapping, Wrap(b), Wrap(a)) == a - b
  {
    var d := (Wrap(a) - Wrap(b)) % MODULUS;
    assert d == (a - b) % MODULUS;
  }

  /** The numbers that a datagram of this session is compared with are close to its own. */
  ghost predicate ArrivalInWindow(s: Pipe, p: Packet) {
    p.session == s.session ==>
      && (s.haveNext ==> Close(s.next, p.frame))
      && (s.haveNewest ==> Close(s.newest, p.frame))
      && (forall i | 0 <= i < |s.slots| && s.slots[i].Some? :: Close(s.slots[i].value.id, p.frame))
  }

  /** The numbers that a poll compares are close to each other. */
  ghost predicate PollInWindow(s: Pipe) {
    && (s.haveNext && s.haveNewest ==> Close(s.next, s.newest))
    && (forall i | 0 <= i < |s.slots| && s.slots[i].Some? ::
         Close(s.slots[i].value.id, s.next) && (s.haveNewest ==> Close(s.slots[i].value.id, s.newest)))
  }

  ghost predicate InWindow(s: Pipe, e: Event) {
    match e
    case Garbage => true
    case Arrive(p, _) => ArrivalInWindow(s, p)
    case Poll(_) => PollInWindow(s)
  }

  /** A frame that has received anything is not newer than the newest number. */
  ghost predicate Tracked(s: Pipe) {
    forall i | 0 <= i < |s.slots| && s.slots[i].Some? && s.slots[i].value.received > 0 ::
      s.haveNewest && s.slots[i].value.id <= s.newest
  }

  // ---------- Tracked is kept ----------

  lemma StepTracked(s: Pipe, e: Event)
    requires Valid(Unbounded, s) && Tracked(s) && EventOk(Unbounded, e)
    ensures Tracked(Step(Unbounded, s, e).0)
  {
    hide Accept, Read, FrameOk;
    match e {
      case Garbage =>
      case Arrive(p, now) => AcceptTracked(s, p, now);
      case Poll(now) => ReadTracked(s, now);
    }
  }

  lemma AcceptTracked(s: Pipe, p: Packet, now: uint64)
    requires Valid(Unbounded, s) && Tracked(s) && Decoded(p)
    ensures Tracked(Accept(Unbounded, s, p, now))
  {
    hide FrameOk, Place;
    EnterValid(Unbounded, s, p.session);
    var t := Enter(s, p.session);
    if !(t.haveNext && Newer(Unbounded, t.next, p.frame)) {
      PlaceTracked(if t.haveNext then t else t.(next := p.frame, nextWait := now, haveNext := true), p, now);
    }
  }

  lemma PlaceTracked(s: Pipe, p: Packet, now: uint64)
    requires Valid(Unbounded, s) && Tracked(s) && Decoded(p) && s.session == p.session
    ensures Tracked(Place(Unbounded, s, p, now))
  {
    hide FrameOk, Store, SlotFor, Distinct, SlotOk, Before;
    SlotForFinds(Unbounded, s, p);
    var k := SlotFor(s, p);
    if k < |s.slots| {
      hide Place;
      PlaceShape(Unbounded, s, p, now);
      BeforeIs(s, k, p, now);
      PutTracked(s, k, Before(s, k, p, now), Store(Before(s, k, p, now), p), p.frame);
    }
  }

  lemma PutTracked(s: Pipe, k: nat, f: Frame, v: Verdict, id: int)
    requires Tracked(s) && k < |s.slots| && f.id == id && (v.Stored? ==> v.frame.id == id)
    requires s.slots[k].Some? ==> s.slots[k].value == f
    requires !v.Stored? ==> f.received == 0 || s.slots[k].Some?
    ensures Tracked(Put(Unbounded, s, k, f, v, id))
  {}

  lemma {:induction false} ReadTracked(s: Pipe, now: uint64)
    requires Valid(Unbounded, s) && Tracked(s)
    ensures Tracked(Read(Unbounded, s, now).0)
    decreases Occupied(s.slots), if Newer(Unbounded, s.newest, s.next) then 1 else 0
  {
    hide Read, TurnOf, FrameOk, Distinct;
    ReadUnfolds(Unbounded, s, now);
    match TurnOf(Unbounded, s, now) {
      case Waits =>
      case Takes(k) =>
      case Discards(k) =>
        TakenValid(Unbounded, s, k, now);
        ReadTracked(Discard(Unbounded, s, k, now), now);
      case Skips =>
        SkipValid(Unbounded, s, now);
        ReadTracked(Skip(Unbounded, s, now), now);
    }
  }

  // ---------- Arrivals ----------

  lemma {:induction false} FindFrameWraps(slots: seq<Option<Frame>>, session: uint32, id: int, i: nat)
    requires i <= |slots|
    requires forall j | 0 <= j < |slots| && slots[j].Some? && slots[j].value.session == session ::
      Close(slots[j].value.id, id)
    ensures FindFrame(WrapSlots(slots), session, Wrap(id), i) == FindFrame(slots, session, id, i)
    decreases |slots| - i
  {
    if i < |slots| {
      if slots[i].Some? && slots[i].value.session == session { NewerIsOrder(slots[i].value.id, id); }
      FindFrameWraps(slots, session, id, i + 1);
    }
  }

  lemma {:induction false} FindFreeWraps(slots: seq<Option<Frame>>, i: nat)
    requires i <= |slots|
    ensures FindFree(WrapSlots(slots), i) == FindFree(slots, i)
    decreases |slots| - i
  {
    if i < |slots| { FindFreeWraps(slots, i + 1); }
  }

  function WrapVerdict(v: Verdict): Verdict {
    match v
    case Stored(f, repaired) => Stored(WrapFrame(f), repaired)
    case _ => v
  }

  lemma WrapFrameOk(f: Frame)
    requires FrameOk(f)
    ensures FrameOk(WrapFrame(f))
  {
    hide GroupOk, Counted, Zeros;
  }

  lemma RecoverGroupWraps(f: Frame, g: nat)
    requires FrameOk(f) && g < |f.groups|
    ensures FrameOk(WrapFrame(f))
    ensures RecoverGroup(WrapFrame(f), g) == (WrapFrame(RecoverGroup(f, g).0), RecoverGroup(f, g).1)
  {
    hide Recover, Missing, FrameOk, GroupOk, Splice;
    WrapFrameOk(f);
  }

  lemma StoreDataWraps(f: Frame, index: nat, payload: seq<byte>)
    requires index < |f.shards| == |f.present| && |payload| <= |f.shards[index]|
    ensures StoreData(WrapFrame(f), index, payload) == WrapFrame(StoreData(f, index, payload))
  {}

  lemma StoreParityWraps(f: Frame, g: nat, k: nat, payload: seq<byte>)
    requires g < |f.groups|
    ensures StoreParity(WrapFrame(f), g, k, payload) == WrapFrame(StoreParity(f, g, k, payload))
  {}

  lemma RuleWraps(f: Frame, p: Packet)
    requires FrameOk(f)
    ensures FrameOk(WrapFrame(f)) && Rule(WrapFrame(f), WrapPacket(p)) == Rule(f, p)
  {
    hide FrameOk;
    WrapFrameOk(f);
  }

  /** Storing a shard does not look at the frame number. */
  lemma StoreWraps(f: Frame, p: Packet)
    requires FrameOk(f)
    ensures FrameOk(WrapFrame(f)) && Store(WrapFrame(f), WrapPacket(p)) == WrapVerdict(Store(f, p))
  {
    hide FrameOk, Rule, RecoverGroup, StoreData, StoreParity;
    RuleWraps(f, p);
    match Rule(f, p) {
      case Refuse =>
      case Ignore =>
      case KeepData(index) =>
        RuleFits(f, p);
        StoreDataWraps(f, index, p.payload);
      case KeepParity(k) =>
        StoreParityOk(f, p.group, k, p.payload);
        StoreParityWraps(f, p.group, k, p.payload);
        RecoverGroupWraps(StoreParity(f, p.group, k, p.payload), p.group);
    }
  }

  lemma RuleFits(f: Frame, p: Packet)
    requires FrameOk(f) && Rule(f, p).KeepData?
    ensures Rule(f, p).index < |f.shards| == |f.present| && |p.payload| <= |f.shards[Rule(f, p).index]|
  {
    hide Rule;
  }

  lemma EnterWraps(s: Pipe, session: uint32)
    ensures Enter(WrapPipe(s), session) == WrapPipe(Enter(s, session))
  {
    assert WrapSlots(NoFrames(|s.slots|)) == NoFrames(|s.slots|);
  }

  /** The state in which a datagram is placed: its session is in progress, and delivery has somewhere to start. */
  function Entered(s: Pipe, p: Packet, now: uint64): Pipe {
    var t := Enter(s, p.session);
    if t.haveNext then t else t.(next := p.frame, nextWait := now, haveNext := true)
  }

  lemma EnteredWraps(s: Pipe, p: Packet, now: uint64)
    ensures Entered(WrapPipe(s), WrapPacket(p), now) == WrapPipe(Entered(s, p, now))
  {
    hide Enter;
    EnterWraps(s, p.session);
  }

  lemma EnteredInWindow(s: Pipe, p: Packet, now: uint64)
    requires Valid(Unbounded, s) && ArrivalInWindow(s, p)
    ensures ArrivalInWindow(Entered(s, p, now), p)
    ensures Enter(s, p.session).haveNext ==> Close(Enter(s, p.session).next, p.frame)
  {
    hide FrameOk, Distinct;
    forall i | 0 <= i < |s.slots| && s.slots[i].Some? ensures s.haveNext {
      assert SlotOk(Unbounded, s, s.slots[i].value);
    }
  }

  lemma AcceptWraps(s: Pipe, p: Packet, now: uint64)
    requires Valid(Unbounded, s) && Decoded(p) && ArrivalInWindow(s, p)
    ensures SlotsOk(WrapPipe(s))
    ensures Accept(Wrapping, WrapPipe(s), WrapPacket(p), now) == WrapPipe(Accept(Unbounded, s, p, now))
  {
    hide FrameOk, Place, SlotOk, Distinct, Enter, ArrivalInWindow;
    WrapSlotsOk(s);
    EnterValid(Unbounded, s, p.session);
    EnterWraps(s, p.session);
    EnteredWraps(s, p, now);
    EnteredInWindow(s, p, now);
    var t := Enter(s, p.session);
    if t.haveNext { NewerIsOrder(t.next, p.frame); }
    if !(t.haveNext && Newer(Unbounded, t.next, p.frame)) { PlaceWraps(Entered(s, p, now), p, now); }
  }

  lemma SlotForWraps(s: Pipe, p: Packet)
    requires s.session == p.session && ArrivalInWindow(s, p)
    requires forall i | 0 <= i < |s.slots| && s.slots[i].Some? :: Close(s.slots[i].value.id, p.frame)
    ensures SlotFor(WrapPipe(s), WrapPacket(p)) == SlotFor(s, p)
  {
    FindFrameWraps(s.slots, p.session, p.frame, 0);
    FindFreeWraps(s.slots, 0);
  }

  lemma BeforeWraps(s: Pipe, k: nat, p: Packet, now: uint64)
    requires SlotsOk(s) && Decoded(p) && k < |s.slots|
    ensures SlotsOk(WrapPipe(s)) && Before(WrapPipe(s), k, WrapPacket(p), now) == WrapFrame(Before(s, k, p, now))
  {
    hide FrameOk;
    WrapSlotsOk(s);
  }

  lemma PlaceWraps(s: Pipe, p: Packet, now: uint64)
    requires SlotsOk(s) && Decoded(p) && s.session == p.session && ArrivalInWindow(s, p)
    ensures SlotsOk(WrapPipe(s))
    ensures Place(Wrapping, WrapPipe(s), WrapPacket(p), now) == WrapPipe(Place(Unbounded, s, p, now))
  {
    hide FrameOk, Store, SlotFor, Before, Put;
    WrapSlotsOk(s);
    SlotForWraps(s, p);
    var k := SlotFor(s, p);
    if k < |s.slots| {
      var f := Before(s, k, p, now);
      BeforeWraps(s, k, p, now);
      StoreWraps(f, p);
      if s.haveNewest { NewerIsOrder(p.frame, s.newest); }
      PutWraps(s, k, f, Store(f, p), p.frame);
    }
  }

  lemma WrapSlotsOk(s: Pipe)
    requires SlotsOk(s)
    ensures SlotsOk(WrapPipe(s))
  {}

  lemma PutWraps(s: Pipe, k: nat, f: Frame, v: Verdict, id: int)
    requires k < |s.slots| && (s.haveNewest ==> Newer(Wrapping, Wrap(id), Wrap(s.newest)) == (id > s.newest))
    ensures Put(Wrapping, WrapPipe(s), k, WrapFrame(f), WrapVerdict(v), Wrap(id)) ==
      WrapPipe(Put(Unbounded, s, k, f, v, id))
  {
    var g := match v case Stored(h, _) => h case _ => f;
    assert WrapSlots(s.slots[k := Some(g)]) == WrapSlots(s.slots)[k := Some(WrapFrame(g))];
  }

  // ---------- Polls ----------

  lemma {:induction false} FindNextWraps(slots: seq<Option<Frame>>, id: int, i: nat)
    requires i <= |slots|
    requires forall j | 0 <= j < |slots| && slots[j].Some? :: Close(slots[j].value.id, id)
    ensures FindNext(WrapSlots(slots), Wrap(id), i) == FindNext(slots, id, i)
    decreases |slots| - i
  {
    if i < |slots| {
      if slots[i].Some? { NewerIsOrder(slots[i].value.id, id); }
      FindNextWraps(slots, id, i + 1);
    }
  }

  lemma TurnWraps(s: Pipe, now: uint64)
    requires Valid(Unbounded, s) && PollInWindow(s)
    ensures TurnOf(Wrapping, WrapPipe(s), now) == TurnOf(Unbounded, s, now)
  {
    hide FrameOk, SlotOk, Distinct, Newer, Elapsed;
    if s.haveNext {
      FindNextWraps(s.slots, s.next, 0);
      if s.haveNewest { NewerWraps(s.newest, s.next); }
    }
  }

  lemma NewerWraps(a: int, b: int)
    requires Close(a, b)
    ensures Newer(Wrapping, Wrap(a), Wrap(b)) == Newer(Unbounded, a, b)
  {
    NewerIsOrder(a, b);
  }

  lemma DiscardWraps(s: Pipe, k: nat, now: uint64)
    requires Valid(Unbounded, s) && Tracked(s) && PollInWindow(s) && s.haveNext
    requires k < |s.slots| && s.slots[k].Some? && s.slots[k].value.id == s.next && Complete(s.slots[k].value)
    ensures Discard(Wrapping, WrapPipe(s), k, now) == WrapPipe(Discard(Unbounded, s, k, now))
    ensures Tracked(Discard(Unbounded, s, k, now)) && PollInWindow(Discard(Unbounded, s, k, now))
  {
    hide FrameOk, SlotOk, Distinct, Tracked, PollInWindow, Discard, WrapPipe;
    DiscardCommutes(s, k, now);
    CompleteIsTracked(s, k);
    DiscardInWindow(s, k, now);
  }

  lemma DiscardCommutes(s: Pipe, k: nat, now: uint64)
    requires k < |s.slots|
    ensures Discard(Wrapping, WrapPipe(s), k, now) == WrapPipe(Discard(Unbounded, s, k, now))
  {
    assert WrapSlots(s.slots[k := None]) == WrapSlots(s.slots)[k := None];
  }

  /** A complete frame has received something, so delivery does not wait beyond the newest number. */
  lemma CompleteIsTracked(s: Pipe, k: nat)
    requires SlotsOk(s) && Tracked(s) && k < |s.slots| && s.slots[k].Some? && Complete(s.slots[k].value)
    ensures s.haveNewest && s.slots[k].value.id <= s.newest
  {
    hide Rectangular, GroupOk, Zeros, Counted;
    assert FrameOk(s.slots[k].value);
  }

  lemma DiscardInWindow(s: Pipe, k: nat, now: uint64)
    requires Valid(Unbounded, s) && Tracked(s) && PollInWindow(s) && s.haveNext && s.haveNewest && s.next <= s.newest
    requires k < |s.slots| && s.slots[k].Some? && s.slots[k].value.id == s.next
    ensures Tracked(Discard(Unbounded, s, k, now)) && PollInWindow(Discard(Unbounded, s, k, now))
  {
    hide FrameOk;
    var t := Discard(Unbounded, s, k, now);
    forall i | 0 <= i < |t.slots| && t.slots[i].Some? ensures Close(t.slots[i].value.id, t.next) {
      assert SlotOk(Unbounded, s, s.slots[i].value);
      assert Close(s.slots[i].value.id, s.next);
    }
  }

  lemma SkipWraps(s: Pipe, now: uint64)
    requires PollInWindow(s) && s.haveNext && s.haveNewest && s.newest > s.next
    ensures Skip(Wrapping, WrapPipe(s), now) == WrapPipe(Skip(Unbounded, s, now))
    ensures PollInWindow(Skip(Unbounded, s, now))
  {
    NewerIsOrder(s.newest, s.next);
    forall i | 0 <= i < |s.slots| && s.slots[i].Some?
      ensures Newer(Wrapping, Wrap(s.newest), Wrap(s.slots[i].value.id)) == (s.newest > s.slots[i].value.id)
    {
      NewerIsOrder(s.newest, s.slots[i].value.id);
    }
    assert DropBefore(Wrapping, WrapSlots(s.slots), Wrap(s.newest)) ==
      WrapSlots(DropBefore(Unbounded, s.slots, s.newest));
  }

  lemma {:induction false} ReadWraps(s: Pipe, now: uint64)
    requires Valid(Unbounded, s) && Tracked(s) && PollInWindow(s)
    ensures Read(Wrapping, WrapPipe(s), now) ==
      (WrapPipe(Read(Unbounded, s, now).0), WrapDelivery(Read(Unbounded, s, now).1))
    decreases Occupied(s.slots), if Newer(Unbounded, s.newest, s.next) then 1 else 0
  {
    hide Read, TurnOf, FrameOk, Distinct, PollInWindow, Discard, Skip, Contents, WrapPipe;
    ReadUnfolds(Unbounded, s, now);
    ReadUnfolds(Wrapping, WrapPipe(s), now);
    TurnWraps(s, now);
    match TurnOf(Unbounded, s, now) {
      case Waits =>
      case Takes(k) =>
        DiscardWraps(s, k, now);
        TakeWraps(s, k);
      case Discards(k) =>
        TakenValid(Unbounded, s, k, now);
        DiscardWraps(s, k, now);
        ReadWraps(Discard(Unbounded, s, k, now), now);
      case Skips =>
        SkipValid(Unbounded, s, now);
        SkipWraps(s, now);
        SkipTracked(s, now);
        ReadWraps(Skip(Unbounded, s, now), now);
    }
  }

  lemma TakeWraps(s: Pipe, k: nat)
    requires k < |s.slots| && s.slots[k].Some?
    ensures WrapPipe(s).slots[k] == Some(WrapFrame(s.slots[k].value))
    ensures Deliver(WrapFrame(s.slots[k].value)) == Deliver(s.slots[k].value).(id := Wrap(s.slots[k].value.id))
    ensures forall t: Pipe :: WrapPipe(t.(needKeyframe := false)) == WrapPipe(t).(needKeyframe := false)
  {}

  lemma SkipTracked(s: Pipe, now: uint64)
    requires Tracked(s)
    ensures Tracked(Skip(Unbounded, s, now))
  {}

  // ---------- Runs ----------

  lemma StepWraps(s: Pipe, e: Event)
    requires Valid(Unbounded, s) && Tracked(s) && EventOk(Unbounded, e) && InWindow(s, e)
    ensures SlotsOk(WrapPipe(s)) && EventOk(Wrapping, WrapEvent(e))
    ensures Step(Wrapping, WrapPipe(s), WrapEvent(e)) ==
            (WrapPipe(Step(Unbounded, s, e).0), WrapDelivery(Step(Unbounded, s, e).1))
  {
    hide FrameOk, Accept, Read, Distinct;
    WrapSlotsOk(s);
    match e {
      case Garbage =>
      case Arrive(p, now) => AcceptWraps(s, p, now);
      case Poll(now) => ReadWraps(s, now);
    }
  }

  /** Along the whole run, whatever is compared is less than 2^31 apart. */
  ghost predicate RunInWindow(s: Pipe, es: seq<Event>)
    requires Valid(Unbounded, s) && EventsOk(Unbounded, es)
    decreases |es|
  {
    es == [] ||
    (assert EventOk(Unbounded, es[0]);
     StepValid(Unbounded, s, es[0]);
     InWindow(s, es[0]) && RunInWindow(Step(Unbounded, s, es[0]).0, es[1..]))
  }

  function WrapEvents(es: seq<Event>): (r: seq<Event>)
    ensures |r| == |es|
    ensures forall i | 0 <= i < |es| :: r[i] == WrapEvent(es[i])
  {
    seq(|es|, i requires 0 <= i < |es| => WrapEvent(es[i]))
  }

  /**
   * Step for step and over any number of wraps, the receiver on 32-bit numbers is the receiver on
   * unbounded numbers, seen modulo 2^32.
   */
  lemma {:induction false} RunWraps(s: Pipe, es: seq<Event>)
    requires Valid(Unbounded, s) && Tracked(s) && EventsOk(Unbounded, es) && RunInWindow(s, es)
    requires Valid(Wrapping, WrapPipe(s))
    ensures EventsOk(Wrapping, WrapEvents(es))
    ensures Run(Wrapping, WrapPipe(s), WrapEvents(es)).0 == WrapPipe(Run(Unbounded, s, es).0)
    ensures forall i | 0 <= i < |es| ::
      Run(Wrapping, WrapPipe(s), WrapEvents(es)).1[i] == WrapDelivery(Run(Unbounded, s, es).1[i])
    decreases |es|
  {
    hide Step, WrapPipe, WrapEvent, WrapDelivery, FrameOk, SlotOk, Distinct, InWindow, Tracked;
    forall i | 0 <= i < |es| ensures EventOk(Wrapping, WrapEvent(es[i])) { WrapEventOk(es[i]); }
    if es != [] {
      var e := es[0];
      assert EventOk(Unbounded, e);
      StepWraps(s, e);
      StepValid(Unbounded, s, e);
      StepValid(Wrapping, WrapPipe(s), WrapEvent(e));
      StepTracked(s, e);
      RunWraps(Step(Unbounded, s, e).0, es[1..]);
      assert WrapEvents(es)[1..] == WrapEvents(es[1..]);
    }
  }

  lemma WrapEventOk(e: Event)
    requires EventOk(Unbounded, e)
    ensures EventOk(Wrapping, WrapEvent(e))
  {}

  /**
   * Integrity across wraps: with a history of unbounded frame numbers, each delivery of the
   * 32-bit receiver is an intact frame of the history, its number taken modulo 2^32.
   */
  lemma RunIsIntactAcrossWraps(h: History, es: seq<Event>)
    requires EventsOk(Unbounded, es) && Valid(Unbounded, INITIAL) && RunInWindow(INITIAL, es)
    requires forall i | 0 <= i < |es| :: Honest(h, es[i])
    ensures EventsOk(Wrapping, WrapEvents(es)) && Valid(Wrapping, INITIAL)
    ensures forall i | 0 <= i < |es| ::
      Run(Wrapping, INITIAL, WrapEvents(es)).1[i].Some? ==>
        exists d: Delivery :: Intact(h, d) && Run(Wrapping, INITIAL, WrapEvents(es)).1[i] == WrapDelivery(Some(d))
  {
    InitialValid(Unbounded);
    InitialValid(Wrapping);
    assert WrapPipe(INITIAL) == INITIAL;
    RunWraps(INITIAL, es);
    RunIsIntact(Unbounded, h, INITIAL, es);
    var ds := Run(Unbounded, INITIAL, es).1;
    forall i | 0 <= i < |es| && Run(Wrapping, INITIAL, WrapEvents(es)).1[i].Some?
      ensures exists d: Delivery :: Intact(h, d) && Run(Wrapping, INITIAL, WrapEvents(es)).1[i] == WrapDelivery(Some(d))
    {
      assert Intact(h, ds[i].value);
    }
  }
}
