/** What every datagram and every poll keeps true of the receiver. */
module ReassemblyInvariant {
  import opened Wrappers
  import opened Field
  import opened Fec
  import opened Wire
  import opened FrameIds
  import opened Reassembly

  // ---------- Counting present shards ----------

  lemma {:induction false} CountedSum(a: seq<bool>, b: seq<bool>)
    ensures Counted(a + b) == Counted(a) + Counted(b)
    decreases b
  {
    if b == [] {
      assert a + b == a;
    } else {
      var m := |b| - 1;
      assert (a + b)[..|a| + m] == a + b[..m];
      CountedSum(a, b[..m]);
    }
  }

  lemma {:induction false} CountedAll(n: nat)
    ensures Counted(Everything(n)) == n
  {
    if n != 0 {
      assert Everything(n)[..n - 1] == Everything(n - 1);
      CountedAll(n - 1);
    }
  }

  lemma {:induction false} CountedSet(present: seq<bool>, i: nat)
    requires i < |present| && !present[i]
    ensures Counted(present[i := true]) == Counted(present) + 1
    decreases |present|
  {
    var m := |present| - 1;
    if i < m {
      CountedSet(present[..m], i);
      assert present[i := true][..m] == present[..m][i := true];
    } else {
      assert present[i := true][..m] == present[..m];
    }
  }

  lemma {:induction false} CountedMissing(present: seq<bool>, n: nat)
    requires n <= |present|
    ensures Counted(present[..n]) + |Missing(present, n)| == n
  {
    if n != 0 {
      CountedMissing(present, n - 1);
      assert present[..n][..n - 1] == present[..n - 1];
    }
  }

  /** All shards have been received exactly when every one is present. */
  lemma {:induction false} CompleteMeansPresent(present: seq<bool>)
    ensures Counted(present) <= |present|
    ensures Counted(present) == |present| <==> forall i | 0 <= i < |present| :: present[i]
  {
    if present != [] {
      var m := |present| - 1;
      CompleteMeansPresent(present[..m]);
      assert forall i | 0 <= i < m :: present[..m][i] == present[i];
    }
  }

  // ---------- One frame ----------

  ghost predicate SameFrame(f: Frame, g: Frame) {
    && g.session == f.session && g.id == f.id && g.size == f.size && g.timestamp == f.timestamp
    && g.keyframe == f.keyframe && g.firstPacket == f.firstPacket
    && |g.shards| == |f.shards| && |g.present| == |f.present| && |g.groups| == |f.groups|
  }

  lemma FrameLengths(f: Frame)
    requires FrameOk(f)
    ensures |f.present| == |f.shards| && |f.groups| == GroupCount(|f.shards|)
  {}

  lemma StoreDataOk(f: Frame, index: nat, payload: seq<byte>)
    requires FrameOk(f) && index < |f.shards| && |payload| <= SHARD_SIZE
    ensures FrameOk(StoreData(f, index, payload)) && SameFrame(f, StoreData(f, index, payload))
    ensures StoreData(f, index, payload).received >= f.received
  {
    if !f.present[index] { CountedSet(f.present, index); }
  }

  lemma GroupBounds(shards: nat, g: nat)
    requires g < GroupCount(shards)
    ensures 0 < GroupSize(shards, g) <= DATA_SHARDS
    ensures g * DATA_SHARDS + GroupSize(shards, g) <= shards
  {}

  lemma CountedSplice(present: seq<bool>, first: nat, last: nat)
    requires first <= last <= |present|
    ensures Counted(Splice(present, first, Everything(last - first))) ==
            Counted(present) + |Missing(present[first..last], last - first)|
  {
    hide Missing;
    var middle := present[first..last];
    assert present == present[..first] + middle + present[last..];
    CountedSum(present[..first] + middle, present[last..]);
    CountedSum(present[..first], middle);
    CountedSum(present[..first] + Everything(last - first), present[last..]);
    CountedSum(present[..first], Everything(last - first));
    CountedAll(last - first);
    CountedMissing(middle, |middle|);
    assert middle[..|middle|] == middle;
  }

  lemma RecoverGroupOk(f: Frame, g: nat)
    requires FrameOk(f) && g < |f.groups|
    ensures FrameOk(RecoverGroup(f, g).0) && SameFrame(f, RecoverGroup(f, g).0)
    ensures RecoverGroup(f, g).0.received == f.received + RecoverGroup(f, g).1
  {
    hide Recover, Missing, Counted, GroupOk, Zeros, Splice;
    var first := g * DATA_SHARDS;
    var count := GroupSize(|f.shards|, g);
    GroupBounds(|f.shards|, g);
    CountedSplice(f.present, first, first + count);
    var (h, repaired) := RecoverGroup(f, g);
    if repaired != 0 {
      assert h.present == Splice(f.present, first, Everything(count));
      forall i | 0 <= i < |h.shards| && !h.present[i] ensures h.shards[i] == Zeros(SHARD_SIZE) {
        assert !(first <= i < first + count);
      }
    }
  }

  lemma StoreOk(f: Frame, p: Packet)
    requires FrameOk(f) && Store(f, p).Stored?
    ensures FrameOk(Store(f, p).frame) && SameFrame(f, Store(f, p).frame)
    ensures Store(f, p).frame.received >= f.received
  {
    hide RecoverGroup, FrameOk, Rule, StoreData;
    match Rule(f, p) {
      case KeepData(index) => StoreDataOk(f, index, p.payload);
      case KeepParity(k) =>
        StoreParityOk(f, p.group, k, p.payload);
        RecoverGroupOk(StoreParity(f, p.group, k, p.payload), p.group);
    }
  }

  // ---------- The whole receiver ----------

  /**
   * The reassembly invariant: every occupied slot is well formed, belongs to the session in
   * progress, has a number of its own, and is not older than the frame delivery waits for.
   */
  ghost predicate Valid(n: Numbering, s: Pipe) {
    && SlotsOk(s)
    && IsId(n, s.next) && IsId(n, s.newest)
    && (s.haveNext ==> s.session != 0)
    && (s.haveNewest ==> s.haveNext)
    && (forall i | 0 <= i < |s.slots| && s.slots[i].Some? :: SlotOk(n, s, s.slots[i].value))
    && Distinct(s.slots)
  }

  ghost predicate SlotOk(n: Numbering, s: Pipe, f: Frame) {
    s.haveNext && f.session == s.session && IsId(n, f.id) && !Newer(n, s.next, f.id)
  }

  ghost predicate Distinct(slots: seq<Option<Frame>>) {
    forall i, j | 0 <= i < j < |slots| && slots[i].Some? && slots[j].Some? :: slots[i].value.id != slots[j].value.id
  }

  lemma InitialValid(n: Numbering)
    ensures Valid(n, INITIAL)
  {}

  /** What the slot search finds: the only slot of that frame, or a free one if there is none. */
  lemma {:induction false} FindFrameFinds(slots: seq<Option<Frame>>, session: uint32, id: int, i: nat)
    requires i <= |slots|
    ensures
      var k := FindFrame(slots, session, id, i);
      && (k < |slots| ==> slots[k].Some? && slots[k].value.session == session && slots[k].value.id == id)
      && (forall j | i <= j < k :: !(slots[j].Some? && slots[j].value.session == session && slots[j].value.id == id))
    decreases |slots| - i
  {
    if i < |slots| { FindFrameFinds(slots, session, id, i + 1); }
  }

  lemma {:induction false} FindFreeFinds(slots: seq<Option<Frame>>, i: nat)
    requires i <= |slots|
    ensures forall j | i <= j < FindFree(slots, i) :: slots[j].Some?
    decreases |slots| - i
  {
    if i < |slots| { FindFreeFinds(slots, i + 1); }
  }

  lemma {:induction false} FindNextFinds(slots: seq<Option<Frame>>, id: int, i: nat)
    requires i <= |slots|
    ensures forall j | i <= j < FindNext(slots, id, i) :: !(slots[j].Some? && slots[j].value.id == id)
    decreases |slots| - i
  {
    if i < |slots| { FindNextFinds(slots, id, i + 1); }
  }

  lemma EnterValid(n: Numbering, s: Pipe, session: uint32)
    requires Valid(n, s) && session != 0
    ensures Valid(n, Enter(s, session)) && Enter(s, session).session == session
  {}

  lemma AcceptValid(n: Numbering, s: Pipe, p: Packet, now: uint64)
    requires Valid(n, s) && Decoded(p) && IsId(n, p.frame)
    ensures Valid(n, Accept(n, s, p, now))
  {
    hide Place, Enter;
    EnterValid(n, s, p.session);
    var t := Enter(s, p.session);
    if !(t.haveNext && Newer(n, t.next, p.frame)) {
      PlaceValid(n, if t.haveNext then t else t.(next := p.frame, nextWait := now, haveNext := true), p, now);
    }
  }

  /** A frame once the datagram has been dealt with. */
  function After(f: Frame, verdict: Verdict): Frame {
    match verdict
    case Stored(g, _) => g
    case _ => f
  }

  ghost predicate SameBut(s: Pipe, t: Pipe, k: nat, g: Frame)
    requires k < |s.slots|
  {
    && t.slots == s.slots[k := Some(g)]
    && t.session == s.session && t.next == s.next && t.haveNext == s.haveNext && t.nextWait == s.nextWait
    && t.needKeyframe == s.needKeyframe && t.expired == s.expired
  }

  /** A datagram touches one slot, and the frame in it stays the frame it is. */
  lemma PlaceShape(n: Numbering, s: Pipe, p: Packet, now: uint64)
    requires SlotsOk(s) && Decoded(p) && SlotFor(s, p) < |s.slots|
    ensures
      var k := SlotFor(s, p);
      var f := Before(s, k, p, now);
      var v := Store(f, p);
      && FrameOk(After(f, v)) && SameFrame(f, After(f, v)) && f.received <= After(f, v).received
      && Place(n, s, p, now) == Put(n, s, k, f, v, p.frame)
      && SameBut(s, Place(n, s, p, now), k, After(f, v))
  {
    hide Store, FrameOk, SlotFor, Before;
    var f := Before(s, SlotFor(s, p), p, now);
    if Store(f, p).Stored? { StoreOk(f, p); }
  }

  lemma PlaceValid(n: Numbering, s: Pipe, p: Packet, now: uint64)
    requires Valid(n, s) && Decoded(p) && IsId(n, p.frame)
    requires s.haveNext && s.session == p.session && !Newer(n, s.next, p.frame)
    ensures Valid(n, Place(n, s, p, now))
  {
    hide Store, FrameOk, SlotFor, Distinct, After, Before, SlotOk;
    SlotForFinds(n, s, p);
    if SlotFor(s, p) < |s.slots| {
      hide Place;
      var f := Before(s, SlotFor(s, p), p, now);
      BeforeOk(n, s, p, now);
      PlaceShape(n, s, p, now);
      SameFrameOk(n, s, f, After(f, Store(f, p)));
      PutValid(n, s, Place(n, s, p, now), SlotFor(s, p), After(f, Store(f, p)));
    } else {
      CountedValid(n, s);
    }
  }

  lemma BeforeIs(s: Pipe, k: nat, p: Packet, now: uint64)
    requires SlotsOk(s) && Decoded(p) && k < |s.slots|
    ensures FrameOk(Before(s, k, p, now))
    ensures Before(s, k, p, now) == if s.slots[k].Some? then s.slots[k].value else NewFrame(p, now)
    ensures NewFrame(p, now).id == p.frame && NewFrame(p, now).received == 0
  {
    hide FrameOk;
  }

  /** The frame a datagram is stored through belongs in its slot. */
  lemma BeforeOk(n: Numbering, s: Pipe, p: Packet, now: uint64)
    requires Valid(n, s) && Decoded(p) && IsId(n, p.frame) && SlotFor(s, p) < |s.slots|
    requires s.haveNext && s.session == p.session && !Newer(n, s.next, p.frame)
    ensures var f := Before(s, SlotFor(s, p), p, now); SlotOk(n, s, f) && f.id == p.frame
  {
    hide FrameOk, SlotFor, Distinct;
    SlotForFinds(n, s, p);
    ValidSlots(n, s);
  }

  lemma SameFrameOk(n: Numbering, s: Pipe, f: Frame, g: Frame)
    requires SlotOk(n, s, f) && SameFrame(f, g)
    ensures SlotOk(n, s, g) && f.id == g.id
  {}

  lemma CountedValid(n: Numbering, s: Pipe)
    requires Valid(n, s)
    ensures Valid(n, s.(invalid := s.invalid + 1))
  {
    hide FrameOk;
  }

  lemma ValidSlots(n: Numbering, s: Pipe)
    requires Valid(n, s)
    ensures forall i | 0 <= i < |s.slots| && s.slots[i].Some? ::
      FrameOk(s.slots[i].value) && SlotOk(n, s, s.slots[i].value)
  {}

  /** Installing or updating a frame in its own slot; counters and the newest number are free to move. */
  lemma PutValid(n: Numbering, s: Pipe, t: Pipe, k: nat, f: Frame)
    requires Valid(n, s) && k < |s.slots| && FrameOk(f) && SlotOk(n, s, f)
    requires forall i | 0 <= i < |s.slots| && i != k && s.slots[i].Some? :: s.slots[i].value.id != f.id
    requires t.slots == s.slots[k := Some(f)]
    requires t.session == s.session && t.next == s.next && t.haveNext == s.haveNext && IsId(n, t.newest)
    ensures Valid(n, t)
  {
    hide FrameOk;
    forall i | 0 <= i < |t.slots| && t.slots[i].Some? ensures SlotOk(n, t, t.slots[i].value) {
      if i != k { assert SlotOk(n, s, s.slots[i].value); }
    }
  }

  /** Among the slots of one session, the slot search finds the frame's own slot, or a free one, or none. */
  lemma SlotForFinds(n: Numbering, s: Pipe, p: Packet)
    requires Valid(n, s) && s.session == p.session
    ensures
      var k := SlotFor(s, p);
      && k <= |s.slots| == 16
      && (k < |s.slots| && s.slots[k].Some? ==> s.slots[k].value.id == p.frame)
      && (k < |s.slots| ==> forall i | 0 <= i < |s.slots| && i != k && s.slots[i].Some? ::
         s.slots[i].value.id != p.frame)
      && (k == |s.slots| ==> forall i | 0 <= i < |s.slots| :: s.slots[i].Some? && s.slots[i].value.id != p.frame)
  {
    hide FrameOk;
    FindFrameFinds(s.slots, p.session, p.frame, 0);
    FindFreeFinds(s.slots, 0);
    assert forall i | 0 <= i < |s.slots| && s.slots[i].Some? :: SlotOk(n, s, s.slots[i].value);
  }

  lemma TakenValid(n: Numbering, s: Pipe, k: nat, now: uint64)
    requires Valid(n, s) && s.haveNext && k < |s.slots| && s.slots[k].Some? && s.slots[k].value.id == s.next
    ensures Valid(n, Discard(n, s, k, now))
  {
    var t := Discard(n, s, k, now);
    forall i | 0 <= i < |t.slots| && t.slots[i].Some? ensures SlotOk(n, t, t.slots[i].value) {
      assert SlotOk(n, s, s.slots[i].value);
    }
  }

  lemma SkipValid(n: Numbering, s: Pipe, now: uint64)
    requires Valid(n, s) && s.haveNext && s.haveNewest
    ensures Valid(n, Skip(n, s, now))
  {}

  /** ready_frame, one turn of its loop at a time. */
  lemma ReadyUnfolds(n: Numbering, s: Pipe, now: uint64)
    ensures
      var turn := TurnOf(n, s, now);
      && (turn.Waits? ==> Ready(n, s, now) == (s, None))
      && (turn.Takes? ==> Ready(n, s, now) == (Take(n, s, now), Some(turn.slot)))
      && (turn.Discards? ==>
            var t := Discard(n, s, turn.slot, now);
            Ready(n, s, now) == Ready(n, t, now) && Occupied(t.slots) < Occupied(s.slots))
      && (turn.Skips? ==>
            var t := Skip(n, s, now);
            && Ready(n, s, now) == Ready(n, t, now) && Occupied(t.slots) <= Occupied(s.slots)
            && Newer(n, s.newest, s.next) && !Newer(n, t.newest, t.next))
    ensures !s.haveNext ==> TurnOf(n, s, now) == Waits
  {
    hide TurnOf;
    var turn := TurnOf(n, s, now);
    if turn.Discards? { OccupiedFreed(s.slots, turn.slot); }
    if turn.Skips? { OccupiedDropped(n, s.slots, s.newest); }
  }

  /** A poll, one turn of its loop at a time. */
  lemma ReadUnfolds(n: Numbering, s: Pipe, now: uint64)
    ensures Read(n, s, now) ==
      match TurnOf(n, s, now)
      case Waits => (s, None)
      case Takes(k) => (Discard(n, s, k, now).(needKeyframe := false), Some(Deliver(s.slots[k].value)))
      case Discards(k) => Read(n, Discard(n, s, k, now), now)
      case Skips => Read(n, Skip(n, s, now), now)
    ensures
      match TurnOf(n, s, now)
      case Discards(k) => Occupied(Discard(n, s, k, now).slots) < Occupied(s.slots)
      case Skips => Occupied(Skip(n, s, now).slots) <= Occupied(s.slots)
                    && Newer(n, s.newest, s.next) && !Newer(n, Skip(n, s, now).newest, Skip(n, s, now).next)
      case _ => true
  {
    hide TurnOf;
    match TurnOf(n, s, now) {
      case Discards(k) => OccupiedFreed(s.slots, k);
      case Skips => OccupiedDropped(n, s.slots, s.newest);
      case _ =>
    }
  }

  /** A poll keeps the invariant once the delivered slot is freed. */
  lemma {:induction false} ReadValid(n: Numbering, s: Pipe, now: uint64)
    requires Valid(n, s)
    ensures Valid(n, Read(n, s, now).0)
    decreases Occupied(s.slots), if Newer(n, s.newest, s.next) then 1 else 0
  {
    hide Read, TurnOf, FrameOk, Skip;
    ReadUnfolds(n, s, now);
    match TurnOf(n, s, now) {
      case Waits =>
      case Takes(k) =>
        TakenValid(n, s, k, now);
      case Discards(k) =>
        TakenValid(n, s, k, now);
        ReadValid(n, Discard(n, s, k, now), now);
      case Skips =>
        SkipValid(n, s, now);
        ReadValid(n, Skip(n, s, now), now);
    }
  }

  lemma StepValid(n: Numbering, s: Pipe, e: Event)
    requires Valid(n, s) && EventOk(n, e)
    ensures Valid(n, Step(n, s, e).0)
  {
    hide Accept, Read, FrameOk;
    match e {
      case Garbage =>
      case Arrive(p, now) => AcceptValid(n, s, p, now);
      case Poll(now) => ReadValid(n, s, now);
    }
  }

  ghost predicate EventsOk(n: Numbering, es: seq<Event>) {
    forall i | 0 <= i < |es| :: EventOk(n, es[i])
  }

  /** A whole run: the final state, and what each event delivered. */
  ghost function Run(n: Numbering, s: Pipe, es: seq<Event>): (r: (Pipe, seq<Option<Delivery>>))
    requires Valid(n, s) && EventsOk(n, es)
    ensures Valid(n, r.0) && |r.1| == |es|
    decreases |es|
  {
    if es == [] then (s, [])
    else
      assert EventOk(n, es[0]);
      StepValid(n, s, es[0]);
      var (t, d) := Step(n, s, es[0]);
      var (u, ds) := Run(n, t, es[1..]);
      (u, [d] + ds)
  }

  /** The states of a run: before each event, and after the last. */
  ghost function Trail(n: Numbering, s: Pipe, es: seq<Event>): (ts: seq<Pipe>)
    requires Valid(n, s) && EventsOk(n, es)
    ensures |ts| == |es| + 1 && ts[0] == s && ts[|es|] == Run(n, s, es).0
    ensures forall i | 0 <= i < |ts| :: Valid(n, ts[i])
    decreases |es|
  {
    if es == [] then [s]
    else
      assert EventOk(n, es[0]);
      StepValid(n, s, es[0]);
      [s] + Trail(n, Step(n, s, es[0]).0, es[1..])
  }

  /** From each state of the run to the next it is one step. */
  lemma {:induction false} TrailSteps(n: Numbering, s: Pipe, es: seq<Event>, i: nat)
    requires Valid(n, s) && EventsOk(n, es) && i < |es|
    ensures EventOk(n, es[i])
    ensures
      var ts := Trail(n, s, es);
      Step(n, ts[i], es[i]) == (ts[i + 1], Run(n, s, es).1[i])
    decreases i
  {
    hide Step;
    assert EventOk(n, es[0]) && EventOk(n, es[i]);
    StepValid(n, s, es[0]);
    if i > 0 { TrailSteps(n, Step(n, s, es[0]).0, es[1..], i - 1); }
  }
}
