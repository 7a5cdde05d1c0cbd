/** What the receiver's statistics count. */
module Counters {
  import opened Wrappers
  import opened Fec
  import opened Wire
  import opened FrameIds
  import opened Reassembly
  import opened ReassemblyInvariant
  import opened Integrity
  import opened DeliveryOrder

  // ---------- Invalid datagrams ----------

  /** The slot a datagram needs is missing: its frame has none and none of the sixteen is free. */
  predicate Crowded(n: Numbering, s: Pipe, session: uint32, id: int) {
    && (s.session == 0 || s.session == session)
    && (s.haveNext ==> !Newer(n, s.next, id))
    && |s.slots| == 16 && forall i | 0 <= i < |s.slots| :: s.slots[i].Some? && s.slots[i].value.id != id
  }

  lemma FirstValid(n: Numbering, s: Pipe, id: int, now: uint64)
    requires Valid(n, s) && s.session != 0 && IsId(n, id)
    ensures Valid(n, if s.haveNext then s else s.(next := id, nextWait := now, haveNext := true))
  {}

  lemma AcceptCounts(n: Numbering, h: History, s: Pipe, p: Packet, now: uint64)
    requires Valid(n, s) && AllFaithful(h, s) && Decoded(p) && IsId(n, p.frame) && Genuine(h, p)
    ensures Accept(n, s, p, now).invalid == s.invalid + if Crowded(n, s, p.session, p.frame) then 1 else 0
  {
    hide ShardCount, GroupSize, GroupCount, PacketOf, FrameOk, Place, SlotFor, Distinct, FaithfulIn;
    EnterValid(n, s, p.session);
    var t := Enter(s, p.session);
    if !(t.haveNext && Newer(n, t.next, p.frame)) {
      var u := if t.haveNext then t else t.(next := p.frame, nextWait := now, haveNext := true);
      FirstValid(n, t, p.frame, now);
      PlaceFaithful(n, h, u, p, now);
      SlotForFinds(n, u, p);
      var k := SlotFor(u, p);
      if k < |u.slots| {
        assert (s.session == 0 || s.session == p.session) ==> s.slots[k] == u.slots[k];
      } else {
        assert forall j | 0 <= j < |u.slots| :: u.slots[j] == t.slots[j];
        assert u.slots[0].Some?;
      }
    }
  }

  lemma {:induction false} ReadCountsNone(n: Numbering, s: Pipe, now: uint64)
    ensures Read(n, s, now).0.invalid == s.invalid && Read(n, s, now).0.recovered == s.recovered
    decreases Occupied(s.slots), if Newer(n, s.newest, s.next) then 1 else 0
  {
    hide Read, TurnOf, Deliver, Newer;
    ReadUnfolds(n, s, now);
    match TurnOf(n, s, now) {
      case Waits =>
      case Takes(_) =>
      case Discards(k) => ReadCountsNone(n, Discard(n, s, k, now), now);
      case Skips => ReadCountsNone(n, Skip(n, s, now), now);
    }
  }

  /** The event is noise, or a datagram that finds no slot. */
  predicate Counts(n: Numbering, s: Pipe, e: Event) {
    e.Garbage? || (e.Arrive? && Crowded(n, s, e.packet.session, e.packet.frame))
  }

  ghost function InvalidIn(n: Numbering, s: Pipe, es: seq<Event>): nat
    requires Valid(n, s) && EventsOk(n, es)
    decreases |es|
  {
    if es == [] then 0
    else
      assert EventOk(n, es[0]);
      StepValid(n, s, es[0]);
      (if Counts(n, s, es[0]) then 1 else 0) + InvalidIn(n, Step(n, s, es[0]).0, es[1..])
  }

  /** With well-formed senders the counter of invalid datagrams counts the noise and what found no slot. */
  lemma {:induction false} InvalidCounts(n: Numbering, h: History, s: Pipe, es: seq<Event>)
    requires Valid(n, s) && AllFaithful(h, s) && EventsOk(n, es)
    requires forall i | 0 <= i < |es| :: Honest(h, es[i])
    ensures Run(n, s, es).0.invalid == s.invalid + InvalidIn(n, s, es)
    decreases |es|
  {
    hide Accept, Read, AllFaithful, FrameOk, SlotOk, Distinct, Genuine, Crowded;
    if es != [] {
      var e := es[0];
      assert EventOk(n, e) && Honest(h, e);
      StepValid(n, s, e);
      StepFaithful(n, h, s, e);
      match e {
        case Garbage =>
        case Arrive(p, now) => AcceptCounts(n, h, s, p, now);
        case Poll(now) => ReadCountsNone(n, s, now);
      }
      InvalidCounts(n, h, Step(n, s, e).0, es[1..]);
    }
  }

  // ---------- Recovered shards ----------

  lemma StoreCounts(f: Frame, p: Packet)
    requires FrameOk(f) && Store(f, p).Stored?
    ensures FrameOk(Store(f, p).frame)
    ensures
      var v := Store(f, p);
      && |v.frame.present| == |f.present| && (p.shard < p.dataShards ==> v.repaired == 0)
      && (p.shard >= p.dataShards ==> v.repaired == PresentIn(v.frame) - PresentIn(f))
  {
    hide RecoverGroup, FrameOk, Counted;
    StoreOk(f, p);
    FrameCounts(f);
    FrameCounts(Store(f, p).frame);
    match Rule(f, p) {
      case KeepData(_) =>
      case KeepParity(k) =>
        StoreParityOk(f, p.group, k, p.payload);
        RecoverGroupOk(StoreParity(f, p.group, k, p.payload), p.group);
    }
  }

  /** The data shards of a frame that are there. */
  function PresentIn(f: Frame): nat { |set i | 0 <= i < |f.present| && f.present[i]| }

  lemma {:induction false} CountedIsSet(present: seq<bool>)
    ensures Counted(present) == |set i | 0 <= i < |present| && present[i]|
  {
    var all := set i | 0 <= i < |present| && present[i];
    if present != [] {
      var m := |present| - 1;
      CountedIsSet(present[..m]);
      var fewer := set i | 0 <= i < m && present[..m][i];
      assert all == if present[m] then fewer + {m} else fewer;
    }
  }

  lemma FrameCounts(f: Frame)
    requires FrameOk(f)
    ensures f.received == PresentIn(f)
  {
    CountedIsSet(f.present);
  }

  /**
   * The counter of recovered shards grows by those that are there after a parity shard and were
   * not before; nothing else moves it.
   */
  lemma RecoveredCounts(n: Numbering, s: Pipe, p: Packet, now: uint64, k: nat)
    requires Valid(n, s) && Decoded(p) && s.haveNext && s.session == p.session && !Newer(n, s.next, p.frame)
    requires k == SlotFor(s, p) < |s.slots|
    ensures
      var f, t := Before(s, k, p, now), Accept(n, s, p, now);
      && t.slots[k].Some?
      && t.recovered == s.recovered +
           if p.shard < p.dataShards then 0 else PresentIn(t.slots[k].value) - PresentIn(f)
  {
    hide FrameOk, Store, SlotFor, Before, PresentIn, Distinct, SlotOk;
    var f := Before(s, k, p, now);
    PlaceShape(n, s, p, now);
    if Store(f, p).Stored? { StoreCounts(f, p); }
  }

  // ---------- None goes back ----------

  ghost predicate Grown(s: Pipe, t: Pipe) {
    s.invalid <= t.invalid && s.recovered <= t.recovered && s.expired <= t.expired
  }

  lemma PlaceGrows(n: Numbering, s: Pipe, p: Packet, now: uint64)
    requires SlotsOk(s) && Decoded(p)
    ensures Grown(s, Place(n, s, p, now))
  {
    hide FrameOk, Store, SlotFor, Before, Put;
    var k := SlotFor(s, p);
    if k < |s.slots| {
      var f := Before(s, k, p, now);
      PutGrows(n, s, k, f, Store(f, p), p.frame);
    }
  }

  lemma PutGrows(n: Numbering, s: Pipe, k: nat, f: Frame, v: Verdict, id: int)
    requires k < |s.slots|
    ensures Grown(s, Put(n, s, k, f, v, id))
  {}

  lemma AcceptGrows(n: Numbering, s: Pipe, p: Packet, now: uint64)
    requires Valid(n, s) && Decoded(p)
    ensures Grown(s, Accept(n, s, p, now))
  {
    hide FrameOk, Place, Distinct, SlotOk;
    var t := Enter(s, p.session);
    if !(t.haveNext && Newer(n, t.next, p.frame)) {
      PlaceGrows(n, if t.haveNext then t else t.(next := p.frame, nextWait := now, haveNext := true), p, now);
    }
  }

  /** Through any run, new sessions included, no counter ever goes back. */
  lemma {:induction false} CountersGrow(n: Numbering, s: Pipe, es: seq<Event>)
    requires Valid(n, s) && EventsOk(n, es)
    ensures Grown(s, Run(n, s, es).0)
    decreases |es|
  {
    hide Accept, Read, FrameOk, SlotOk, Distinct;
    if es != [] {
      var e := es[0];
      assert EventOk(n, e);
      StepValid(n, s, e);
      match e {
        case Garbage =>
        case Arrive(p, now) => AcceptGrows(n, s, p, now);
        case Poll(now) =>
          ReadCountsNone(n, s, now);
          ReadConserves(n, s, now);
      }
      CountersGrow(n, Step(n, s, e).0, es[1..]);
    }
  }
}
