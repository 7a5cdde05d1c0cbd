/** When a frame becomes complete, whatever arrives of it and in whatever order. */
module Completion {
  import opened Fec
  import opened Wire
  import opened Reassembly
  import opened ReassemblyInvariant
  import opened Integrity

  /** One arrival: shard i of group g, the parity shards behind the data shards. */
  datatype Arrival = Arrival(group: nat, shard: nat)

  function Groups(sent: Sent): nat { GroupCount(ShardCount(|sent.bytes|)) }

  function Size(sent: Sent, g: nat): nat
    requires g < Groups(sent)
  {
    GroupSize(ShardCount(|sent.bytes|), g)
  }

  ghost predicate Arrivals(sent: Sent, arrivals: seq<Arrival>) {
    forall i | 0 <= i < |arrivals| ::
      arrivals[i].group < Groups(sent) && arrivals[i].shard < Size(sent, arrivals[i].group) + PARITY_SHARDS
  }

  /** Within each group the order is that of emission and nothing arrives twice; groups may interleave. */
  ghost predicate InSendOrder(arrivals: seq<Arrival>) {
    forall i, j | 0 <= i < j < |arrivals| && arrivals[i].group == arrivals[j].group ::
      arrivals[i].shard < arrivals[j].shard
  }

  /** The data shards of group g that arrived. */
  function Arrived(sent: Sent, arrivals: seq<Arrival>, g: nat): (present: seq<bool>)
    requires g < Groups(sent)
    ensures |present| == Size(sent, g)
  {
    seq(Size(sent, g), i requires 0 <= i < Size(sent, g) => Arrival(g, i) in arrivals)
  }

  function Lost(sent: Sent, arrivals: seq<Arrival>, g: nat): nat
    requires g < Groups(sent)
  {
    |Missing(Arrived(sent, arrivals, g), Size(sent, g))|
  }

  predicate ParityArrived(sent: Sent, arrivals: seq<Arrival>, g: nat, k: nat)
    requires g < Groups(sent)
  {
    Arrival(g, Size(sent, g) + k) in arrivals
  }

  /** No data shard of the group was lost, or one was and parity 0 arrived, or two were and both parities arrived. */
  predicate Recoverable(sent: Sent, arrivals: seq<Arrival>, g: nat)
    requires g < Groups(sent)
  {
    Enough(Lost(sent, arrivals, g), ParityArrived(sent, arrivals, g, 0), ParityArrived(sent, arrivals, g, 1))
  }

  predicate IsParity(sent: Sent, a: Arrival, g: nat)
    requires g < Groups(sent)
  {
    a.group == g && a.shard >= Size(sent, g)
  }

  /** When some parity shard of the group arrived, the group was recoverable from what had arrived by then. */
  predicate Mended(sent: Sent, arrivals: seq<Arrival>, g: nat)
    requires g < Groups(sent)
    decreases |arrivals|
  {
    && arrivals != []
    && var m := |arrivals| - 1;
    Mended(sent, arrivals[..m], g) || (IsParity(sent, arrivals[m], g) && Recoverable(sent, arrivals, g))
  }

  /** All data shards of the group arrived, or the missing ones were repaired. */
  predicate Gathered(sent: Sent, arrivals: seq<Arrival>, g: nat)
    requires g < Groups(sent)
  {
    Lost(sent, arrivals, g) == 0 || Mended(sent, arrivals, g)
  }

  /** The frame after its datagrams have been stored one by one. */
  ghost function Reassembled(session: uint32, id: int, f: Frame, sent: Sent, arrivals: seq<Arrival>): (h: Frame)
    requires FrameOk(f) && Faithful(f, sent) && Arrivals(sent, arrivals)
    ensures FrameOk(h) && Faithful(h, sent)
    decreases |arrivals|
  {
    if arrivals == [] then f
    else
      var m := |arrivals| - 1;
      var h := Reassembled(session, id, f, sent, arrivals[..m]);
      var p := PacketOf(session, id, sent, arrivals[m].group, arrivals[m].shard);
      ArrivalStored(session, id, h, sent, arrivals[m]);
      Store(h, p).frame
  }

  lemma ArrivalStored(session: uint32, id: int, f: Frame, sent: Sent, a: Arrival)
    requires FrameOk(f) && Faithful(f, sent)
    requires a.group < Groups(sent) && a.shard < Size(sent, a.group) + PARITY_SHARDS
    ensures
      var p := PacketOf(session, id, sent, a.group, a.shard);
      Store(f, p).Stored? && FrameOk(Store(f, p).frame) && Faithful(Store(f, p).frame, sent)
  {
    hide FrameOk, Faithful, Store, Parity;
    var p := PacketOf(session, id, sent, a.group, a.shard);
    FaithfulShape(f, sent);
    StoreFaithful(f, sent, p);
    StoreOk(f, p);
  }

  /** What is known of group g of the frame after the arrivals. */
  ghost predicate GroupState(f: Frame, sent: Sent, arrivals: seq<Arrival>, g: nat)
    requires FrameOk(f) && Faithful(f, sent) && g < Groups(sent)
  {
    var first, count := g * DATA_SHARDS, Size(sent, g);
    && first + count <= |f.present|
    && f.present[first..first + count] ==
       (if Mended(sent, arrivals, g) then Everything(count) else Arrived(sent, arrivals, g))
    && f.groups[g].parity0.Some? == ParityArrived(sent, arrivals, g, 0)
    && f.groups[g].parity1.Some? == ParityArrived(sent, arrivals, g, 1)
  }

  // ---------- One arrival, one group ----------

  lemma {:induction false} NothingMissing(present: seq<bool>, n: nat)
    requires n <= |present|
    ensures Missing(present, n) == [] <==> forall i | 0 <= i < n :: present[i]
  {
    if n != 0 { NothingMissing(present, n - 1); }
  }

  /** An arrival of another group changes nothing here. */
  lemma OtherGroup(f: Frame, sent: Sent, arrivals: seq<Arrival>, a: Arrival, g: nat, session: uint32, id: int)
    requires FrameOk(f) && Faithful(f, sent) && g < Groups(sent) && GroupState(f, sent, arrivals, g)
    requires a.group < Groups(sent) && a.shard < Size(sent, a.group) + PARITY_SHARDS && a.group != g
    requires Store(f, PacketOf(session, id, sent, a.group, a.shard)).Stored?
    ensures
      var h := Store(f, PacketOf(session, id, sent, a.group, a.shard)).frame;
      FrameOk(h) && Faithful(h, sent) ==> GroupState(h, sent, arrivals + [a], g)
  {
    hide Missing, Parity, FrameOk, Faithful, Store, PacketOf, GroupState, Mended, Arrived, ParityArrived;
    OtherMask(sent, arrivals, a, g);
    FaithfulShape(f, sent);
    PacketGroup(session, id, sent, a);
    GroupsApart(f, PacketOf(session, id, sent, a.group, a.shard), g);
    GroupStateSame(f, Store(f, PacketOf(session, id, sent, a.group, a.shard)).frame, sent, arrivals, arrivals + [a], g);
  }

  lemma PacketGroup(session: uint32, id: int, sent: Sent, a: Arrival)
    requires a.group < Groups(sent) && a.shard < Size(sent, a.group) + PARITY_SHARDS
    ensures Groups(sent) == GroupCount(ShardCount(|sent.bytes|))
    ensures PacketOf(session, id, sent, a.group, a.shard).group == a.group
  {}

  lemma OtherMask(sent: Sent, arrivals: seq<Arrival>, a: Arrival, g: nat)
    requires g < Groups(sent) && a.group != g
    ensures Arrived(sent, arrivals + [a], g) == Arrived(sent, arrivals, g)
    ensures forall k | 0 <= k < PARITY_SHARDS ::
      ParityArrived(sent, arrivals + [a], g, k) == ParityArrived(sent, arrivals, g, k)
    ensures Mended(sent, arrivals + [a], g) == Mended(sent, arrivals, g)
    ensures Recoverable(sent, arrivals + [a], g) == Recoverable(sent, arrivals, g)
  {
    hide Missing, Mended;
    MendedStep(sent, arrivals, a, g);
  }

  lemma MendedStep(sent: Sent, arrivals: seq<Arrival>, a: Arrival, g: nat)
    requires g < Groups(sent)
    ensures Mended(sent, arrivals + [a], g) ==
            (Mended(sent, arrivals, g) || (IsParity(sent, a, g) && Recoverable(sent, arrivals + [a], g)))
  {
    hide Recoverable;
    assert (arrivals + [a])[..|arrivals|] == arrivals;
  }

  lemma GroupStateSame(f: Frame, h: Frame, sent: Sent, before: seq<Arrival>, after: seq<Arrival>, g: nat)
    requires FrameOk(f) && Faithful(f, sent) && g < Groups(sent) && GroupState(f, sent, before, g)
    requires Arrived(sent, after, g) == Arrived(sent, before, g)
    requires forall k | 0 <= k < PARITY_SHARDS :: ParityArrived(sent, after, g, k) == ParityArrived(sent, before, g, k)
    requires Mended(sent, after, g) == Mended(sent, before, g)
    requires g < |f.groups| == |h.groups| && h.groups[g] == f.groups[g] && |h.present| == |f.present|
    requires g < GroupCount(|f.shards|) && |f.shards| == ShardCount(|sent.bytes|)
    requires g * DATA_SHARDS + GroupSize(|f.shards|, g) <= |f.present|
    requires h.present[g * DATA_SHARDS..g * DATA_SHARDS + GroupSize(|f.shards|, g)] ==
             f.present[g * DATA_SHARDS..g * DATA_SHARDS + GroupSize(|f.shards|, g)]
    ensures FrameOk(h) && Faithful(h, sent) ==> GroupState(h, sent, after, g)
  {
    hide Arrived, ParityArrived, Mended, FrameOk, Faithful;
  }

  lemma GroupsApart(f: Frame, p: Packet, g: nat)
    requires FrameOk(f) && Store(f, p).Stored? && g < |f.groups| && g != p.group
    ensures
      var h := Store(f, p).frame;
      var first, count := g * DATA_SHARDS, GroupSize(|f.shards|, g);
      && first + count <= |f.present| == |h.present| && |h.groups| == |f.groups|
      && h.present[first..first + count] == f.present[first..first + count]
      && h.groups[g] == f.groups[g]
  {
    hide RecoverGroup, GroupOk, FrameOk, Rule;
    FrameLengths(f);
    GroupBounds(|f.shards|, g);
    match Rule(f, p) {
      case KeepData(index) => RuleInGroup(f, p);
      case KeepParity(k) =>
        var kept := StoreParity(f, p.group, k, p.payload);
        StoreParityOk(f, p.group, k, p.payload);
        RecoverApart(kept, p.group, g);
        assert kept.groups[g] == f.groups[g];
    }
  }

  /** Where a data shard goes: within its own group. */
  lemma RuleInGroup(f: Frame, p: Packet)
    requires FrameOk(f) && Rule(f, p).KeepData?
    ensures p.group * DATA_SHARDS <= Rule(f, p).index < p.group * DATA_SHARDS + DATA_SHARDS
  {}

  lemma RecoverApart(f: Frame, r: nat, g: nat)
    requires FrameOk(f) && r < |f.groups| && g < |f.groups| && g != r
    ensures
      var h := RecoverGroup(f, r).0;
      var first, count := g * DATA_SHARDS, GroupSize(|f.shards|, g);
      && first + count <= |f.present| == |h.present| && h.groups == f.groups
      && h.present[first..first + count] == f.present[first..first + count]
  {
    hide Recover, Missing, GroupOk, Rectangular, FrameOk, Splice;
    FrameLengths(f);
    GroupBounds(|f.shards|, g);
    GroupBounds(|f.shards|, r);
  }

  /** A data shard's arrival marks it and repairs nothing. */
  lemma DataMask(sent: Sent, arrivals: seq<Arrival>, a: Arrival)
    requires a.group < Groups(sent) && a.shard < Size(sent, a.group)
    ensures Arrived(sent, arrivals + [a], a.group) == Arrived(sent, arrivals, a.group)[a.shard := true]
    ensures Mended(sent, arrivals + [a], a.group) == Mended(sent, arrivals, a.group)
    ensures forall k | 0 <= k < PARITY_SHARDS ::
      ParityArrived(sent, arrivals + [a], a.group, k) == ParityArrived(sent, arrivals, a.group, k)
  {
    hide Missing, Mended, Recoverable;
    MendedStep(sent, arrivals, a, a.group);
  }

  /** A parity shard's arrival marks it; the data shards are what they were. */
  lemma ParityMask(sent: Sent, arrivals: seq<Arrival>, a: Arrival)
    requires a.group < Groups(sent) && Size(sent, a.group) <= a.shard < Size(sent, a.group) + PARITY_SHARDS
    ensures Arrived(sent, arrivals + [a], a.group) == Arrived(sent, arrivals, a.group)
    ensures forall k | 0 <= k < PARITY_SHARDS ::
      ParityArrived(sent, arrivals + [a], a.group, k) ==
      (ParityArrived(sent, arrivals, a.group, k) || k == a.shard - Size(sent, a.group))
    ensures Lost(sent, arrivals + [a], a.group) == Lost(sent, arrivals, a.group)
    ensures Recoverable(sent, arrivals, a.group) ==> Recoverable(sent, arrivals + [a], a.group)
    ensures Mended(sent, arrivals + [a], a.group) ==
            (Mended(sent, arrivals, a.group) || Recoverable(sent, arrivals + [a], a.group))
  {
    hide Missing, Mended;
    MendedStep(sent, arrivals, a, a.group);
  }

  lemma DataArrival(f: Frame, sent: Sent, arrivals: seq<Arrival>, a: Arrival, session: uint32, id: int)
    requires FrameOk(f) && Faithful(f, sent)
    requires a.group < Groups(sent) && a.shard < Size(sent, a.group) && GroupState(f, sent, arrivals, a.group)
    requires Store(f, PacketOf(session, id, sent, a.group, a.shard)).Stored?
    ensures
      var h := Store(f, PacketOf(session, id, sent, a.group, a.shard)).frame;
      FrameOk(h) && Faithful(h, sent) ==> GroupState(h, sent, arrivals + [a], a.group)
  {
    hide Missing, Parity, FrameOk, Faithful, PayloadOf, Mended, Arrived, ParityArrived;
    FaithfulShape(f, sent);
    DataMask(sent, arrivals, a);
    var count, first := Size(sent, a.group), a.group * DATA_SHARDS;
    var h := Store(f, PacketOf(session, id, sent, a.group, a.shard)).frame;
    assert h.groups == f.groups && h.present == f.present[first + a.shard := true];
    assert h.present[first..first + count] == f.present[first..first + count][a.shard := true];
    assert Everything(count)[a.shard := true] == Everything(count);
  }

  /** Whether the recovery that a parity arrival triggers does anything, and whether it then succeeds. */
  lemma ParityDecides(sent: Sent, arrivals: seq<Arrival>, a: Arrival, mask: seq<bool>)
    requires a.group < Groups(sent) && Size(sent, a.group) <= a.shard < Size(sent, a.group) + PARITY_SHARDS
    requires mask ==
      if Mended(sent, arrivals, a.group) then Everything(Size(sent, a.group)) else Arrived(sent, arrivals, a.group)
    ensures
      var missing := |Missing(mask, Size(sent, a.group))|;
      var all := arrivals + [a];
      && (missing == 0 ==> mask == Everything(Size(sent, a.group)))
      && if Mended(sent, arrivals, a.group) then missing == 0 && Mended(sent, all, a.group)
         else
           && Arrived(sent, all, a.group) == mask
           && Mended(sent, all, a.group) ==
              Enough(missing, ParityArrived(sent, all, a.group, 0), ParityArrived(sent, all, a.group, 1))
  {
    hide Missing, Arrived, ParityArrived, Mended;
    ParityMask(sent, arrivals, a);
    NothingMissing(mask, Size(sent, a.group));
    if |Missing(mask, Size(sent, a.group))| == 0 { assert mask == Everything(Size(sent, a.group)); }
  }

  /** A parity shard that is kept: its flag is set, if it was not, and the data shards are what they were. */
  lemma ParityKept(f: Frame, sent: Sent, g: nat, k: nat)
    requires FrameOk(f) && Faithful(f, sent) && g < |f.groups| && k < PARITY_SHARDS
    ensures
      var kept := StoreParity(f, g, k, Parity(k, GroupOf(sent.bytes, g), SHARD_SIZE));
      && FrameOk(kept) && Faithful(kept, sent)
      && kept.groups[g].parity0.Some? == (f.groups[g].parity0.Some? || k == 0)
      && kept.groups[g].parity1.Some? == (f.groups[g].parity1.Some? || k == 1)
  {
    hide Parity, FrameOk, Faithful;
    FaithfulShape(f, sent);
    StoreParityOk(f, g, k, Parity(k, GroupOf(sent.bytes, g), SHARD_SIZE));
    ParityFaithful(f, sent, g, k);
  }

  /** The flags of a group's shards behind a recovery. */
  lemma RecoveredMask(f: Frame, sent: Sent, g: nat)
    requires FrameOk(f) && Faithful(f, sent) && g < |f.groups|
    ensures
      var first, count := g * DATA_SHARDS, GroupSize(|f.shards|, g);
      var h := RecoverGroup(f, g).0;
      && first + count <= |f.present| == |h.present| && h.groups == f.groups
      && var mask := f.present[first..first + count];
      var missing := |Missing(mask, count)|;
      h.present[first..first + count] ==
        if missing == 0 || !Enough(missing, f.groups[g].parity0.Some?, f.groups[g].parity1.Some?) then mask
        else Everything(count)
  {
    hide Missing, FrameOk, Faithful, RecoverGroup, Enough, Splice, GroupSize;
    FaithfulShape(f, sent);
    RecoveredShards(f, sent, g);
    FrameLengths(f);
    SpliceSlice(f.present, g * DATA_SHARDS, Everything(GroupSize(|f.shards|, g)));
  }

  /** A parity shard of the sender is kept, and then its group is recovered if it can be. */
  lemma ParityStored(f: Frame, sent: Sent, a: Arrival, session: uint32, id: int)
    requires FrameOk(f) && Faithful(f, sent) && a.group < Groups(sent)
    requires Size(sent, a.group) <= a.shard < Size(sent, a.group) + PARITY_SHARDS
    requires Store(f, PacketOf(session, id, sent, a.group, a.shard)).Stored?
    ensures
      var g, k := a.group, a.shard - Size(sent, a.group);
      var kept := StoreParity(f, g, k, Parity(k, GroupOf(sent.bytes, g), SHARD_SIZE));
      && FrameOk(kept)
      && Store(f, PacketOf(session, id, sent, g, a.shard)).frame == RecoverGroup(kept, g).0
  {
    hide Parity, FrameOk, Faithful, RecoverGroup, StoreParity;
    FaithfulShape(f, sent);
    ParityKept(f, sent, a.group, a.shard - Size(sent, a.group));
  }

  lemma ParityArrival(f: Frame, sent: Sent, arrivals: seq<Arrival>, a: Arrival, session: uint32, id: int)
    requires FrameOk(f) && Faithful(f, sent)
    requires a.group < Groups(sent) && Size(sent, a.group) <= a.shard < Size(sent, a.group) + PARITY_SHARDS
    requires GroupState(f, sent, arrivals, a.group)
    requires Store(f, PacketOf(session, id, sent, a.group, a.shard)).Stored?
    ensures
      var h := Store(f, PacketOf(session, id, sent, a.group, a.shard)).frame;
      FrameOk(h) && Faithful(h, sent) ==> GroupState(h, sent, arrivals + [a], a.group)
  {
    hide Missing, Parity, FrameOk, Faithful, RecoverGroup, Arrived, ParityArrived, Enough, Mended, Recoverable, Store,
         StoreParity, PacketOf, GroupSize, Everything;
    var g, k := a.group, a.shard - Size(sent, a.group);
    var first, count := g * DATA_SHARDS, Size(sent, g);
    FaithfulShape(f, sent);
    ParityMask(sent, arrivals, a);
    ParityKept(f, sent, g, k);
    ParityStored(f, sent, a, session, id);
    var kept := StoreParity(f, g, k, Parity(k, GroupOf(sent.bytes, g), SHARD_SIZE));
    RecoveredMask(kept, sent, g);
    ParityDecides(sent, arrivals, a, f.present[first..first + count]);
  }

  lemma SpliceSlice<T>(s: seq<T>, at: nat, piece: seq<T>)
    requires at + |piece| <= |s|
    ensures Splice(s, at, piece)[at..at + |piece|] == piece
  {}

  // ---------- All arrivals, all groups ----------

  lemma {:induction false} GroupsFollow(session: uint32, id: int, f: Frame, sent: Sent, arrivals: seq<Arrival>, g: nat)
    requires FrameOk(f) && Faithful(f, sent) && Arrivals(sent, arrivals) && g < Groups(sent)
    requires GroupState(f, sent, [], g)
    ensures GroupState(Reassembled(session, id, f, sent, arrivals), sent, arrivals, g)
    decreases |arrivals|
  {
    hide GroupState, FrameOk, Faithful, Store;
    if arrivals != [] {
      var m := |arrivals| - 1;
      var a := arrivals[m];
      var h := Reassembled(session, id, f, sent, arrivals[..m]);
      GroupsFollow(session, id, f, sent, arrivals[..m], g);
      assert arrivals[..m] + [a] == arrivals;
      ArrivalStored(session, id, h, sent, a);
      if a.group != g {
        OtherGroup(h, sent, arrivals[..m], a, g, session, id);
      } else if a.shard < Size(sent, g) {
        DataArrival(h, sent, arrivals[..m], a, session, id);
      } else {
        ParityArrival(h, sent, arrivals[..m], a, session, id);
      }
    }
  }

  lemma NewGroupState(p: Packet, sent: Sent, now: uint64, g: nat)
    requires Decoded(p) && Sendable(sent) && g < Groups(sent)
    requires p.frameSize == |sent.bytes| && p.timestamp == sent.timestamp && p.keyframe == sent.keyframe
    requires FrameOk(NewFrame(p, now)) && Faithful(NewFrame(p, now), sent)
    ensures GroupState(NewFrame(p, now), sent, [], g)
  {
    hide Missing;
    GroupBounds(ShardCount(|sent.bytes|), g);
    NothingMissing(Arrived(sent, [], g), Size(sent, g));
    assert !Arrived(sent, [], g)[0];
  }

  /** The shards of a gathered group are all present; otherwise one of them is not. */
  lemma GroupComplete(f: Frame, sent: Sent, arrivals: seq<Arrival>, g: nat)
    requires FrameOk(f) && Faithful(f, sent) && g < Groups(sent) && GroupState(f, sent, arrivals, g)
    ensures
      var first, count := g * DATA_SHARDS, Size(sent, g);
      && first + count <= |f.present|
      && (Gathered(sent, arrivals, g) <==> forall i | first <= i < first + count :: f.present[i])
  {
    hide Missing, FrameOk, Faithful, ParityArrived, Mended;
    var first, count := g * DATA_SHARDS, Size(sent, g);
    var slice := f.present[first..first + count];
    NothingMissing(Arrived(sent, arrivals, g), count);
    assert forall i | first <= i < first + count :: slice[i - first] == f.present[i];
    assert forall i | 0 <= i < count :: slice[i] == f.present[first + i];
  }

  lemma CompleteByGroups(f: Frame, sent: Sent, arrivals: seq<Arrival>)
    requires FrameOk(f) && Faithful(f, sent)
    requires forall g | 0 <= g < Groups(sent) :: GroupState(f, sent, arrivals, g)
    ensures Complete(f) <==> forall g | 0 <= g < Groups(sent) :: Gathered(sent, arrivals, g)
  {
    hide GroupState, Gathered, ShardOf, Parity, Missing, GroupOk, FaithfulGroup, Rectangular;
    CompleteMeansPresent(f.present);
    forall g | 0 <= g < Groups(sent)
      ensures g * DATA_SHARDS + Size(sent, g) <= |f.present|
      ensures Gathered(sent, arrivals, g) <==>
              forall i | g * DATA_SHARDS <= i < g * DATA_SHARDS + Size(sent, g) :: f.present[i]
    {
      GroupComplete(f, sent, arrivals, g);
    }
    if forall g | 0 <= g < Groups(sent) :: Gathered(sent, arrivals, g) {
      forall i | 0 <= i < |f.present| ensures f.present[i] {
        var g := i / DATA_SHARDS;
        assert Gathered(sent, arrivals, g);
      }
    }
  }

  /**
   * Whatever arrives of a frame, with any losses and repetitions and in any order, the frame is
   * complete exactly when of every group all data shards arrived, or a parity shard arrived at a
   * time when the group was recoverable from what had arrived.
   */
  lemma CompletionInAnyOrder(session: uint32, id: int, sent: Sent, arrivals: seq<Arrival>, p: Packet, now: uint64)
    requires Sendable(sent) && Arrivals(sent, arrivals)
    requires Decoded(p) && p.frameSize == |sent.bytes| && p.timestamp == sent.timestamp && p.keyframe == sent.keyframe
    ensures FrameOk(NewFrame(p, now)) && Faithful(NewFrame(p, now), sent)
    ensures Complete(Reassembled(session, id, NewFrame(p, now), sent, arrivals)) <==>
            forall g | 0 <= g < Groups(sent) :: Gathered(sent, arrivals, g)
  {
    hide GroupState, FrameOk, Faithful, Gathered, Complete;
    NewFrameOk(p, now);
    NewFaithful(p, sent, now);
    forall g | 0 <= g < Groups(sent)
      ensures GroupState(Reassembled(session, id, NewFrame(p, now), sent, arrivals), sent, arrivals, g)
    {
      NewGroupState(p, sent, now, g);
      GroupsFollow(session, id, NewFrame(p, now), sent, arrivals, g);
    }
    CompleteByGroups(Reassembled(session, id, NewFrame(p, now), sent, arrivals), sent, arrivals);
  }

  // ---------- Arrival in the order of sending ----------

  /** The arrivals of g's own group so far, seen by one more. */
  lemma OwnArrival(sent: Sent, arrivals: seq<Arrival>, a: Arrival)
    requires InSendOrder(arrivals + [a])
    ensures forall i | a.shard <= i :: Arrival(a.group, i) !in arrivals
    ensures InSendOrder(arrivals)
  {
    var all := arrivals + [a];
    assert all[|arrivals|] == a;
    forall i, j | 0 <= i < j < |arrivals| && arrivals[i].group == arrivals[j].group
      ensures arrivals[i].shard < arrivals[j].shard
    {
      assert all[i] == arrivals[i] && all[j] == arrivals[j];
    }
    forall j | 0 <= j < |arrivals| && arrivals[j].group == a.group ensures arrivals[j].shard < a.shard {
      assert all[j] == arrivals[j];
    }
  }

  /** Until a data shard arrives in order, it is missing and no parity of its group has arrived. */
  lemma BeforeData(sent: Sent, arrivals: seq<Arrival>, a: Arrival)
    requires InSendOrder(arrivals + [a]) && a.group < Groups(sent) && a.shard < Size(sent, a.group)
    ensures !Recoverable(sent, arrivals, a.group)
    ensures Recoverable(sent, arrivals + [a], a.group) ==> Lost(sent, arrivals + [a], a.group) == 0
  {
    hide Missing;
    OwnArrival(sent, arrivals, a);
    NothingMissing(Arrived(sent, arrivals, a.group), Size(sent, a.group));
    assert !Arrived(sent, arrivals, a.group)[a.shard];
  }

  /** In send order, a group is gathered exactly when it is recoverable from all that arrived of it. */
  lemma {:induction false} GatheredInSendOrder(sent: Sent, arrivals: seq<Arrival>, g: nat)
    requires Arrivals(sent, arrivals) && InSendOrder(arrivals) && g < Groups(sent)
    ensures Gathered(sent, arrivals, g) <==> Recoverable(sent, arrivals, g)
    decreases |arrivals|
  {
    hide Recoverable, Mended, Missing, Arrived;
    LostIsRecoverable(sent, arrivals, g);
    if arrivals == [] {
      MendedNever(sent, g);
    } else {
      var m := |arrivals| - 1;
      var before, a := arrivals[..m], arrivals[m];
      assert before + [a] == arrivals;
      OwnArrival(sent, before, a);
      GatheredInSendOrder(sent, before, g);
      MendedStep(sent, before, a, g);
      if a.group != g {
        OtherMask(sent, before, a, g);
      } else if a.shard < Size(sent, g) {
        BeforeData(sent, before, a);
      } else {
        ParityMask(sent, before, a);
      }
    }
  }

  lemma LostIsRecoverable(sent: Sent, arrivals: seq<Arrival>, g: nat)
    requires g < Groups(sent)
    ensures Lost(sent, arrivals, g) == 0 ==> Recoverable(sent, arrivals, g)
  {}

  lemma MendedNever(sent: Sent, g: nat)
    requires g < Groups(sent)
    ensures !Mended(sent, [], g) && (Recoverable(sent, [], g) ==> Lost(sent, [], g) == 0)
  {}

  /**
   * A frame whose datagrams arrive in send order, with any of them lost and the groups interleaved
   * at will, is complete exactly when every group is recoverable from what arrived.
   */
  lemma CompletionInSendOrder(session: uint32, id: int, sent: Sent, arrivals: seq<Arrival>, p: Packet, now: uint64)
    requires Sendable(sent) && Arrivals(sent, arrivals) && InSendOrder(arrivals)
    requires Decoded(p) && p.frameSize == |sent.bytes| && p.timestamp == sent.timestamp && p.keyframe == sent.keyframe
    ensures FrameOk(NewFrame(p, now)) && Faithful(NewFrame(p, now), sent)
    ensures Complete(Reassembled(session, id, NewFrame(p, now), sent, arrivals)) <==>
            forall g | 0 <= g < Groups(sent) :: Recoverable(sent, arrivals, g)
  {
    hide Gathered, Recoverable, Complete, Reassembled, Faithful, FrameOk, Arrivals, InSendOrder;
    CompletionInAnyOrder(session, id, sent, arrivals, p, now);
    forall g | 0 <= g < Groups(sent) ensures Gathered(sent, arrivals, g) <==> Recoverable(sent, arrivals, g) {
      GatheredInSendOrder(sent, arrivals, g);
    }
  }

  // ---------- Out of order ----------

  /**
   * The order matters: a parity shard that overtakes the data is not used again, so a group of which
   * one data shard is lost, and all else but the second parity arrives, may stay incomplete.
   */
  lemma EarlyParityIsWasted(sent: Sent, g: nat) returns (arrivals: seq<Arrival>)
    requires g < Groups(sent) && Size(sent, g) >= 2
    ensures Arrivals(sent, arrivals) && Lost(sent, arrivals, g) == 1
    ensures Recoverable(sent, arrivals, g) && !Gathered(sent, arrivals, g)
  {
    hide Mended, Missing, Recoverable;
    var count := Size(sent, g);
    arrivals := [Arrival(g, count)];
    ParityAlone(sent, g);
    for i := 0 to count - 1
      invariant Arrivals(sent, arrivals) && !Mended(sent, arrivals, g) && Arrival(g, count) in arrivals
      invariant forall a: Arrival :: a in arrivals <==> a == Arrival(g, count) || (a.group == g && a.shard < i)
    {
      hide Mended, Missing, Recoverable;
      MendedStep(sent, arrivals, Arrival(g, i), g);
      arrivals := arrivals + [Arrival(g, i)];
    }
    LastMissing(Arrived(sent, arrivals, g), count);
    assert ParityArrived(sent, arrivals, g, 0);
    OneLost(sent, arrivals, g);
  }

  lemma ParityAlone(sent: Sent, g: nat)
    requires g < Groups(sent) && Size(sent, g) >= 2
    ensures !Mended(sent, [Arrival(g, Size(sent, g))], g)
  {
    var alone := [Arrival(g, Size(sent, g))];
    assert alone[..0] == [];
    var present := Arrived(sent, alone, g);
    NothingMissing(present, Size(sent, g) - 1);
    assert !present[0] && !present[Size(sent, g) - 1];
    assert |Missing(present, Size(sent, g))| >= 2;
    assert !ParityArrived(sent, alone, g, 1);
  }

  lemma LastMissing(present: seq<bool>, n: nat)
    requires 0 < n <= |present| && !present[n - 1] && forall i | 0 <= i < n - 1 :: present[i]
    ensures |Missing(present, n)| == 1
  {
    NothingMissing(present, n - 1);
  }

  lemma OneLost(sent: Sent, arrivals: seq<Arrival>, g: nat)
    requires g < Groups(sent) && Lost(sent, arrivals, g) == 1 && ParityArrived(sent, arrivals, g, 0)
    ensures Recoverable(sent, arrivals, g)
  {}
}
