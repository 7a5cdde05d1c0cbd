/** What the sender emits for a frame, and why the receiver can only deliver what was sent. */
module Integrity {
  import opened Field
  import opened Fec
  import opened Wire
  import opened FrameIds
  import opened Reassembly
  import opened ReassemblyInvariant

  datatype Sent = Sent(bytes: seq<byte>, timestamp: uint64, keyframe: bool)

  type History = map<(uint32, int), Sent>

  // ---------- What send_frame emits ----------

  /** The bytes of shard i, without padding. */
  function PayloadOf(bytes: seq<byte>, i: nat): (payload: seq<byte>)
    requires i < ShardCount(|bytes|)
    ensures |payload| == Min(SHARD_SIZE, |bytes| - i * SHARD_SIZE) && 0 < |payload| <= SHARD_SIZE
  {
    bytes[i * SHARD_SIZE..i * SHARD_SIZE + Min(SHARD_SIZE, |bytes| - i * SHARD_SIZE)]
  }

  /** Shard i, padded with zeros. */
  function ShardOf(bytes: seq<byte>, i: nat): (shard: Shard)
    requires i < ShardCount(|bytes|)
    ensures |shard| == SHARD_SIZE
  {
    PayloadOf(bytes, i) + Zeros(SHARD_SIZE - |PayloadOf(bytes, i)|)
  }

  function ShardsOf(bytes: seq<byte>): (shards: seq<Shard>)
    ensures |shards| == ShardCount(|bytes|)
    ensures forall i | 0 <= i < |shards| :: shards[i] == ShardOf(bytes, i) && |shards[i]| == SHARD_SIZE
  {
    seq(ShardCount(|bytes|), i requires 0 <= i < ShardCount(|bytes|) => ShardOf(bytes, i))
  }

  function GroupOf(bytes: seq<byte>, g: nat): (shards: seq<Shard>)
    requires g < GroupCount(ShardCount(|bytes|))
    ensures |shards| == GroupSize(ShardCount(|bytes|), g)
    ensures forall i | 0 <= i < |shards| :: |shards[i]| == SHARD_SIZE
  {
    ShardsOf(bytes)[g * DATA_SHARDS..g * DATA_SHARDS + GroupSize(ShardCount(|bytes|), g)]
  }

  function DataPacket(session: uint32, id: int, sent: Sent, g: nat, i: nat): Packet
    requires g < GroupCount(ShardCount(|sent.bytes|)) && i < GroupSize(ShardCount(|sent.bytes|), g)
  {
    Packet(session, id, sent.timestamp, |sent.bytes|, sent.keyframe, g, i, GroupSize(ShardCount(|sent.bytes|), g),
           PayloadOf(sent.bytes, g * DATA_SHARDS + i))
  }

  function ParityPacket(session: uint32, id: int, sent: Sent, g: nat, k: nat): Packet
    requires g < GroupCount(ShardCount(|sent.bytes|)) && k < PARITY_SHARDS
  {
    var count := GroupSize(ShardCount(|sent.bytes|), g);
    Packet(session, id, sent.timestamp, |sent.bytes|, sent.keyframe, g, count + k, count,
           Parity(k, GroupOf(sent.bytes, g), SHARD_SIZE))
  }

  /** The packet of shard i of group g: a data shard, or a parity shard behind the data. */
  function PacketOf(session: uint32, id: int, sent: Sent, g: nat, i: nat): Packet
    requires g < GroupCount(ShardCount(|sent.bytes|)) && i < GroupSize(ShardCount(|sent.bytes|), g) + PARITY_SHARDS
  {
    var count := GroupSize(ShardCount(|sent.bytes|), g);
    if i < count then DataPacket(session, id, sent, g, i) else ParityPacket(session, id, sent, g, i - count)
  }

  predicate Sendable(sent: Sent) { 0 < |sent.bytes| <= MAX_FRAME_SIZE }

  /** p is one of the datagrams of a frame in the history. */
  ghost predicate Genuine(h: History, p: Packet) {
    && p.session != 0 && (p.session, p.frame) in h
    && var sent := h[(p.session, p.frame)];
    && Sendable(sent)
    && p.group < GroupCount(ShardCount(|sent.bytes|))
    && p.shard < GroupSize(ShardCount(|sent.bytes|), p.group) + PARITY_SHARDS
    && p == PacketOf(p.session, p.frame, sent, p.group, p.shard)
  }

  // ---------- Frames under reassembly ----------

  /** Every present shard is the padded original and every stored parity is the encoder's. */
  ghost predicate Faithful(f: Frame, sent: Sent) {
    && Sendable(sent)
    && f.size == |sent.bytes| && f.timestamp == sent.timestamp && f.keyframe == sent.keyframe
    && |f.shards| == |f.present| == ShardCount(|sent.bytes|) && |f.groups| == GroupCount(|f.shards|)
    && (forall i | 0 <= i < |f.shards| && f.present[i] :: f.shards[i] == ShardOf(sent.bytes, i))
    && (forall g | 0 <= g < |f.groups| :: FaithfulGroup(f.groups[g], sent, g))
  }

  ghost predicate FaithfulGroup(group: Group, sent: Sent, g: nat)
    requires g < GroupCount(ShardCount(|sent.bytes|))
  {
    && (group.parity0.Some? ==> group.parity0.value == Parity(0, GroupOf(sent.bytes, g), SHARD_SIZE))
    && (group.parity1.Some? ==> group.parity1.value == Parity(1, GroupOf(sent.bytes, g), SHARD_SIZE))
  }

  lemma NewFaithful(p: Packet, sent: Sent, now: uint64)
    requires Sendable(sent) && p.frameSize == |sent.bytes| && p.timestamp == sent.timestamp
    requires p.keyframe == sent.keyframe
    ensures Faithful(NewFrame(p, now), sent)
  {}

  lemma DataFaithful(f: Frame, sent: Sent, index: nat)
    requires FrameOk(f) && Faithful(f, sent) && index < |f.shards|
    ensures Faithful(StoreData(f, index, PayloadOf(sent.bytes, index)), sent)
  {
    hide FaithfulGroup;
    if !f.present[index] {
      var payload := PayloadOf(sent.bytes, index);
      assert Zeros(SHARD_SIZE)[|payload|..] == Zeros(SHARD_SIZE - |payload|);
      assert payload + f.shards[index][|payload|..] == ShardOf(sent.bytes, index);
    }
  }

  lemma ParityFaithful(f: Frame, sent: Sent, g: nat, k: nat)
    requires FrameOk(f) && Faithful(f, sent) && g < |f.groups| && k < PARITY_SHARDS
    ensures Faithful(StoreParity(f, g, k, Parity(k, GroupOf(sent.bytes, g), SHARD_SIZE)), sent)
  {
    hide Parity, GroupOf, ShardOf;
  }

  /** The shards of one group, as the recovery sees them, are the encoder's with some lost. */
  lemma GroupErased(f: Frame, sent: Sent, g: nat)
    requires FrameOk(f) && Faithful(f, sent) && g < |f.groups|
    ensures
      var first := g * DATA_SHARDS;
      var last := first + GroupSize(|f.shards|, g);
      last <= |f.shards| &&
      Erasure(f.shards[first..last], GroupOf(sent.bytes, g), f.present[first..last], SHARD_SIZE,
              f.groups[g].parity0, f.groups[g].parity1)
  {
    hide Parity, ShardOf;
    GroupBounds(|f.shards|, g);
    assert FaithfulGroup(f.groups[g], sent, g);
  }

  /** Recovery either changes nothing or puts the encoder's shards in place. */
  lemma RecoveredShards(f: Frame, sent: Sent, g: nat)
    requires FrameOk(f) && Faithful(f, sent) && g < |f.groups|
    ensures
      var first, count := g * DATA_SHARDS, GroupSize(|f.shards|, g);
      var present := f.present[first..first + count];
      var missing := |Missing(present, count)|;
      && first + count <= |f.shards|
      && RecoverGroup(f, g) ==
        if missing == 0 || !Enough(missing, f.groups[g].parity0.Some?, f.groups[g].parity1.Some?) then (f, 0)
        else (f.(shards := Splice(f.shards, first, GroupOf(sent.bytes, g)),
                 present := Splice(f.present, first, Everything(count)),
                 received := f.received + missing), missing)
  {
    hide Parity, ShardOf, Recover, Missing, Erasure, Faithful, GroupOf, Splice;
    var first, count := g * DATA_SHARDS, GroupSize(|f.shards|, g);
    GroupBounds(|f.shards|, g);
    FaithfulShape(f, sent);
    GroupErased(f, sent, g);
    ExactRecovery(f.shards[first..first + count], GroupOf(sent.bytes, g), f.present[first..first + count], SHARD_SIZE,
                  f.groups[g].parity0, f.groups[g].parity1);
  }

  lemma RecoverFaithful(f: Frame, sent: Sent, g: nat)
    requires FrameOk(f) && Faithful(f, sent) && g < |f.groups|
    ensures Faithful(RecoverGroup(f, g).0, sent)
  {
    hide Parity, ShardOf, Missing, FaithfulGroup, Enough, RecoverGroup, FrameOk, GroupOf, GroupSize;
    RecoveredShards(f, sent, g);
    FaithfulShape(f, sent);
    GroupSlice(sent.bytes, g);
  }

  lemma GroupSlice(bytes: seq<byte>, g: nat)
    requires g < GroupCount(ShardCount(|bytes|))
    ensures
      var first, count := g * DATA_SHARDS, GroupSize(ShardCount(|bytes|), g);
      && first + count <= ShardCount(|bytes|)
      && forall i | 0 <= i < count :: GroupOf(bytes, g)[i] == ShardOf(bytes, first + i)
  {
    hide ShardOf;
    GroupBounds(ShardCount(|bytes|), g);
  }

  /** A genuine datagram is never refused by its own frame, and what it leaves is again faithful. */
  lemma StoreFaithful(f: Frame, sent: Sent, p: Packet)
    requires FrameOk(f) && Faithful(f, sent)
    requires p.group < |f.groups| && p.shard < GroupSize(|f.shards|, p.group) + PARITY_SHARDS
    requires p == PacketOf(p.session, p.frame, sent, p.group, p.shard)
    ensures Store(f, p).Stored? && Faithful(Store(f, p).frame, sent)
  {
    hide Parity, ShardOf, RecoverGroup, StoreData, StoreParity, FrameOk, Faithful, PayloadOf;
    assert f.size == |sent.bytes| && f.timestamp == sent.timestamp && |f.shards| == ShardCount(|sent.bytes|)
      && |f.groups| == GroupCount(|f.shards|) by { FaithfulShape(f, sent); }
    GroupBounds(|f.shards|, p.group);
    if p.shard < p.dataShards {
      DataFaithful(f, sent, p.group * DATA_SHARDS + p.shard);
    } else {
      var k := p.shard - p.dataShards;
      StoreParityOk(f, p.group, k, p.payload);
      ParityFaithful(f, sent, p.group, k);
      RecoverFaithful(StoreParity(f, p.group, k, p.payload), sent, p.group);
    }
  }

  lemma FaithfulShape(f: Frame, sent: Sent)
    requires Faithful(f, sent)
    ensures f.size == |sent.bytes| && f.timestamp == sent.timestamp && |f.shards| == ShardCount(|sent.bytes|)
    ensures |f.groups| == GroupCount(|f.shards|)
  {}

  // ---------- Delivery ----------

  lemma {:induction false} FlattenLength(shards: seq<Shard>, size: nat)
    requires Rectangular(shards, size)
    ensures |Flatten(shards)| == |shards| * size
  {
    if shards != [] {
      var m := |shards| - 1;
      FlattenLength(shards[..m], size);
      assert |shards| * size == m * size + size;
    }
  }

  /** The first n shards of a frame, joined, are its bytes up to the padding of the last one. */
  lemma {:induction false} FlattenShards(bytes: seq<byte>, n: nat)
    requires n <= ShardCount(|bytes|)
    ensures
      var joined := Flatten(ShardsOf(bytes)[..n]);
      var length := Min(n * SHARD_SIZE, |bytes|);
      length <= |joined| && joined[..length] == bytes[..length]
  {
    if n != 0 {
      FlattenShards(bytes, n - 1);
      var shards := ShardsOf(bytes);
      assert shards[..n][..n - 1] == shards[..n - 1];
      FlattenLength(shards[..n - 1], SHARD_SIZE);
      OneMoreShard(bytes, n - 1, Flatten(shards[..n - 1]));
    }
  }

  lemma OneMoreShard(bytes: seq<byte>, n: nat, head: seq<byte>)
    requires n < ShardCount(|bytes|) && |head| == n * SHARD_SIZE
    requires head[..Min(n * SHARD_SIZE, |bytes|)] == bytes[..Min(n * SHARD_SIZE, |bytes|)]
    ensures
      var length := Min((n + 1) * SHARD_SIZE, |bytes|);
      length <= |head + ShardOf(bytes, n)| && (head + ShardOf(bytes, n))[..length] == bytes[..length]
  {
    hide ShardOf;
    var start, payload := n * SHARD_SIZE, PayloadOf(bytes, n);
    assert head == bytes[..start];
    PaddedShard(bytes, n);
    assert (head + ShardOf(bytes, n))[..start + |payload|] == head + payload;
    assert bytes[..start + |payload|] == bytes[..start] + payload;
  }

  lemma PaddedShard(bytes: seq<byte>, n: nat)
    requires n < ShardCount(|bytes|)
    ensures |PayloadOf(bytes, n)| <= |ShardOf(bytes, n)|
    ensures ShardOf(bytes, n)[..|PayloadOf(bytes, n)|] == PayloadOf(bytes, n)
  {
    hide PayloadOf;
  }

  /** A complete faithful frame is delivered exactly as it was sent. */
  lemma CompleteDelivers(f: Frame, sent: Sent)
    requires FrameOk(f) && Faithful(f, sent) && Complete(f)
    ensures Deliver(f) == AsSent(f.session, f.id, sent)
  {
    hide ShardOf, Flatten;
    CompleteMeansPresent(f.present);
    assert f.shards == ShardsOf(sent.bytes);
    var n := ShardCount(|sent.bytes|);
    FlattenShards(sent.bytes, n);
    assert ShardsOf(sent.bytes)[..n] == f.shards;
  }

  // ---------- The receiver as a whole ----------

  ghost predicate AllFaithful(h: History, s: Pipe) {
    forall i | 0 <= i < |s.slots| && s.slots[i].Some? :: FaithfulIn(h, s.slots[i].value)
  }

  ghost predicate FaithfulIn(h: History, f: Frame) {
    (f.session, f.id) in h && Faithful(f, h[(f.session, f.id)])
  }

  /** An event that brings garbage or a datagram of the history. */
  ghost predicate Honest(h: History, e: Event) {
    e.Arrive? ==> Genuine(h, e.packet)
  }

  /** The delivery of a frame, as it was sent. */
  function AsSent(session: uint32, id: int, sent: Sent): Delivery {
    Delivery(session, id, sent.timestamp, sent.keyframe, sent.bytes)
  }

  /** The delivery of a frame of the history. */
  ghost predicate Intact(h: History, d: Delivery) {
    (d.session, d.id) in h && d == AsSent(d.session, d.id, h[(d.session, d.id)])
  }

  lemma AcceptFaithful(n: Numbering, h: History, s: Pipe, p: Packet, now: uint64)
    requires Valid(n, s) && AllFaithful(h, s) && Decoded(p) && IsId(n, p.frame) && Genuine(h, p)
    ensures AllFaithful(h, Accept(n, s, p, now))
  {
    hide Place, FrameOk, Store, Faithful, PacketOf, FaithfulIn;
    EnterValid(n, s, p.session);
    var t := Enter(s, p.session);
    if !(t.haveNext && Newer(n, t.next, p.frame)) {
      PlaceFaithful(n, h, if t.haveNext then t else t.(next := p.frame, nextWait := now, haveNext := true), p, now);
    }
  }

  lemma PlaceFaithful(n: Numbering, h: History, s: Pipe, p: Packet, now: uint64)
    requires Valid(n, s) && AllFaithful(h, s) && Decoded(p) && Genuine(h, p)
    requires s.haveNext && s.session == p.session
    ensures AllFaithful(h, Place(n, s, p, now))
    ensures Place(n, s, p, now).invalid == s.invalid + if SlotFor(s, p) < |s.slots| then 0 else 1
  {
    hide FrameOk, Store, Faithful, PacketOf, SlotFor, Before;
    SlotForFinds(n, s, p);
    var k := SlotFor(s, p);
    if k < |s.slots| {
      var sent := h[(p.session, p.frame)];
      var f := Before(s, k, p, now);
      BeforeFaithful(n, h, s, k, p, now);
      FaithfulShape(f, sent);
      StoreFaithful(f, sent, p);
      PlaceShape(n, s, p, now);
    }
  }

  lemma BeforeFaithful(n: Numbering, h: History, s: Pipe, k: nat, p: Packet, now: uint64)
    requires Valid(n, s) && AllFaithful(h, s) && Decoded(p) && Genuine(h, p)
    requires s.haveNext && s.session == p.session && k == SlotFor(s, p) < |s.slots|
    ensures
      var f := Before(s, k, p, now);
      f.session == p.session && f.id == p.frame && Faithful(f, h[(p.session, p.frame)])
  {
    hide FrameOk, Faithful;
    SlotForFinds(n, s, p);
    if s.slots[k].Some? {
      assert SlotOk(n, s, s.slots[k].value);
      assert FaithfulIn(h, s.slots[k].value);
    } else {
      NewFaithful(p, h[(p.session, p.frame)], now);
    }
  }

  lemma {:induction false} ReadFaithful(n: Numbering, h: History, s: Pipe, now: uint64)
    requires Valid(n, s) && AllFaithful(h, s)
    ensures AllFaithful(h, Read(n, s, now).0)
    ensures Read(n, s, now).1.Some? ==> Intact(h, Read(n, s, now).1.value)
    decreases Occupied(s.slots), if Newer(n, s.newest, s.next) then 1 else 0
  {
    hide Read, TurnOf, FrameOk, Faithful, Deliver, Complete;
    ReadUnfolds(n, s, now);
    match TurnOf(n, s, now) {
      case Waits =>
      case Takes(k) =>
        var f := s.slots[k].value;
        assert FaithfulIn(h, f) && FrameOk(f);
        CompleteDelivers(f, h[(f.session, f.id)]);
      case Discards(k) =>
        TakenValid(n, s, k, now);
        ReadFaithful(n, h, Discard(n, s, k, now), now);
      case Skips =>
        SkipValid(n, s, now);
        ReadFaithful(n, h, Skip(n, s, now), now);
    }
  }

  lemma StepFaithful(n: Numbering, h: History, s: Pipe, e: Event)
    requires Valid(n, s) && AllFaithful(h, s) && EventOk(n, e) && Honest(h, e)
    ensures AllFaithful(h, Step(n, s, e).0)
    ensures Step(n, s, e).1.Some? ==> Intact(h, Step(n, s, e).1.value)
  {
    hide Accept, Read, FrameOk, FaithfulIn;
    match e {
      case Garbage =>
      case Arrive(p, now) => AcceptFaithful(n, h, s, p, now);
      case Poll(now) => ReadFaithful(n, h, s, now);
    }
  }

  /**
   * Under any loss, duplication and reordering of the sender's datagrams, and any garbage
   * between them, every delivery is exactly a frame that was sent.
   */
  lemma {:induction false} RunIsIntact(n: Numbering, h: History, s: Pipe, es: seq<Event>)
    requires Valid(n, s) && AllFaithful(h, s) && EventsOk(n, es)
    requires forall i | 0 <= i < |es| :: Honest(h, es[i])
    ensures AllFaithful(h, Run(n, s, es).0)
    ensures forall i | 0 <= i < |es| && Run(n, s, es).1[i].Some? :: Intact(h, Run(n, s, es).1[i].value)
    decreases |es|
  {
    hide Step, AllFaithful, Intact, FrameOk, SlotOk, Distinct;
    if es != [] {
      StepFaithful(n, h, s, es[0]);
      StepValid(n, s, es[0]);
      RunIsIntact(n, h, Step(n, s, es[0]).0, es[1..]);
    }
  }
}
