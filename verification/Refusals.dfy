/** Datagrams that decode but do not belong to the frame they claim to be of. */
module Refusals {
  import opened Wrappers
  import opened Fec
  import opened Wire
  import opened FrameIds
  import opened Reassembly
  import opened ReassemblyInvariant
  import opened Integrity
  import opened FrameLife

  /** The group, the number of data shards and the length of a data shard are those of a frame of that size. */
  predicate FitsFrame(p: Packet, size: nat) {
    && 10 * p.group < (size + 1163) / 1164
    && var left := (size + 1163) / 1164 - 10 * p.group;
    && p.dataShards == (if left < 10 then left else 10)
    && (p.shard < p.dataShards ==>
         var behind := size - 1164 * (10 * p.group + p.shard);
         |p.payload| == if behind < 1164 then behind else 1164)
  }

  /** The datagram agrees with the sender's frame in size, time and groups, and in the length of a data shard. */
  predicate Agrees(p: Packet, sent: Sent) {
    p.frameSize == |sent.bytes| && p.timestamp == sent.timestamp && FitsFrame(p, |sent.bytes|)
  }

  predicate ShortParity(p: Packet) { p.shard >= p.dataShards && |p.payload| != 1164 }

  lemma RuleIs(f: Frame, sent: Sent, p: Packet)
    requires FrameOk(f) && Faithful(f, sent) && Decoded(p)
    ensures Rule(f, p).Refuse? <==> !Agrees(p, sent)
    ensures Rule(f, p).Ignore? <==> Agrees(p, sent) && ShortParity(p)
  {
    hide FaithfulGroup, GroupOk, Rectangular;
  }

  /** What is refused or ignored, whatever has arrived of the frame: decided by the frame the sender sent. */
  lemma RefusedExactly(f: Frame, sent: Sent, p: Packet)
    requires FrameOk(f) && Faithful(f, sent) && Decoded(p)
    ensures Store(f, p).Invalid? <==> !Agrees(p, sent)
    ensures Store(f, p).Ignored? <==> Agrees(p, sent) && ShortParity(p)
  {
    hide FrameOk, Faithful, Rule, Agrees, RecoverGroup;
    RuleIs(f, sent, p);
  }

  /** The first copy of a shard counts: a data shard that is there and a parity shard that is held stay as they are. */
  lemma FirstCopyStays(f: Frame, p: Packet)
    requires FrameOk(f) && Store(f, p).Stored? && p.group < |f.groups|
    ensures p.shard < p.dataShards ==>
      var i := 10 * p.group + p.shard;
      i < |f.present| && (f.present[i] ==> Store(f, p) == Stored(f, 0))
    ensures p.shard == p.dataShards && f.groups[p.group].parity0.Some? ==> Store(f, p).frame.groups == f.groups
    ensures p.shard == p.dataShards + 1 && f.groups[p.group].parity1.Some? ==> Store(f, p).frame.groups == f.groups
  {
    hide FrameOk, Recover;
    FrameLengths(f);
    if p.shard >= p.dataShards {
      StoreParityOk(f, p.group, p.shard - p.dataShards, p.payload);
      assert f.groups[p.group := f.groups[p.group]] == f.groups;
    }
  }

  lemma OwnSlot(n: Numbering, s: Pipe, p: Packet, k: nat)
    requires Valid(n, s) && Holds(s, k, p.session, p.frame)
    ensures SlotFor(s, p) == k
  {
    hide FrameOk, SlotFor;
    assert SlotOk(n, s, s.slots[k].value);
    SlotForFinds(n, s, p);
  }

  /**
   * In the receiver, a datagram for a frame that is in a slot: one that does not agree with the
   * frame changes nothing but the counter of invalid ones, a parity shard of another length
   * changes nothing at all, and any other is stored.
   */
  lemma RefusedInReceiver(n: Numbering, s: Pipe, p: Packet, now: uint64, k: nat, sent: Sent)
    requires Valid(n, s) && Decoded(p) && Holds(s, k, p.session, p.frame) && Faithful(s.slots[k].value, sent)
    ensures
      var t := Accept(n, s, p, now);
      if !Agrees(p, sent) then t == s.(invalid := s.invalid + 1)
      else if ShortParity(p) then t == s
      else Store(s.slots[k].value, p).Stored? && t.slots == s.slots[k := Some(Store(s.slots[k].value, p).frame)]
           && t.invalid == s.invalid
  {
    hide FrameOk, Faithful, Store, Agrees, SlotFor, Distinct, Before;
    HeldIsOk(n, s, k, p.session, p.frame);
    var f := s.slots[k].value;
    RefusedExactly(f, sent, p);
    OwnSlot(n, s, p, k);
    BeforeIs(s, k, p, now);
    assert s.slots[k := Some(f)] == s.slots;
  }

  // ---------- A frame without a slot ----------

  ghost predicate HasSlot(s: Pipe, p: Packet) { exists k :: Holds(s, k, p.session, p.frame) }

  ghost predicate Full(s: Pipe) { forall k | 0 <= k < |s.slots| :: s.slots[k].Some? }

  ghost predicate FirstFree(s: Pipe, k: nat) {
    k < |s.slots| && s.slots[k].None? && forall j | 0 <= j < k :: s.slots[j].Some?
  }

  /** There is no slot for the datagram, or it is refused or ignored by its frame. */
  predicate TurnedAway(s: Pipe, p: Packet, now: uint64)
    requires SlotsOk(s) && Decoded(p)
  {
    SlotFor(s, p) == |s.slots| || !Store(Before(s, SlotFor(s, p), p, now), p).Stored?
  }

  /** Datagrams of the session in progress for a frame that is not passed yet. */
  ghost predicate Current(n: Numbering, s: Pipe, p: Packet) {
    && Valid(n, s) && Decoded(p) && IsId(n, p.frame) && s.haveNext && s.session == p.session
    && !Newer(n, s.next, p.frame)
  }

  lemma NewRuleIs(p: Packet, now: uint64)
    requires Decoded(p) && FrameOk(NewFrame(p, now))
    ensures Rule(NewFrame(p, now), p).Refuse? <==> !FitsFrame(p, p.frameSize)
    ensures Rule(NewFrame(p, now), p).Ignore? <==> FitsFrame(p, p.frameSize) && ShortParity(p)
  {
    hide FrameOk;
  }

  lemma NewStored(p: Packet, now: uint64)
    requires Decoded(p) && FrameOk(NewFrame(p, now))
    ensures Store(NewFrame(p, now), p).Invalid? <==> !FitsFrame(p, p.frameSize)
    ensures Store(NewFrame(p, now), p).Ignored? <==> FitsFrame(p, p.frameSize) && ShortParity(p)
  {
    hide FrameOk, Rule, FitsFrame, RecoverGroup;
    NewRuleIs(p, now);
  }

  lemma SlotForIs(n: Numbering, s: Pipe, p: Packet)
    requires Current(n, s, p)
    ensures var k := SlotFor(s, p);
      if HasSlot(s, p) then Holds(s, k, p.session, p.frame)
      else if Full(s) then k == |s.slots|
      else FirstFree(s, k)
  {
    hide FrameOk, Distinct;
    if HasSlot(s, p) {
      var k :| Holds(s, k, p.session, p.frame);
      OwnSlot(n, s, p, k);
    } else {
      FindFrameFinds(s.slots, p.session, p.frame, 0);
      assert !Holds(s, FindFrame(s.slots, p.session, p.frame, 0), p.session, p.frame);
      FindFreeFinds(s.slots, 0);
    }
  }

  lemma TurnedAwayWithSlot(n: Numbering, s: Pipe, p: Packet, now: uint64)
    requires Current(n, s, p) && TurnedAway(s, p, now) && HasSlot(s, p)
    ensures Accept(n, s, p, now).slots == s.slots
  {
    hide FrameOk, SlotFor, Distinct, Store, HasSlot, Full, Before, SlotOk;
    SlotForIs(n, s, p);
    var k := SlotFor(s, p);
    BeforeIs(s, k, p, now);
    assert s.slots[k := s.slots[k]] == s.slots;
  }

  lemma TurnedAwayWhereFull(n: Numbering, s: Pipe, p: Packet, now: uint64)
    requires Current(n, s, p) && !HasSlot(s, p) && Full(s)
    ensures Accept(n, s, p, now).slots == s.slots
  {
    hide FrameOk, SlotFor, Distinct, Store, HasSlot, Full, Before, SlotOk;
    SlotForIs(n, s, p);
  }

  lemma TurnedAwayWhereFree(n: Numbering, s: Pipe, p: Packet, now: uint64)
    requires Current(n, s, p) && TurnedAway(s, p, now) && !HasSlot(s, p) && !Full(s)
    ensures !FitsFrame(p, p.frameSize) || ShortParity(p)
    ensures FirstFree(s, SlotFor(s, p))
    ensures Accept(n, s, p, now) ==
      s.(slots := s.slots[SlotFor(s, p) := Some(NewFrame(p, now))],
         invalid := if FitsFrame(p, p.frameSize) then s.invalid else s.invalid + 1)
  {
    hide FrameOk, SlotFor, Distinct, Store, FitsFrame, ShortParity, HasSlot, Full, Before, SlotOk, NewFrame;
    SlotForIs(n, s, p);
    NewFrameOk(p, now);
    NewStored(p, now);
    BeforeIs(s, SlotFor(s, p), p, now);
  }

  lemma NewHasNothing(p: Packet, now: uint64)
    requires Decoded(p)
    ensures NewFrame(p, now).received == 0
  {}

  /**
   * A datagram that is turned away leaves all slots as they were if and only if its frame has a
   * slot or no slot is free. In the other case it is one that contradicts itself, which is counted
   * invalid, or a parity shard of the wrong length, which is not, and it takes the first free slot
   * for a frame of which nothing has been received.
   */
  lemma TurnedAwayKeepsSlots(n: Numbering, s: Pipe, p: Packet, now: uint64)
    requires Current(n, s, p) && TurnedAway(s, p, now)
    ensures Accept(n, s, p, now).slots == s.slots <==> HasSlot(s, p) || Full(s)
    ensures !HasSlot(s, p) && !Full(s) ==>
      && (!FitsFrame(p, p.frameSize) || ShortParity(p))
      && FirstFree(s, SlotFor(s, p)) && NewFrame(p, now).received == 0
      && Accept(n, s, p, now) ==
           s.(slots := s.slots[SlotFor(s, p) := Some(NewFrame(p, now))],
              invalid := if FitsFrame(p, p.frameSize) then s.invalid else s.invalid + 1)
  {
    hide FrameOk, SlotFor, Distinct, Accept, FitsFrame, ShortParity, HasSlot, Full, TurnedAway, NewFrame, Valid;
    if HasSlot(s, p) {
      TurnedAwayWithSlot(n, s, p, now);
    } else if Full(s) {
      TurnedAwayWhereFull(n, s, p, now);
    } else {
      TurnedAwayWhereFree(n, s, p, now);
      NewHasNothing(p, now);
    }
  }

  /** And where its frame has no slot and one is free, that is exactly what turns a datagram away. */
  lemma TurnedAwayExactly(n: Numbering, s: Pipe, p: Packet, now: uint64)
    requires Current(n, s, p) && !HasSlot(s, p) && !Full(s)
    ensures TurnedAway(s, p, now) <==> !FitsFrame(p, p.frameSize) || ShortParity(p)
  {
    hide FrameOk, SlotFor, Distinct, Store, FitsFrame, ShortParity, HasSlot, Full;
    SlotForIs(n, s, p);
    NewFrameOk(p, now);
    NewStored(p, now);
    BeforeIs(s, SlotFor(s, p), p, now);
  }
}
