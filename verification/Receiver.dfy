/** struct svrt_pipe: the reassembly of pipe/pipe.c, updated in place. */
module Receiver {
  import opened Wrappers
  import opened Field
  import opened Fec
  import opened Wire
  import opened FrameIds
  import opened Reassembly
  import RI = ReassemblyInvariant
  import C = Continuity
  import opened ReceiverSlot

  /** Sixteen free slots. */
  method FreeSlots() returns (table: array<VideoFrame>, ghost footprint: set<object>)
    ensures fresh(table) && fresh(footprint) && table !in footprint && table.Length == FRAME_SLOTS
    ensures forall i | 0 <= i < FRAME_SLOTS :: table[i] in footprint && table[i].Repr <= footprint
    ensures forall i, j | 0 <= i < j < FRAME_SLOTS :: table[i].Repr !! table[j].Repr
    ensures forall i | 0 <= i < FRAME_SLOTS :: table[i].Valid() && table[i].model == None
  {
    hide VideoFrame.Valid;
    var first := new VideoFrame();
    table := new VideoFrame[FRAME_SLOTS](_ => first);
    footprint := first.Repr;
    for i := 1 to FRAME_SLOTS
      invariant fresh(footprint) && table !in footprint
      invariant forall j | 0 <= j < i :: table[j] in footprint && table[j].Repr <= footprint
      invariant forall j, k | 0 <= j < k < i :: table[j].Repr !! table[k].Repr
      invariant forall j | 0 <= j < i :: table[j].Valid() && table[j].model == None
    {
      hide VideoFrame.Valid;
      var slot := new VideoFrame();
      table[i] := slot;
      footprint := footprint + slot.Repr;
    }
  }

  class SvrtPipe {
    const frames: array<VideoFrame>
    var session: uint32
    var newest: uint32
    var next: uint32
    var nextWait: uint64
    var haveNewest: bool
    var haveNext: bool
    var needKeyframe: bool
    var discontinuity: bool
    var decoderReset: bool
    var invalid: nat
    var recovered: nat
    var expired: nat

    /** What the slots stand for. */
    ghost var slots: seq<Option<Frame>>
    ghost var Repr: set<object>

    ghost function State(): Pipe
      reads this
    {
      Pipe(slots, session, newest, next, nextWait, haveNewest, haveNext, needKeyframe, discontinuity, decoderReset,
           invalid, recovered, expired)
    }

    /** The slots stand for what they should, and no two of them share a buffer. */
    ghost predicate Mirrors()
      reads this`slots, this`Repr, Repr - {this}
      ensures Mirrors() ==> this in Repr
    {
      && this in Repr && frames in Repr && frames.Length == FRAME_SLOTS == |slots|
      && (forall i | 0 <= i < FRAME_SLOTS ::
         frames[i] in Repr && frames[i].Repr <= Repr && this !in frames[i].Repr && frames !in frames[i].Repr)
      && (forall i, j | 0 <= i < j < FRAME_SLOTS :: frames[i].Repr !! frames[j].Repr)
      && (forall i | 0 <= i < FRAME_SLOTS :: frames[i].Valid() && frames[i].model == slots[i])
    }

    /** Between calls the state also satisfies the reassembly invariant. */
    ghost predicate Valid()
      reads this, Repr
    {
      Mirrors() && RI.Valid(Wrapping, State())
    }

    constructor ()
      ensures Valid() && fresh(Repr) && State() == INITIAL
    {
      hide VideoFrame.Valid, RI.Valid;
      session, newest, next, nextWait := 0, 0, 0, 0;
      haveNewest, haveNext, needKeyframe, discontinuity, decoderReset := false, false, false, false, false;
      invalid, recovered, expired := 0, 0, 0;
      slots := INITIAL.slots;
      var table, footprint := FreeSlots();
      frames := table;
      new;
      Repr := footprint + {this, table};
      RI.InitialValid(Wrapping);
    }

    method FreeSlot(k: nat)
      requires Mirrors() && k < FRAME_SLOTS
      modifies this`slots, this`Repr, Repr - {this}
      ensures Mirrors() && fresh(Repr - old(Repr))
      ensures slots == old(slots)[k := None]
    {
      hide VideoFrame.Valid;
      frames[k].Free();
      slots := slots[k := None];
    }

    method OpenSlot(k: nat, info: VideoInfo, ghost p: Packet, now: uint64)
      requires Mirrors() && k < FRAME_SLOTS && slots[k].None?
      requires Decoded(p) && p.session == info.session && p.frame == info.frame && p.timestamp == info.timestamp
      requires p.frameSize == info.frameSize && p.keyframe == (info.flags % 2 == 1)
      modifies this`slots, this`Repr, Repr - {this}
      ensures Mirrors() && fresh(Repr - old(Repr))
      ensures slots == old(slots)[k := Some(NewFrame(p, now))]
    {
      hide VideoFrame.Valid, FrameOk, NewFrame, Decoded;
      frames[k].Open(info, p, now);
      Repr := Repr + frames[k].Repr;
      slots := slots[k := Some(NewFrame(p, now))];
    }

    method DataSlot(k: nat, index: nat, payload: seq<byte>)
      requires Mirrors() && k < FRAME_SLOTS && slots[k].Some?
      requires index < |slots[k].value.shards| == |slots[k].value.present|
      requires |payload| <= |slots[k].value.shards[index]| == SHARD_SIZE
      modifies this`slots, this`Repr, Repr - {this}
      ensures Mirrors() && fresh(Repr - old(Repr))
      ensures slots == old(slots)[k := Some(StoreData(old(slots)[k].value, index, payload))]
    {
      hide VideoFrame.Valid, FrameOk, StoreData;
      frames[k].Describes();
      frames[k].StoreShard(index, payload);
      slots := slots[k := Some(StoreData(slots[k].value, index, payload))];
    }

    method ParitySlot(k: nat, g: nat, j: nat, payload: seq<byte>)
      requires Mirrors() && k < FRAME_SLOTS && slots[k].Some?
      requires g < |slots[k].value.groups| && j < PARITY_SHARDS && |payload| == SHARD_SIZE
      modifies this`slots, this`Repr, Repr - {this}
      ensures Mirrors() && fresh(Repr - old(Repr))
      ensures slots == old(slots)[k := Some(StoreParity(old(slots)[k].value, g, j, payload))]
    {
      hide VideoFrame.Valid, FrameOk, StoreParity;
      frames[k].Describes();
      frames[k].KeepParity(g, j, payload);
      Repr := Repr + frames[k].Repr;
      slots := slots[k := Some(StoreParity(slots[k].value, g, j, payload))];
    }

    method RecoverSlot(k: nat, g: nat)
      requires Mirrors() && k < FRAME_SLOTS && slots[k].Some?
      requires FrameOk(slots[k].value) && g < |slots[k].value.groups|
      modifies this`slots, this`Repr, this`recovered, Repr - {this}
      ensures Mirrors() && fresh(Repr - old(Repr))
      ensures slots == old(slots)[k := Some(RecoverGroup(old(slots)[k].value, g).0)]
      ensures recovered == old(recovered) + RecoverGroup(old(slots)[k].value, g).1
    {
      hide VideoFrame.Valid, FrameOk, RecoverGroup;
      frames[k].Describes();
      var repaired := frames[k].RecoverShards(g);
      recovered := recovered + repaired;
      slots := slots[k := Some(RecoverGroup(slots[k].value, g).0)];
    }

    method FreeAll()
      requires Mirrors()
      modifies this`slots, this`Repr, Repr - {this}
      ensures Mirrors() && fresh(Repr - old(Repr)) && slots == NoFrames(FRAME_SLOTS)
    {
      hide VideoFrame.Valid;
      for i := 0 to FRAME_SLOTS
        invariant Mirrors() && fresh(Repr - old(Repr))
        invariant forall j | 0 <= j < i :: slots[j] == None
      {
        hide VideoFrame.Valid;
        FreeSlot(i);
      }
    }

    /** A new session drops everything that the old one left. */
    method DropSession()
      requires Mirrors()
      modifies this, Repr
      ensures Mirrors() && fresh(Repr - old(Repr))
      ensures State() == old(State()).(slots := NoFrames(FRAME_SLOTS), haveNewest := false, haveNext := false,
                                       needKeyframe := true, discontinuity := true, decoderReset := true)
    {
      hide Mirrors;
      SlotCount();
      FreeAll();
      haveNewest, haveNext, needKeyframe, discontinuity, decoderReset := false, false, true, true, true;
    }

    /** The session check at the head of accept_datagram. */
    method EnterSession(id: uint32)
      requires Mirrors()
      modifies this, Repr
      ensures Mirrors() && fresh(Repr - old(Repr)) && State() == Enter(old(State()), id)
    {
      hide Mirrors;
      SlotCount();
      if session != 0 && session != id { DropSession(); }
      if session == 0 {
        needKeyframe := true;
        discontinuity := true;
      }
      session := id;
    }

    lemma SlotCount()
      requires Mirrors()
      ensures |slots| == frames.Length == FRAME_SLOTS && this in Repr
    {}

    /** The search half of find_frame. */
    method FindSlot(info: VideoInfo, ghost p: Packet) returns (k: nat)
      requires Mirrors() && p.session == info.session && p.frame == info.frame
      ensures k == SlotFor(State(), p)
    {
      hide VideoFrame.Valid, FrameOk;
      for i := 0 to FRAME_SLOTS
        invariant FindFrame(slots, p.session, p.frame, 0) == FindFrame(slots, p.session, p.frame, i)
      {
        hide VideoFrame.Valid, FrameOk;
        frames[i].Describes();
        if frames[i].data != null && frames[i].session == info.session && frames[i].id == info.frame { return i; }
      }
      for i := 0 to FRAME_SLOTS
        invariant FindFree(slots, 0) == FindFree(slots, i)
      {
        hide VideoFrame.Valid, FrameOk;
        frames[i].Describes();
        if frames[i].data == null { return i; }
      }
      k := FRAME_SLOTS;
    }

    /** The checks of accept_datagram on the frame in slot k. */
    method Judge(k: nat, info: VideoInfo, ghost p: Packet) returns (ruling: Ruling)
      requires Mirrors() && k < FRAME_SLOTS && slots[k].Some? && FrameOk(slots[k].value)
      requires Decoded(p) && p.timestamp == info.timestamp && p.frameSize == info.frameSize
      requires p.group == info.group && p.shard == info.shard && p.dataShards == info.dataShards
      requires |p.payload| == info.payloadSize
      ensures ruling == Rule(slots[k].value, p)
    {
      hide VideoFrame.Valid, FrameOk;
      ghost var f := slots[k].value;
      frames[k].Describes();
      if frames[k].size != info.frameSize || frames[k].timestamp != info.timestamp
         || info.group >= frames[k].groups.Length {
        return Refuse;
      }
      FrameShape(f, p.group);
      var first := info.group * DATA_SHARDS;
      var expected := if frames[k].shardCount - first < DATA_SHARDS then frames[k].shardCount - first else DATA_SHARDS;
      if info.dataShards != expected { return Refuse; }
      if info.shard < info.dataShards {
        var index := first + info.shard;
        var offset := index * SHARD_SIZE;
        var expectedSize := if frames[k].size - offset < SHARD_SIZE then frames[k].size - offset else SHARD_SIZE;
        if info.payloadSize != expectedSize { return Refuse; }
        return KeepData(index);
      }
      var parity := info.shard - info.dataShards;
      if parity >= PARITY_SHARDS || info.payloadSize != SHARD_SIZE { return Ignore; }
      return KeepParity(parity);
    }

    /** The second half of accept_datagram, for the frame in slot k. */
    method StoreDatagram(k: nat, info: VideoInfo, ghost p: Packet, payload: seq<byte>)
      requires Mirrors() && k < FRAME_SLOTS && slots[k].Some? && FrameOk(slots[k].value)
      requires Decoded(p) && p.frame == info.frame && p.timestamp == info.timestamp && p.frameSize == info.frameSize
      requires p.group == info.group && p.shard == info.shard && p.dataShards == info.dataShards
      requires p.payload == payload && |payload| == info.payloadSize
      modifies this, Repr
      ensures Mirrors() && fresh(Repr - old(Repr))
      ensures
        var f := old(slots)[k].value;
        State() == Put(Wrapping, old(State()), k, f, Store(f, p), p.frame)
    {
      hide Mirrors, FrameOk, Store, Rule, Decoded;
      SlotCount();
      ghost var f := slots[k].value;
      assert slots[k := Some(f)] == slots;
      Rulings(f, p);
      var ruling := Judge(k, info, p);
      match ruling {
        case Refuse =>
          invalid := invalid + 1;
        case Ignore =>
        case _ =>
          KeepShard(k, info, ruling, p, payload);
          NoteNewest(info.frame);
      }
    }

    lemma Rulings(f: Frame, p: Packet)
      requires FrameOk(f)
      ensures Rule(f, p).Refuse? ==> Store(f, p) == Invalid
      ensures Rule(f, p).Ignore? ==> Store(f, p) == Ignored
    {
      hide Rule, FrameOk;
    }

    /** A data shard is stored; a parity shard is kept and its group recovered if it can be. */
    method KeepShard(k: nat, info: VideoInfo, ruling: Ruling, ghost p: Packet, payload: seq<byte>)
      requires Mirrors() && k < FRAME_SLOTS && slots[k].Some? && FrameOk(slots[k].value)
      requires ruling == Rule(slots[k].value, p) && (ruling.KeepData? || ruling.KeepParity?)
      requires p.group == info.group && p.payload == payload
      modifies this`slots, this`Repr, this`recovered, Repr - {this}
      ensures Mirrors() && fresh(Repr - old(Repr))
      ensures
        var v := Store(old(slots)[k].value, p);
        v.Stored? && slots == old(slots)[k := Some(v.frame)] && recovered == old(recovered) + v.repaired
    {
      hide Mirrors, FrameOk, StoreData, StoreParity, RecoverGroup, Rule;
      SlotCount();
      ghost var f := slots[k].value;
      RI.FrameLengths(f);
      match ruling {
        case KeepData(index) =>
          ShardLength(f, index);
          DataSlot(k, index, payload);
        case KeepParity(parity) =>
          StoreParityOk(f, p.group, parity, payload);
          ParitySlot(k, info.group, parity, payload);
          RecoverSlot(k, info.group);
      }
    }

    /** The end of accept_datagram. */
    method NoteNewest(id: uint32)
      modifies this`newest, this`haveNewest
      ensures haveNewest && newest == if !old(haveNewest) || Newer(Wrapping, id, old(newest)) then id else old(newest)
    {
      if !haveNewest || Newer(Wrapping, id, newest) {
        newest, haveNewest := id, true;
      }
    }

    lemma ShardLength(f: Frame, index: nat)
      requires FrameOk(f) && index < |f.shards|
      ensures |f.shards[index]| == SHARD_SIZE
    {}

    /** find_frame: the slot of the datagram's frame, opened if it is a free one. */
    method FindOrOpen(info: VideoInfo, ghost p: Packet, now: uint64) returns (k: nat)
      requires Mirrors() && SlotsOk(State())
      requires Decoded(p) && p.session == info.session && p.frame == info.frame && p.timestamp == info.timestamp
      requires p.frameSize == info.frameSize && p.keyframe == (info.flags % 2 == 1)
      modifies this`slots, this`Repr, Repr - {this}
      ensures Mirrors() && fresh(Repr - old(Repr)) && k == SlotFor(old(State()), p) <= FRAME_SLOTS == |old(slots)|
      ensures slots == if k == FRAME_SLOTS then old(slots) else old(slots)[k := Some(Before(old(State()), k, p, now))]
    {
      hide Mirrors, FrameOk, SlotFor, NewFrame, Before, Decoded;
      SlotCount();
      k := FindSlot(info, p);
      if k < FRAME_SLOTS {
        RI.BeforeIs(State(), k, p, now);
        var taken := SlotTaken(k);
        if !taken { OpenSlot(k, info, p, now); }
      }
    }

    /** accept_datagram from find_frame on. */
    method PlaceDatagram(info: VideoInfo, ghost p: Packet, payload: seq<byte>, now: uint64)
      requires Mirrors() && SlotsOk(State())
      requires Decoded(p) && p.session == info.session && p.frame == info.frame && p.timestamp == info.timestamp
      requires p.frameSize == info.frameSize && p.keyframe == (info.flags % 2 == 1)
      requires p.group == info.group && p.shard == info.shard && p.dataShards == info.dataShards
      requires p.payload == payload && |payload| == info.payloadSize
      modifies this, Repr
      ensures Mirrors() && fresh(Repr - old(Repr)) && State() == Place(Wrapping, old(State()), p, now)
    {
      hide Mirrors, FrameOk, Store, Put, SlotFor, NewFrame, Before, Decoded, Place;
      SlotCount();
      ghost var s := State();
      PlaceUnfolds(s, p, now);
      var k := FindOrOpen(info, p, now);
      if k == FRAME_SLOTS {
        invalid := invalid + 1;
      } else {
        StoreDatagram(k, info, p, payload);
      }
    }

    /** Where the datagram is placed, once a slot is open for it. */
    lemma PlaceUnfolds(s: Pipe, p: Packet, now: uint64)
      requires SlotsOk(s) && Decoded(p)
      ensures
        var k := SlotFor(s, p);
        if k == |s.slots| then Place(Wrapping, s, p, now) == s.(invalid := s.invalid + 1)
        else
          var f := Before(s, k, p, now);
          && FrameOk(f)
          && Place(Wrapping, s, p, now) == Put(Wrapping, s.(slots := s.slots[k := Some(f)]), k, f, Store(f, p), p.frame)
    {
      hide FrameOk, Store, Put, SlotFor, Before;
      var k := SlotFor(s, p);
      if k < |s.slots| {
        var f := Before(s, k, p, now);
        PutTwice(s, k, f, Store(f, p), p.frame);
      }
    }

    lemma PutTwice(s: Pipe, k: nat, f: Frame, v: Verdict, id: int)
      requires k < |s.slots|
      ensures Put(Wrapping, s.(slots := s.slots[k := Some(f)]), k, f, v, id) == Put(Wrapping, s, k, f, v, id)
    {
      assert forall g: Frame :: s.slots[k := Some(f)][k := Some(g)] == s.slots[k := Some(g)];
    }

    /** accept_datagram for a datagram that decodes. */
    method AcceptPacket(info: VideoInfo, ghost p: Packet, payload: seq<byte>, now: uint64)
      requires Mirrors() && SlotsOk(State())
      requires Decoded(p) && p.session == info.session && p.frame == info.frame && p.timestamp == info.timestamp
      requires p.frameSize == info.frameSize && p.keyframe == (info.flags % 2 == 1)
      requires p.group == info.group && p.shard == info.shard && p.dataShards == info.dataShards
      requires p.payload == payload && |payload| == info.payloadSize
      modifies this, Repr
      ensures Mirrors() && fresh(Repr - old(Repr)) && State() == Accept(Wrapping, old(State()), p, now)
    {
      hide Mirrors, FrameOk, Place, Decoded;
      EnterSession(info.session);
      if !haveNext {
        next, nextWait, haveNext := info.frame, now, true;
      } else if Newer(Wrapping, next, info.frame) {
        return;
      }
      PlaceDatagram(info, p, payload, now);
    }

    /** accept_datagram */
    method AcceptDatagram(datagram: seq<byte>, now: uint64)
      requires Valid()
      modifies this, Repr
      ensures Valid() && fresh(Repr - old(Repr))
      ensures State() == Step(Wrapping, old(State()), EventOf(datagram, now)).0
    {
      hide Mirrors, RI.Valid, Accept;
      SlotCount();
      ValidIsOk(State());
      RI.StepValid(Wrapping, State(), EventOf(datagram, now));
      var decoded := Decode(datagram);
      if decoded == None {
        invalid := invalid + 1;
      } else {
        AcceptPacket(decoded.value, FromWire(datagram).value, datagram[HEADER_SIZE..], now);
      }
    }

    lemma ValidIsOk(s: Pipe)
      requires RI.Valid(Wrapping, s)
      ensures SlotsOk(s)
    {}

    method SlotTaken(k: nat) returns (taken: bool)
      requires Mirrors() && k < FRAME_SLOTS
      ensures taken == slots[k].Some?
    {
      frames[k].Describes();
      taken := frames[k].data != null;
    }

    /** The search of ready_frame for the frame that delivery waits for. */
    method FindExpected() returns (k: nat)
      requires Mirrors()
      ensures k == FindNext(slots, next, 0)
    {
      hide VideoFrame.Valid, FrameOk;
      for i := 0 to FRAME_SLOTS
        invariant FindNext(slots, next, 0) == FindNext(slots, next, i)
      {
        hide VideoFrame.Valid, FrameOk;
        frames[i].Describes();
        if frames[i].data != null && frames[i].id == next { return i; }
      }
      k := FRAME_SLOTS;
    }

    /** One turn's decision in the loop of ready_frame. */
    method Decide(now: uint64) returns (turn: Turn)
      requires Mirrors() && haveNext
      ensures turn == TurnOf(Wrapping, State(), now)
    {
      hide VideoFrame.Valid, FrameOk;
      var k := FindExpected();
      if k < FRAME_SLOTS {
        frames[k].Describes();
        if frames[k].received == frames[k].shardCount {
          return if needKeyframe && !frames[k].keyframe then Discards(k) else Takes(k);
        }
      }
      var since := if k < FRAME_SLOTS then frames[k].firstPacket else nextWait;
      if haveNewest && Newer(Wrapping, newest, next) && Elapsed(now, since) >= FRAME_DEADLINE_US { return Skips; }
      return Waits;
    }

    /** Frees every slot older than the resume point. */
    method FreeOlder(resume: uint32)
      requires Mirrors()
      modifies this`slots, this`Repr, Repr - {this}
      ensures Mirrors() && fresh(Repr - old(Repr)) && slots == DropBefore(Wrapping, old(slots), resume)
    {
      hide VideoFrame.Valid, FrameOk;
      for i := 0 to FRAME_SLOTS
        invariant Mirrors() && fresh(Repr - old(Repr))
        invariant forall j | 0 <= j < i :: slots[j] == DropBefore(Wrapping, old(slots), resume)[j]
        invariant forall j | i <= j < FRAME_SLOTS :: slots[j] == old(slots)[j]
      {
        hide VideoFrame.Valid, FrameOk;
        frames[i].Describes();
        if frames[i].data != null && Newer(Wrapping, resume, frames[i].id) { FreeSlot(i); }
      }
    }

    /** A complete frame that the decoder cannot use is dropped. */
    method DropExpected(k: nat, now: uint64)
      requires Mirrors() && k < FRAME_SLOTS
      modifies this, Repr
      ensures Mirrors() && fresh(Repr - old(Repr)) && State() == Discard(Wrapping, old(State()), k, now)
    {
      hide Mirrors;
      SlotCount();
      FreeSlot(k);
      next, nextWait := Plus(Wrapping, next, 1), now;
    }

    /**
     * Delivery gives up waiting: it moves to the newest number, what is held of older frames is
     * freed, and the numbers passed count as expired.
     */
    method SkipStale(now: uint64)
      requires Mirrors()
      modifies this, Repr
      ensures Mirrors() && fresh(Repr - old(Repr)) && State() == Skip(Wrapping, old(State()), now)
    {
      hide Mirrors, DropBefore;
      SlotCount();
      var resume := newest;
      var skipped := Ahead(Wrapping, next, resume);
      if skipped == 0 { skipped := 1; }
      FreeOlder(resume);
      expired, next, nextWait, needKeyframe, discontinuity := expired + skipped, resume, now, true, true;
    }

    /** ready_frame: the slot to deliver, if there is one. */
    method ReadyFrame(now: uint64) returns (slot: Option<nat>)
      requires Mirrors()
      modifies this, Repr
      ensures Mirrors() && fresh(Repr - old(Repr))
      ensures (State(), slot) == Ready(Wrapping, old(State()), now)
    {
      hide Mirrors, Ready, TurnOf, Discard, Skip;
      SlotCount();
      while haveNext
        invariant Mirrors() && fresh(Repr - old(Repr))
        invariant Ready(Wrapping, State(), now) == Ready(Wrapping, old(State()), now)
        decreases Occupied(slots), if Newer(Wrapping, newest, next) then 1 else 0
      {
        hide Mirrors, Ready, TurnOf, Discard, Skip;
        SlotCount();
        RI.ReadyUnfolds(Wrapping, State(), now);
        var turn := Decide(now);
        if turn.Waits? { return None; }
        if turn.Takes? {
          needKeyframe, next, nextWait := false, Plus(Wrapping, next, 1), now;
          return Some(turn.slot);
        }
        if turn.Discards? { DropExpected(turn.slot, now); } else { SkipStale(now); }
      }
      RI.ReadyUnfolds(Wrapping, State(), now);
      slot := None;
    }

    /** The part of svrt_pipe_read that polls: a ready frame is copied out and its slot freed. */
    method ReadFrame(now: uint64) returns (d: Option<Delivery>)
      requires Valid()
      modifies this, Repr
      ensures Valid() && fresh(Repr - old(Repr))
      ensures (State(), d) == Step(Wrapping, old(State()), Poll(now))
    {
      hide Mirrors, RI.Valid, Ready;
      ValidIsOk(State());
      RI.StepValid(Wrapping, State(), Poll(now));
      var slot := ReadyFrame(now);
      if slot == None { return None; }
      SlotCount();
      d := CopySlot(slot.value);
      FreeSlot(slot.value);
    }

    method CopySlot(k: nat) returns (d: Option<Delivery>)
      requires Mirrors() && k < FRAME_SLOTS && slots[k].Some?
      ensures d == Some(Deliver(slots[k].value))
    {
      hide VideoFrame.Valid, FrameOk, Contents;
      frames[k].Describes();
      var bytes := frames[k].CopyOut();
      d := Some(Delivery(frames[k].session, frames[k].id, frames[k].timestamp, frames[k].keyframe, bytes));
    }

    /** svrt_pipe_take_decoder_reset */
    method TakeDecoderReset() returns (reset: bool)
      requires Valid()
      modifies this`decoderReset
      ensures Valid() && reset == old(decoderReset) && State() == old(State()).(decoderReset := false)
    {
      hide Mirrors, RI.Valid;
      C.MarkedValid(Wrapping, State(), false, discontinuity);
      reset := decoderReset;
      decoderReset := false;
    }

    /** svrt_pipe_take_discontinuity */
    method TakeDiscontinuity() returns (changed: bool)
      requires Valid()
      modifies this`discontinuity
      ensures Valid() && changed == old(discontinuity) && State() == old(State()).(discontinuity := false)
    {
      hide Mirrors, RI.Valid;
      C.MarkedValid(Wrapping, State(), decoderReset, false);
      changed := discontinuity;
      discontinuity := false;
    }

    /** What svrt_run asks for once it has read a frame. */
    method TakeNotice() returns (notice: C.Notice)
      requires Valid()
      modifies this`decoderReset, this`discontinuity
      ensures Valid() && (State(), notice) == C.TakeMarks(old(State()))
    {
      hide Mirrors, RI.Valid;
      var reset := TakeDecoderReset();
      if reset { return C.Flush; }
      var changed := TakeDiscontinuity();
      notice := if changed then C.Restored else C.Nothing;
    }
  }
}
