/** The receiver of pipe/pipe.c on values: what each datagram and each poll does to the reassembly state. */
module Reassembly {
  import opened Wrappers
  import opened Field
  import opened Fec
  import opened Wire
  import opened FrameIds

  const FRAME_SLOTS: nat := 16
  const FRAME_DEADLINE_US: nat := 80000
  const TWO_TO_64: nat := 0x1_0000_0000_0000_0000

  // ---------- State ----------

  datatype Group = Group(parity0: Option<Shard>, parity1: Option<Shard>)

  datatype Frame = Frame(
    session: uint32,
    id: int,
    size: nat,
    timestamp: uint64,
    keyframe: bool,
    firstPacket: uint64,
    received: nat,
    shards: seq<Shard>,
    present: seq<bool>,
    groups: seq<Group>)

  datatype Pipe = Pipe(
    slots: seq<Option<Frame>>,
    session: uint32,
    newest: int,
    next: int,
    nextWait: uint64,
    haveNewest: bool,
    haveNext: bool,
    needKeyframe: bool,
    discontinuity: bool,
    decoderReset: bool,
    invalid: nat,
    recovered: nat,
    expired: nat)

  /** A decoded datagram. Its frame number is an int, so that one machine serves both numberings. */
  datatype Packet = Packet(
    session: uint32,
    frame: int,
    timestamp: uint64,
    frameSize: nat,
    keyframe: bool,
    group: nat,
    shard: nat,
    dataShards: nat,
    payload: seq<byte>)

  /** What the header check guarantees about a decoded datagram. */
  predicate Decoded(p: Packet) {
    && p.session != 0
    && 0 < p.frameSize <= MAX_FRAME_SIZE
    && 0 < p.dataShards <= DATA_SHARDS
    && p.shard < p.dataShards + PARITY_SHARDS
    && |p.payload| <= SHARD_SIZE
  }

  function FromWire(datagram: seq<byte>): (p: Option<Packet>)
    ensures p.Some? ==> Decoded(p.value) && IsId(Wrapping, p.value.frame)
  {
    match Decode(datagram)
    case None => None
    case Some(info) =>
      Some(Packet(info.session, info.frame, info.timestamp, info.frameSize, info.flags % 2 == 1,
                  info.group, info.shard, info.dataShards, datagram[HEADER_SIZE..]))
  }

  const INITIAL: Pipe :=
    Pipe(NoFrames(FRAME_SLOTS), 0, 0, 0, 0, false, false, false, false, false, 0, 0, 0)

  // ---------- One frame ----------

  function ShardCount(size: nat): nat { (size + SHARD_SIZE - 1) / SHARD_SIZE }

  function GroupCount(shards: nat): nat { (shards + DATA_SHARDS - 1) / DATA_SHARDS }

  function Min(a: int, b: int): int { if a < b then a else b }

  /** The number of data shards in group g of a frame of the given number of shards. */
  function GroupSize(shards: nat, g: nat): nat
    requires g < GroupCount(shards)
  {
    Min(shards - g * DATA_SHARDS, DATA_SHARDS)
  }

  function Zeros(n: nat): Shard { seq(n, _ => 0) }

  function Counted(present: seq<bool>): nat {
    if present == [] then 0
    else Counted(present[..|present| - 1]) + if present[|present| - 1] then 1 else 0
  }

  ghost predicate FrameOk(f: Frame) {
    && 0 < f.size <= MAX_FRAME_SIZE
    && |f.shards| == |f.present| == ShardCount(f.size)
    && |f.groups| == GroupCount(|f.shards|)
    && Rectangular(f.shards, SHARD_SIZE)
    && (forall g | 0 <= g < |f.groups| :: GroupOk(f.groups[g]))
    && f.received == Counted(f.present)
    && (forall i | 0 <= i < |f.shards| && !f.present[i] :: f.shards[i] == Zeros(SHARD_SIZE))
  }

  ghost predicate GroupOk(group: Group) {
    && (group.parity0.Some? ==> |group.parity0.value| == SHARD_SIZE)
    && (group.parity1.Some? ==> |group.parity1.value| == SHARD_SIZE)
  }

  predicate Complete(f: Frame) { f.received == |f.shards| }

  /** The freshly allocated slot for a datagram's frame. */
  function NewFrame(p: Packet, now: uint64): Frame {
    var shards := ShardCount(p.frameSize);
    Frame(p.session, p.frame, p.frameSize, p.timestamp, p.keyframe, now, 0,
          seq(shards, _ => Zeros(SHARD_SIZE)), seq(shards, _ => false), seq(GroupCount(shards), _ => Group(None, None)))
  }

  function StoreData(f: Frame, index: nat, payload: seq<byte>): Frame
    requires index < |f.shards| == |f.present| && |payload| <= |f.shards[index]|
  {
    if f.present[index] then f
    else f.(shards := f.shards[index := payload + f.shards[index][|payload|..]],
            present := f.present[index := true],
            received := f.received + 1)
  }

  function StoreParity(f: Frame, g: nat, k: nat, payload: seq<byte>): (r: Frame)
    requires g < |f.groups|
    ensures |r.groups| == |f.groups| && r.shards == f.shards && r.present == f.present
  {
    var group := f.groups[g];
    if k == 0 then (if group.parity0.Some? then f else f.(groups := f.groups[g := group.(parity0 := Some(payload))]))
    else (if group.parity1.Some? then f else f.(groups := f.groups[g := group.(parity1 := Some(payload))]))
  }

  /** recover_group: the frame after it, and the number of shards it recovered. */
  function RecoverGroup(f: Frame, g: nat): (Frame, nat)
    requires FrameOk(f) && g < |f.groups|
  {
    var first := g * DATA_SHARDS;
    var last := first + GroupSize(|f.shards|, g);
    var present := f.present[first..last];
    var result := Recover(f.shards[first..last], present, SHARD_SIZE, f.groups[g].parity0, f.groups[g].parity1);
    var missing := |Missing(present, |present|)|;
    if missing == 0 || result.None? then (f, 0)
    else (f.(shards := Splice(f.shards, first, result.value),
             present := Splice(f.present, first, Everything(last - first)),
             received := f.received + missing), missing)
  }

  function Splice<T>(s: seq<T>, at: nat, piece: seq<T>): (r: seq<T>)
    requires at + |piece| <= |s|
    ensures |r| == |s|
    ensures forall i | 0 <= i < |s| :: r[i] == if at <= i < at + |piece| then piece[i - at] else s[i]
  {
    s[..at] + piece + s[at + |piece|..]
  }

  /** How a datagram is judged against the frame whose slot was found for it. */
  datatype Ruling = Refuse | Ignore | KeepData(index: nat) | KeepParity(k: nat)

  function Rule(f: Frame, p: Packet): (r: Ruling)
    requires FrameOk(f)
    ensures r.KeepData? || r.KeepParity? ==> p.group < |f.groups|
    ensures r.KeepData? ==> r.index < |f.shards| && |p.payload| <= SHARD_SIZE
    ensures r.KeepParity? ==> r.k < PARITY_SHARDS && |p.payload| == SHARD_SIZE
  {
    if f.size != p.frameSize || f.timestamp != p.timestamp || p.group >= |f.groups| then Refuse
    else if p.dataShards != GroupSize(|f.shards|, p.group) then Refuse
    else if p.shard < p.dataShards then
      var index := p.group * DATA_SHARDS + p.shard;
      if |p.payload| != Min(SHARD_SIZE, f.size - index * SHARD_SIZE) then Refuse else KeepData(index)
    else
      var k := p.shard - p.dataShards;
      if k >= PARITY_SHARDS || |p.payload| != SHARD_SIZE then Ignore else KeepParity(k)
  }

  datatype Verdict = Invalid | Ignored | Stored(frame: Frame, repaired: nat)

  /** What a datagram does to the frame whose slot was found for it. */
  function Store(f: Frame, p: Packet): Verdict
    requires FrameOk(f)
  {
    match Rule(f, p)
    case Refuse => Invalid
    case Ignore => Ignored
    case KeepData(index) => Stored(StoreData(f, index, p.payload), 0)
    case KeepParity(k) =>
      var g := StoreParity(f, p.group, k, p.payload);
      StoreParityOk(f, p.group, k, p.payload);
      var (h, repaired) := RecoverGroup(g, p.group);
      Stored(h, repaired)
  }

  lemma StoreParityOk(f: Frame, g: nat, k: nat, payload: seq<byte>)
    requires FrameOk(f) && g < |f.groups| && |payload| == SHARD_SIZE
    ensures FrameOk(StoreParity(f, g, k, payload))
  {}

  // ---------- accept_datagram ----------

  /** The slot that holds a frame, or the end. */
  function FindFrame(slots: seq<Option<Frame>>, session: uint32, id: int, i: nat): (k: nat)
    requires i <= |slots|
    ensures i <= k <= |slots|
    decreases |slots| - i
  {
    if i == |slots| then i
    else if slots[i].Some? && slots[i].value.session == session && slots[i].value.id == id then i
    else FindFrame(slots, session, id, i + 1)
  }

  /** The first free slot, or the end. */
  function FindFree(slots: seq<Option<Frame>>, i: nat): (k: nat)
    requires i <= |slots|
    ensures i <= k <= |slots|
    ensures k < |slots| ==> slots[k].None?
    decreases |slots| - i
  {
    if i == |slots| || slots[i].None? then i else FindFree(slots, i + 1)
  }

  function NoFrames(n: nat): seq<Option<Frame>> { seq(n, _ => None) }

  /** The effect of a datagram's session: a change drops everything, the first one asks for a keyframe. */
  function Enter(s: Pipe, session: uint32): Pipe {
    var t :=
      if s.session != 0 && s.session != session then
        s.(slots := NoFrames(|s.slots|), haveNewest := false, haveNext := false,
           needKeyframe := true, discontinuity := true, decoderReset := true)
      else if s.session == 0 then s.(needKeyframe := true, discontinuity := true)
      else s;
    t.(session := session)
  }

  ghost predicate SlotsOk(s: Pipe) {
    |s.slots| == FRAME_SLOTS && forall i | 0 <= i < |s.slots| && s.slots[i].Some? :: FrameOk(s.slots[i].value)
  }

  function Accept(n: Numbering, s: Pipe, p: Packet, now: uint64): Pipe
    requires SlotsOk(s) && Decoded(p)
  {
    var t := Enter(s, p.session);
    if t.haveNext && Newer(n, t.next, p.frame) then t
    else
      var u := if t.haveNext then t else t.(next := p.frame, nextWait := now, haveNext := true);
      Place(n, u, p, now)
  }

  /** The slot a datagram is stored through: its frame's, else the first free one. */
  function SlotFor(s: Pipe, p: Packet): (k: nat)
    ensures k <= |s.slots|
  {
    var k := FindFrame(s.slots, p.session, p.frame, 0);
    if k < |s.slots| then k else FindFree(s.slots, 0)
  }

  function Place(n: Numbering, s: Pipe, p: Packet, now: uint64): Pipe
    requires SlotsOk(s) && Decoded(p)
  {
    var k := SlotFor(s, p);
    if k == |s.slots| then s.(invalid := s.invalid + 1)
    else
      var f := Before(s, k, p, now);
      Put(n, s, k, f, Store(f, p), p.frame)
  }

  /** The frame a datagram is stored through: the one in its slot, or a new one. */
  function Before(s: Pipe, k: nat, p: Packet, now: uint64): (f: Frame)
    requires SlotsOk(s) && Decoded(p) && k < |s.slots|
    ensures FrameOk(f)
  {
    NewFrameOk(p, now);
    if s.slots[k].Some? then s.slots[k].value else NewFrame(p, now)
  }

  function Put(n: Numbering, s: Pipe, k: nat, f: Frame, verdict: Verdict, id: int): Pipe
    requires k < |s.slots|
  {
    match verdict
    case Invalid => s.(slots := s.slots[k := Some(f)], invalid := s.invalid + 1)
    case Ignored => s.(slots := s.slots[k := Some(f)])
    case Stored(g, repaired) =>
      var latest := !s.haveNewest || Newer(n, id, s.newest);
      s.(slots := s.slots[k := Some(g)], recovered := s.recovered + repaired,
         newest := if latest then id else s.newest, haveNewest := true)
  }

  lemma NewFrameOk(p: Packet, now: uint64)
    requires Decoded(p)
    ensures FrameOk(NewFrame(p, now))
  {
    NothingCounted(ShardCount(p.frameSize));
  }

  lemma {:induction false} NothingCounted(n: nat)
    ensures Counted(seq(n, _ => false)) == 0
  {
    if n != 0 {
      NothingCounted(n - 1);
      assert seq(n, _ => false)[..n - 1] == seq(n - 1, _ => false);
    }
  }

  // ---------- ready_frame and the read that follows it ----------

  function FindNext(slots: seq<Option<Frame>>, id: int, i: nat): (k: nat)
    requires i <= |slots|
    ensures i <= k <= |slots|
    ensures k < |slots| ==> slots[k].Some? && slots[k].value.id == id
    decreases |slots| - i
  {
    if i == |slots| then i
    else if slots[i].Some? && slots[i].value.id == id then i
    else FindNext(slots, id, i + 1)
  }

  function Elapsed(now: uint64, since: uint64): uint64 { (now - since) % TWO_TO_64 }

  function Occupied(slots: seq<Option<Frame>>): nat {
    if slots == [] then 0
    else Occupied(slots[..|slots| - 1]) + if slots[|slots| - 1].Some? then 1 else 0
  }

  /** Frees the slots that are older than the resume point. */
  function DropBefore(n: Numbering, slots: seq<Option<Frame>>, resume: int): seq<Option<Frame>> {
    seq(|slots|, i requires 0 <= i < |slots| =>
      if slots[i].Some? && Newer(n, resume, slots[i].value.id) then None else slots[i])
  }

  /** A complete frame that must be discarded because the decoder waits for a keyframe. */
  predicate Unusable(s: Pipe, k: nat) requires k < |s.slots| && s.slots[k].Some? {
    s.needKeyframe && !s.slots[k].value.keyframe
  }

  function Discard(n: Numbering, s: Pipe, k: nat, now: uint64): Pipe requires k < |s.slots| {
    s.(slots := s.slots[k := None], next := Plus(n, s.next, 1), nextWait := now)
  }

  function Take(n: Numbering, s: Pipe, now: uint64): Pipe {
    s.(needKeyframe := false, next := Plus(n, s.next, 1), nextWait := now)
  }

  /** The deadline of the frame that delivery waits for has passed and a newer one exists. */
  predicate Late(n: Numbering, s: Pipe, k: nat, now: uint64)
    requires k <= |s.slots| && (k < |s.slots| ==> s.slots[k].Some?)
  {
    && s.haveNewest && Newer(n, s.newest, s.next)
    && Elapsed(now, if k < |s.slots| then s.slots[k].value.firstPacket else s.nextWait) >= FRAME_DEADLINE_US
  }

  function Skip(n: Numbering, s: Pipe, now: uint64): Pipe {
    s.(slots := DropBefore(n, s.slots, s.newest), expired := s.expired + Skipped(n, s),
       next := s.newest, nextWait := now, needKeyframe := true, discontinuity := true)
  }

  function Skipped(n: Numbering, s: Pipe): nat {
    var ahead := Ahead(n, s.next, s.newest);
    if ahead <= 0 then 1 else ahead
  }

  /** What one turn of the loop in ready_frame decides. */
  datatype Turn = Waits | Takes(slot: nat) | Discards(slot: nat) | Skips

  function TurnOf(n: Numbering, s: Pipe, now: uint64): (turn: Turn)
    ensures turn.Takes? || turn.Discards? ==>
      turn.slot < |s.slots| && s.slots[turn.slot].Some? && Complete(s.slots[turn.slot].value) &&
      s.slots[turn.slot].value.id == s.next
    ensures turn.Skips? ==> s.haveNewest && Newer(n, s.newest, s.next)
    ensures !turn.Waits? ==> s.haveNext
  {
    if !s.haveNext then Waits
    else
      var k := FindNext(s.slots, s.next, 0);
      if k < |s.slots| && Complete(s.slots[k].value) then
        if Unusable(s, k) then Discards(k) else Takes(k)
      else if Late(n, s, k, now) then Skips
      else Waits
  }

  /** ready_frame: the state after it, and the slot to deliver if there is one. */
  function Ready(n: Numbering, s: Pipe, now: uint64): (r: (Pipe, Option<nat>))
    ensures |r.0.slots| == |s.slots|
    ensures r.1.Some? ==> r.1.value < |r.0.slots| && r.0.slots[r.1.value].Some? && Complete(r.0.slots[r.1.value].value)
    decreases Occupied(s.slots), if Newer(n, s.newest, s.next) then 1 else 0
  {
    var turn := TurnOf(n, s, now);
    if turn.Waits? then (s, None)
    else if turn.Takes? then (Take(n, s, now), Some(turn.slot))
    else if turn.Discards? then
      OccupiedFreed(s.slots, turn.slot);
      Ready(n, Discard(n, s, turn.slot, now), now)
    else
      OccupiedDropped(n, s.slots, s.newest);
      Ready(n, Skip(n, s, now), now)
  }

  lemma {:induction false} OccupiedFreed(slots: seq<Option<Frame>>, k: nat)
    requires k < |slots| && slots[k].Some?
    ensures Occupied(slots[k := None]) == Occupied(slots) - 1
    decreases |slots|
  {
    var m := |slots| - 1;
    if k < m {
      OccupiedFreed(slots[..m], k);
      assert slots[k := None][..m] == slots[..m][k := None];
    } else {
      assert slots[k := None][..m] == slots[..m];
    }
  }

  lemma {:induction false} OccupiedDropped(n: Numbering, slots: seq<Option<Frame>>, resume: int)
    ensures Occupied(DropBefore(n, slots, resume)) <= Occupied(slots)
  {
    if slots != [] {
      var m := |slots| - 1;
      OccupiedDropped(n, slots[..m], resume);
      assert DropBefore(n, slots, resume)[..m] == DropBefore(n, slots[..m], resume);
    }
  }

  datatype Delivery = Delivery(session: uint32, id: int, timestamp: uint64, keyframe: bool, bytes: seq<byte>)

  function Flatten(shards: seq<Shard>): seq<byte> {
    if shards == [] then [] else Flatten(shards[..|shards| - 1]) + shards[|shards| - 1]
  }

  function Contents(f: Frame): seq<byte> {
    var all := Flatten(f.shards);
    if f.size <= |all| then all[..f.size] else all
  }

  /** The packet svrt_pipe_read fills from a complete frame. */
  function Deliver(f: Frame): Delivery {
    Delivery(f.session, f.id, f.timestamp, f.keyframe, Contents(f))
  }

  /** One poll by svrt_pipe_read: the frame that is ready, if any, is copied out and its slot freed. */
  function Read(n: Numbering, s: Pipe, now: uint64): (Pipe, Option<Delivery>) {
    var (t, slot) := Ready(n, s, now);
    match slot
    case None => (t, None)
    case Some(k) => (t.(slots := t.slots[k := None]), Some(Deliver(t.slots[k].value)))
  }

  // ---------- Runs ----------

  /** What reaches the receiver: a datagram it cannot decode, one it can, or the tick of its read loop. */
  datatype Event = Garbage | Arrive(packet: Packet, at: uint64) | Poll(at: uint64)

  ghost predicate EventOk(n: Numbering, e: Event) {
    e.Arrive? ==> Decoded(e.packet) && IsId(n, e.packet.frame)
  }

  function EventOf(datagram: seq<byte>, now: uint64): Event {
    match FromWire(datagram)
    case None => Garbage
    case Some(p) => Arrive(p, now)
  }

  function Step(n: Numbering, s: Pipe, e: Event): (Pipe, Option<Delivery>)
    requires SlotsOk(s) && EventOk(n, e)
  {
    match e
    case Garbage => (s.(invalid := s.invalid + 1), None)
    case Arrive(p, now) => (Accept(n, s, p, now), None)
    case Poll(now) => Read(n, s, now)
  }
}
