/** The sending half of PacketizerThread: access units in, datagrams out. */
module Sender {
  import opened Wrappers
  import opened Field
  import opened Fec
  import opened Wire
  import opened Reassembly
  import opened ReassemblyInvariant
  import opened Integrity
  import opened Splitter
  import opened Buffers

  // ---------- The datagrams of a frame ----------

  function Flags(sent: Sent, parity: bool): uint16 {
    (if sent.keyframe then 1 else 0) + (if parity then 2 else 0)
  }

  /** The header of shard i of group g. */
  function InfoOf(session: uint32, id: uint32, sent: Sent, g: nat, i: nat): VideoInfo
    requires Sendable(sent)
    requires g < GroupCount(ShardCount(|sent.bytes|)) && i < GroupSize(ShardCount(|sent.bytes|), g) + PARITY_SHARDS
  {
    var count := GroupSize(ShardCount(|sent.bytes|), g);
    VideoInfo(Flags(sent, i >= count), session, id, sent.timestamp, |sent.bytes|, g, i, count, PARITY_SHARDS,
              |PacketOf(session, id, sent, g, i).payload|)
  }

  /** The datagram of shard i of group g. */
  function DatagramOf(session: uint32, id: uint32, sent: Sent, g: nat, i: nat): seq<byte>
    requires session != 0 && Sendable(sent)
    requires g < GroupCount(ShardCount(|sent.bytes|)) && i < GroupSize(ShardCount(|sent.bytes|), g) + PARITY_SHARDS
  {
    InfoIsSound(session, id, sent, g, i);
    Encode(InfoOf(session, id, sent, g, i)).value + PacketOf(session, id, sent, g, i).payload
  }

  lemma InfoIsSound(session: uint32, id: uint32, sent: Sent, g: nat, i: nat)
    requires session != 0 && Sendable(sent)
    requires g < GroupCount(ShardCount(|sent.bytes|)) && i < GroupSize(ShardCount(|sent.bytes|), g) + PARITY_SHARDS
    ensures Encode(InfoOf(session, id, sent, g, i)).Some?
  {}

  /**
   * Sender and receiver agree: every datagram of a frame of 1 byte to 8 MiB fits the datagram
   * size, its group number fits 16 bits, and the receiver decodes it to the packet it carries.
   */
  lemma DatagramAgrees(session: uint32, id: uint32, sent: Sent, g: nat, i: nat)
    requires session != 0 && Sendable(sent)
    requires g < GroupCount(ShardCount(|sent.bytes|)) && i < GroupSize(ShardCount(|sent.bytes|), g) + PARITY_SHARDS
    ensures g < 0x1_0000 && |DatagramOf(session, id, sent, g, i)| <= DATAGRAM_SIZE
    ensures FromWire(DatagramOf(session, id, sent, g, i)) == Some(PacketOf(session, id, sent, g, i))
  {
    hide Encode, Decode, Parity, GroupOf;
    var info, p := InfoOf(session, id, sent, g, i), PacketOf(session, id, sent, g, i);
    InfoIsSound(session, id, sent, g, i);
    EncodeThenDecode(info, p.payload);
    assert DatagramOf(session, id, sent, g, i)[HEADER_SIZE..] == p.payload;
  }

  /** The header marks keyframes with its first flag and parity shards with its second, and announces two of these. */
  lemma DatagramMarks(session: uint32, id: uint32, sent: Sent, g: nat, i: nat)
    requires session != 0 && Sendable(sent)
    requires g < GroupCount(ShardCount(|sent.bytes|)) && i < GroupSize(ShardCount(|sent.bytes|), g) + PARITY_SHARDS
    ensures
      var info := Decode(DatagramOf(session, id, sent, g, i));
      && info.Some? && info.value.parityShards == 2 && info.value.flags < 4
      && (info.value.flags % 2 == 1 <==> sent.keyframe)
      && (info.value.flags / 2 == 1 <==> i >= info.value.dataShards)
  {
    hide Encode, Decode, Parity, GroupOf, PayloadOf;
    InfoIsSound(session, id, sent, g, i);
    EncodeThenDecode(InfoOf(session, id, sent, g, i), PacketOf(session, id, sent, g, i).payload);
  }

  /** The first n datagrams of a group. */
  function GroupWire(session: uint32, id: uint32, sent: Sent, g: nat, n: nat): (wire: seq<seq<byte>>)
    requires session != 0 && Sendable(sent)
    requires g < GroupCount(ShardCount(|sent.bytes|)) && n <= GroupSize(ShardCount(|sent.bytes|), g) + PARITY_SHARDS
    ensures |wire| == n && forall i | 0 <= i < n :: wire[i] == DatagramOf(session, id, sent, g, i)
  {
    seq(n, i requires 0 <= i < n => DatagramOf(session, id, sent, g, i))
  }

  /** The datagrams of the first n groups, in the order of emission. */
  function FrameWire(session: uint32, id: uint32, sent: Sent, n: nat): seq<seq<byte>>
    requires session != 0 && Sendable(sent) && n <= GroupCount(ShardCount(|sent.bytes|))
  {
    if n == 0 then []
    else FrameWire(session, id, sent, n - 1)
         + GroupWire(session, id, sent, n - 1, GroupSize(ShardCount(|sent.bytes|), n - 1) + PARITY_SHARDS)
  }

  function Wired(session: uint32, id: uint32, sent: Sent): seq<seq<byte>>
    requires session != 0 && Sendable(sent)
  {
    FrameWire(session, id, sent, GroupCount(ShardCount(|sent.bytes|)))
  }

  ghost predicate IsShard(session: uint32, id: uint32, sent: Sent, bytes: seq<byte>, g: nat, i: nat)
    requires session != 0 && Sendable(sent)
  {
    && g < GroupCount(ShardCount(|sent.bytes|)) && i < GroupSize(ShardCount(|sent.bytes|), g) + PARITY_SHARDS
    && bytes == DatagramOf(session, id, sent, g, i)
  }

  lemma {:induction false} FrameWireIs(session: uint32, id: uint32, sent: Sent, n: nat, bytes: seq<byte>)
    requires session != 0 && Sendable(sent) && n <= GroupCount(ShardCount(|sent.bytes|))
    ensures bytes in FrameWire(session, id, sent, n) <==>
            exists g: nat, i: nat :: g < n && IsShard(session, id, sent, bytes, g, i)
  {
    hide DatagramOf, GroupCount, GroupSize, ShardCount;
    if n != 0 {
      var g := n - 1;
      FrameWireIs(session, id, sent, g, bytes);
      var wire := GroupWire(session, id, sent, g, GroupSize(ShardCount(|sent.bytes|), g) + PARITY_SHARDS);
      if bytes in wire {
        var i :| 0 <= i < |wire| && wire[i] == bytes;
        assert IsShard(session, id, sent, bytes, g, i);
      }
      if i: nat :| IsShard(session, id, sent, bytes, g, i) { assert wire[i] == bytes; }
    }
  }

  /** The datagrams of a frame are those of all its shards. */
  lemma WiredIsDatagrams(session: uint32, id: uint32, sent: Sent, bytes: seq<byte>)
    requires session != 0 && Sendable(sent)
    ensures bytes in Wired(session, id, sent) <==>
            exists g: nat, i: nat :: IsShard(session, id, sent, bytes, g, i)
  {
    hide FrameWire, DatagramOf;
    FrameWireIs(session, id, sent, GroupCount(ShardCount(|sent.bytes|)), bytes);
  }

  lemma FullGroup(shards: nat, g: nat)
    requires g < GroupCount(shards)
    ensures g + 1 < GroupCount(shards) ==> GroupSize(shards, g) == 10
    ensures g + 1 == GroupCount(shards) ==> 10 * g + GroupSize(shards, g) == shards
  {}

  lemma {:induction false} FrameWireLength(session: uint32, id: uint32, sent: Sent, n: nat)
    requires session != 0 && Sendable(sent) && n <= GroupCount(ShardCount(|sent.bytes|))
    ensures
      var shards := ShardCount(|sent.bytes|);
      |FrameWire(session, id, sent, n)| == if n < GroupCount(shards) then 12 * n else shards + 2 * n
  {
    hide DatagramOf, GroupCount, GroupSize, ShardCount;
    NoGroups(ShardCount(|sent.bytes|));
    if n > 0 {
      FrameWireLength(session, id, sent, n - 1);
      FullGroup(ShardCount(|sent.bytes|), n - 1);
    }
  }

  lemma {:induction false} FrameWireAt(session: uint32, id: uint32, sent: Sent, n: nat, g: nat, i: nat)
    requires session != 0 && Sendable(sent) && g < n <= GroupCount(ShardCount(|sent.bytes|))
    requires i < GroupSize(ShardCount(|sent.bytes|), g) + PARITY_SHARDS
    ensures
      var wire := FrameWire(session, id, sent, n);
      12 * g + i < |wire| && wire[12 * g + i] == DatagramOf(session, id, sent, g, i)
  {
    hide DatagramOf, GroupCount, GroupSize, ShardCount;
    FrameWireLength(session, id, sent, n - 1);
    if g < n - 1 { FrameWireAt(session, id, sent, n - 1, g, i); }
  }

  lemma NoGroups(shards: nat)
    ensures GroupCount(shards) == 0 <==> shards == 0
  {}

  /** In the order of emission: group by group, in each its data shards and then the two parity shards. */
  lemma WiredInOrder(session: uint32, id: uint32, sent: Sent, g: nat, i: nat)
    requires session != 0 && Sendable(sent)
    requires g < GroupCount(ShardCount(|sent.bytes|)) && i < GroupSize(ShardCount(|sent.bytes|), g) + PARITY_SHARDS
    ensures
      var wire := Wired(session, id, sent);
      && |wire| == ShardCount(|sent.bytes|) + 2 * GroupCount(ShardCount(|sent.bytes|))
      && 12 * g + i < |wire| && wire[12 * g + i] == DatagramOf(session, id, sent, g, i)
  {
    hide FrameWire, DatagramOf, GroupCount, GroupSize, ShardCount;
    FrameWireLength(session, id, sent, GroupCount(ShardCount(|sent.bytes|)));
    FrameWireAt(session, id, sent, GroupCount(ShardCount(|sent.bytes|)), g, i);
  }

  // ---------- The loops that emit them ----------

  ghost function SentOf(bytes: seq<byte>, timestamp: uint64): Sent {
    Sent(bytes, timestamp, HasKeyNal(bytes))
  }

  /** The storage of one group of the sender: consecutive shards of a zeroed buffer. */
  function Rows(count: nat): (t: seq<nat>)
    ensures |t| == count && forall i | 0 <= i < count :: t[i] == i * SHARD_SIZE
  {
    seq(count, i requires 0 <= i < count => i * SHARD_SIZE)
  }

  /** The first n shards of group g are in place and the rest of the storage is still zero. */
  ghost predicate Filled(storage: seq<byte>, bytes: seq<byte>, g: nat, n: nat)
    requires g < GroupCount(ShardCount(|bytes|)) && n <= GroupSize(ShardCount(|bytes|), g)
  {
    && |storage| == DATA_SHARDS * SHARD_SIZE
    && (forall i | 0 <= i < n :: storage[i * SHARD_SIZE..(i + 1) * SHARD_SIZE] == GroupOf(bytes, g)[i])
    && (forall k | n * SHARD_SIZE <= k < |storage| :: storage[k] == 0)
  }

  lemma FillRow(before: seq<byte>, after: seq<byte>, bytes: seq<byte>, g: nat, n: nat)
    requires g < GroupCount(ShardCount(|bytes|)) && n < GroupSize(ShardCount(|bytes|), g) <= DATA_SHARDS
    requires Filled(before, bytes, g, n) && g * DATA_SHARDS + n < ShardCount(|bytes|)
    requires Written(before, after, n * SHARD_SIZE, PayloadOf(bytes, g * DATA_SHARDS + n))
    ensures Filled(after, bytes, g, n + 1)
  {
    hide GroupOf, PayloadOf;
    var payload := PayloadOf(bytes, g * DATA_SHARDS + n);
    forall i | 0 <= i < n + 1 ensures after[i * SHARD_SIZE..(i + 1) * SHARD_SIZE] == GroupOf(bytes, g)[i] {
      GroupRow(bytes, g, n);
      if i < n {
        assert after[i * SHARD_SIZE..(i + 1) * SHARD_SIZE] == before[i * SHARD_SIZE..(i + 1) * SHARD_SIZE];
      } else {
        assert after[n * SHARD_SIZE..(n + 1) * SHARD_SIZE] == payload + Zeros(SHARD_SIZE - |payload|);
      }
    }
  }

  lemma GroupRow(bytes: seq<byte>, g: nat, n: nat)
    requires g < GroupCount(ShardCount(|bytes|)) && n < GroupSize(ShardCount(|bytes|), g)
    ensures g * DATA_SHARDS + n < ShardCount(|bytes|)
    ensures GroupOf(bytes, g)[n] ==
      PayloadOf(bytes, g * DATA_SHARDS + n) + Zeros(SHARD_SIZE - |PayloadOf(bytes, g * DATA_SHARDS + n)|)
  {
    GroupBounds(ShardCount(|bytes|), g);
  }

  lemma FilledIsGroup(storage: seq<byte>, bytes: seq<byte>, g: nat)
    requires g < GroupCount(ShardCount(|bytes|))
    requires Filled(storage, bytes, g, GroupSize(ShardCount(|bytes|), g))
    requires GroupSize(ShardCount(|bytes|), g) <= DATA_SHARDS
    ensures ShardsAt(storage, Rows(GroupSize(ShardCount(|bytes|), g)), SHARD_SIZE) == GroupOf(bytes, g)
  {
    hide GroupOf;
  }

  ghost predicate AllSendable(frames: seq<Sent>) {
    forall i | 0 <= i < |frames| :: Sendable(frames[i])
  }

  /** Everything a session has sent: its frames are numbered from 1, modulo 2^32. */
  ghost function SessionWire(session: uint32, frames: seq<Sent>): seq<seq<byte>>
    requires session != 0 && AllSendable(frames)
  {
    if frames == [] then []
    else
      var m := |frames| - 1;
      SessionWire(session, frames[..m]) + Wired(session, |frames| % 0x1_0000_0000, frames[m])
  }

  lemma SessionWireNext(session: uint32, frames: seq<Sent>, sent: Sent)
    requires session != 0 && AllSendable(frames) && Sendable(sent)
    ensures AllSendable(frames + [sent])
    ensures SessionWire(session, frames + [sent]) ==
            SessionWire(session, frames) + Wired(session, (|frames| + 1) % 0x1_0000_0000, sent)
  {
    assert (frames + [sent])[..|frames|] == frames;
  }

  /** Frame by frame: behind the datagrams of the first k frames go out those of the next, under its number. */
  lemma {:induction false} SessionWireInOrder(session: uint32, frames: seq<Sent>, k: nat)
    requires session != 0 && AllSendable(frames) && k < |frames|
    ensures
      var wire := SessionWire(session, frames[..k]) + Wired(session, (k + 1) % 0x1_0000_0000, frames[k]);
      wire <= SessionWire(session, frames)
    decreases |frames|
  {
    hide Wired;
    var m := |frames| - 1;
    if k < m {
      SessionWireInOrder(session, frames[..m], k);
      assert frames[..m][..k] == frames[..k];
    }
  }

  /** Frames with the time at which each was handed to send_frame. */
  ghost function Stamped(units: seq<seq<byte>>, k: nat, clock: nat -> uint64): (frames: seq<Sent>)
    ensures |frames| == |units|
    ensures forall i | 0 <= i < |units| :: frames[i] == SentOf(units[i], clock(k + i))
  {
    seq(|units|, i requires 0 <= i < |units| => SentOf(units[i], clock(k + i)))
  }

  lemma StampedSum(a: seq<seq<byte>>, b: seq<seq<byte>>, k: nat, clock: nat -> uint64)
    ensures Stamped(a + b, k, clock) == Stamped(a, k, clock) + Stamped(b, k + |a|, clock)
  {}

  /** The sender of one session: its frame counter, and the datagrams handed to the socket. */
  class Packetizer {
    const session: uint32
    var encodedFrame: uint32
    var wire: seq<seq<byte>>
    ghost var frames: seq<Sent>

    /** The wire carries exactly the session's frames so far. */
    ghost predicate Valid()
      reads this
    {
      && session != 0 && AllSendable(frames)
      && encodedFrame == |frames| % 0x1_0000_0000 && wire == SessionWire(session, frames)
    }

    constructor (session: uint32)
      requires session != 0
      ensures Valid() && this.session == session && frames == []
    {
      this.session, encodedFrame, wire, frames := session, 0, [], [];
    }

    /** The header, the payload behind it, and the datagram to the socket. */
    method SendPacket(info: VideoInfo, payload: seq<byte>, ghost sent: Sent, ghost id: uint32, ghost g: nat,
        ghost i: nat)
      requires session != 0 && Sendable(sent)
      requires g < GroupCount(ShardCount(|sent.bytes|)) && i < GroupSize(ShardCount(|sent.bytes|), g) + PARITY_SHARDS
      requires info == InfoOf(session, id, sent, g, i) && payload == PacketOf(session, id, sent, g, i).payload
      modifies this`wire
      ensures wire == old(wire) + [DatagramOf(session, id, sent, g, i)]
    {
      InfoIsSound(session, id, sent, g, i);
      var header := Encode(info);
      wire := wire + [header.value + payload];
    }

    /** The data shards of a group, kept in zeroed storage on the way. */
    method SendData(bytes: seq<byte>, timestamp: uint64, flags: uint16, id: uint32, g: nat, count: nat,
        ghost sent: Sent)
      returns (storage: array<byte>)
      requires session != 0 && Sendable(sent) && sent.bytes == bytes && sent.timestamp == timestamp
      requires flags == Flags(sent, false) && g < GroupCount(ShardCount(|bytes|))
      requires count == GroupSize(ShardCount(|bytes|), g)
      modifies this`wire
      ensures fresh(storage) && Filled(storage[..], bytes, g, count)
      ensures wire == old(wire) + GroupWire(session, id, sent, g, count)
    {
      hide DatagramOf, GroupWire, GroupOf, Parity, Filled, PayloadOf, Written;
      GroupBounds(ShardCount(|bytes|), g);
      storage := new byte[DATA_SHARDS * SHARD_SIZE](_ => 0);
      EmptyStorage(storage[..], bytes, g);
      for i := 0 to count
        invariant Filled(storage[..], bytes, g, i)
        invariant wire == old(wire) + GroupWire(session, id, sent, g, i)
      {
        hide DatagramOf, GroupWire, GroupOf, Parity, Filled, PayloadOf, Written;
        var index := g * DATA_SHARDS + i;
        var offset := index * SHARD_SIZE;
        var size := if |bytes| - offset < SHARD_SIZE then |bytes| - offset else SHARD_SIZE;
        PayloadIs(bytes, index);
        var payload := bytes[offset..offset + size];
        ghost var before := storage[..];
        FilledLength(before, bytes, g, i);
        CopyInto(storage, i * SHARD_SIZE, payload);
        FillRow(before, storage[..], bytes, g, i);
        var info := VideoInfo(flags, session, id, timestamp, |bytes|, g, i, count, PARITY_SHARDS, size);
        SendPacket(info, payload, sent, id, g, i);
      }
    }

    /** The parity shards of a group, from the storage its data shards are in. */
    method SendParity(bytes: seq<byte>, timestamp: uint64, flags: uint16, id: uint32, g: nat, count: nat,
                      storage: array<byte>, ghost sent: Sent, ghost start: seq<seq<byte>>)
      requires session != 0 && Sendable(sent) && sent.bytes == bytes && sent.timestamp == timestamp
      requires flags == Flags(sent, false) && g < GroupCount(ShardCount(|bytes|))
      requires count == GroupSize(ShardCount(|bytes|), g)
      requires Filled(storage[..], bytes, g, count) && wire == start + GroupWire(session, id, sent, g, count)
      modifies this`wire
      ensures wire == start + GroupWire(session, id, sent, g, count + PARITY_SHARDS)
    {
      hide DatagramOf, GroupWire, GroupOf, Parity, Filled, PayloadOf;
      GroupBounds(ShardCount(|bytes|), g);
      FilledLength(storage[..], bytes, g, count);
      FilledIsGroup(storage[..], bytes, g);
      var p0, p1 := new byte[SHARD_SIZE](_ => 0), new byte[SHARD_SIZE](_ => 0);
      EncodeParity(storage, Rows(count), SHARD_SIZE, p0, p1);
      var parity := [p0[..SHARD_SIZE], p1[..SHARD_SIZE]];
      for p := 0 to PARITY_SHARDS
        invariant wire == start + GroupWire(session, id, sent, g, count + p)
      {
        hide DatagramOf, GroupWire, GroupOf, Parity, Filled, PayloadOf;
        var info := VideoInfo(flags + 2, session, id, timestamp, |bytes|, g, count + p, count, PARITY_SHARDS,
          SHARD_SIZE);
        SendPacket(info, parity[p], sent, id, g, count + p);
      }
    }

    /** The body of the group loop in send_frame. */
    method SendGroup(bytes: seq<byte>, timestamp: uint64, flags: uint16, id: uint32, g: nat, shards: nat,
        ghost sent: Sent)
      requires session != 0 && Sendable(sent) && sent.bytes == bytes && sent.timestamp == timestamp
      requires flags == Flags(sent, false) && shards == ShardCount(|bytes|) && g < GroupCount(shards)
      modifies this`wire
      ensures wire == old(wire) + GroupWire(session, id, sent, g, GroupSize(shards, g) + PARITY_SHARDS)
    {
      hide GroupWire, Filled;
      var first := g * DATA_SHARDS;
      var count := if shards - first < DATA_SHARDS then shards - first else DATA_SHARDS;
      ghost var start := wire;
      var storage := SendData(bytes, timestamp, flags, id, g, count, sent);
      SendParity(bytes, timestamp, flags, id, g, count, storage, sent, start);
    }

    /** The group loop of send_frame. */
    method SendGroups(bytes: seq<byte>, timestamp: uint64, flags: uint16, id: uint32, ghost sent: Sent)
      requires session != 0 && Sendable(sent) && sent.bytes == bytes && sent.timestamp == timestamp
      requires flags == Flags(sent, false)
      modifies this`wire
      ensures wire == old(wire) + Wired(session, id, sent)
    {
      hide GroupWire, FrameWire, Flags, GroupSize;
      var shards := (|bytes| + SHARD_SIZE - 1) / SHARD_SIZE;
      var group, first := 0, 0;
      FrameWireNone(session, id, sent);
      while first < shards
        invariant first == group * DATA_SHARDS && group <= GroupCount(shards)
        invariant wire == old(wire) + FrameWire(session, id, sent, group)
      {
        hide GroupWire, FrameWire, Flags, GroupSize;
        SendGroup(bytes, timestamp, flags, id, group, shards, sent);
        FrameWireMore(session, id, sent, group);
        group, first := group + 1, first + DATA_SHARDS;
      }
    }

    /** send_frame */
    method SendFrame(bytes: seq<byte>, timestamp: uint64) returns (ok: bool)
      requires Valid()
      modifies this
      ensures Valid() && ok == (0 < |bytes| <= MAX_FRAME_SIZE)
      ensures frames == if ok then old(frames) + [SentOf(bytes, timestamp)] else old(frames)
    {
      hide Wired, HasKeyNal, SessionWire;
      if |bytes| == 0 || |bytes| > MAX_FRAME_SIZE { return false; }
      encodedFrame := if encodedFrame == 0xffff_ffff then 0 else encodedFrame + 1;
      var key := IsKeyframe(bytes);
      ghost var sent := SentOf(bytes, timestamp);
      SendGroups(bytes, timestamp, if key then 1 else 0, encodedFrame, sent);
      SessionWireNext(session, frames, sent);
      frames := frames + [sent];
      ok := true;
    }

    /**
     * The inner loop of PacketizerThread: sends every access unit that is complete. The count of
     * frames so far picks the time at which the next one is handed to send_frame.
     */
    method Drain(data: seq<byte>, clock: nat -> uint64, k: nat) returns (rest: seq<byte>, count: nat, failed: bool)
      requires Valid() && k == |frames|
      modifies this
      ensures Valid() && count == |frames|
      ensures frames == old(frames) + Stamped(Accepted(Units(data)), k, clock)
      ensures failed == (Accepted(Units(data)) != Units(data))
      ensures !failed ==> rest == Rest(data)
    {
      hide *;
      rest, count := data, k;
      ghost var done: seq<seq<byte>> := [];
      DrainStarts(data);
      while true
        invariant Valid() && count == |frames| == k + |done|
        invariant frames == old(frames) + Stamped(done, k, clock) && Drained(data, done, rest)
        decreases |rest|
      {
        hide *;
        var cut := FindCut(rest);
        DrainMoves(data, done, rest);
        if cut == |rest| { return rest, count, false; }
        var ok := SendFrame(rest[..cut], clock(count));
        if !ok { return rest, count, true; }
        StampedAppend(done, rest[..cut], k, clock);
        done := done + [rest[..cut]];
        rest, count := rest[cut..], count + 1;
      }
    }

    /** PacketizerThread, from the chunks it reads to the frames it hands to send_frame. */
    method Run(chunks: seq<seq<byte>>, clock: nat -> uint64) returns (failed: bool)
      requires Valid() && frames == []
      modifies this
      ensures Valid()
      ensures frames == Stamped(Process([], chunks).frames, 0, clock)
      ensures failed == Process([], chunks).failed
    {
      hide *;
      var encoded: seq<byte>, count, read := [], 0, 0;
      ghost var done: seq<seq<byte>> := [];
      ProgressStarts(chunks);
      while read < |chunks|
        invariant Valid() && read <= |chunks| && count == |frames| == |done| && |encoded| <= MAX_FRAME_SIZE
        invariant frames == Stamped(done, 0, clock) && Progress(chunks, done, encoded, read)
      {
        hide *;
        var data := encoded + chunks[read];
        ProgressMoves(chunks, done, encoded, read);
        StampedSum(done, Accepted(Units(data)), 0, clock);
        encoded, count, failed := Drain(data, clock, count);
        if failed { return; }
        done := done + Units(data);
        if |encoded| > MAX_FRAME_SIZE { return true; }
        read := read + 1;
      }
      ProgressEnds(chunks, done, encoded, read);
      failed := false;
      if encoded != [] {
        var ok := SendFrame(encoded, clock(count));
        StampedAppend(done, encoded, 0, clock);
      }
    }
  }

  lemma ProcessUnfolds(pending: seq<byte>, chunks: seq<seq<byte>>, read: nat)
    requires read <= |chunks|
    ensures
      Process(pending, chunks[read..]) ==
        if read == |chunks| then Packetized(if pending == [] then [] else [pending], false)
        else
          var data := pending + chunks[read];
          var units := Units(data);
          if Accepted(units) != units then Packetized(Accepted(units), true)
          else if |Rest(data)| > MAX_FRAME_SIZE then Packetized(units, true)
          else
            var later := Process(Rest(data), chunks[read + 1..]);
            Packetized(units + later.frames, later.failed)
  {
    hide Units, Rest, Accepted;
    if read < |chunks| { assert chunks[read..][1..] == chunks[read + 1..]; }
  }

  /** The frames handed on so far are those that come before what is pending and still to be read. */
  ghost predicate Progress(chunks: seq<seq<byte>>, done: seq<seq<byte>>, pending: seq<byte>, read: nat) {
    && read <= |chunks|
    && var later := Process(pending, chunks[read..]);
    Process([], chunks) == Packetized(done + later.frames, later.failed)
  }

  lemma ProgressStarts(chunks: seq<seq<byte>>)
    ensures Progress(chunks, [], [], 0)
  {
    hide Process;
    assert chunks[0..] == chunks && [] + Process([], chunks).frames == Process([], chunks).frames;
  }

  lemma ProgressMoves(chunks: seq<seq<byte>>, done: seq<seq<byte>>, pending: seq<byte>, read: nat)
    requires Progress(chunks, done, pending, read) && read < |chunks|
    ensures
      var data := pending + chunks[read];
      var units := Units(data);
      if Accepted(units) != units then Process([], chunks) == Packetized(done + Accepted(units), true)
      else if |Rest(data)| > MAX_FRAME_SIZE then Process([], chunks) == Packetized(done + units, true)
      else Progress(chunks, done + units, Rest(data), read + 1)
  {
    hide Process, Units, Rest, Accepted;
    ProcessUnfolds(pending, chunks, read);
    var data := pending + chunks[read];
    assert done + (Units(data) + Process(Rest(data), chunks[read + 1..]).frames)
        == (done + Units(data)) + Process(Rest(data), chunks[read + 1..]).frames;
  }

  lemma ProgressEnds(chunks: seq<seq<byte>>, done: seq<seq<byte>>, pending: seq<byte>, read: nat)
    requires Progress(chunks, done, pending, read) && read == |chunks|
    ensures Process([], chunks) == Packetized(if pending == [] then done else done + [pending], false)
  {
    hide Process;
    ProcessUnfolds(pending, chunks, read);
    assert done + [] == done;
  }

  /** Where the loop cuts: at the second of two delimiters. */
  method FindCut(data: seq<byte>) returns (cut: nat)
    ensures cut == Cut(data)
  {
    var first := AudStart(data, 0);
    if first == |data| { return |data|; }
    cut := AudStart(data, first + 4);
  }

  /** The units sent so far are those that come before the rest. */
  ghost predicate Drained(data: seq<byte>, done: seq<seq<byte>>, rest: seq<byte>) {
    && Units(data) == done + Units(rest) && Rest(data) == Rest(rest)
    && Accepted(Units(data)) == done + Accepted(Units(rest))
  }

  lemma DrainStarts(data: seq<byte>)
    ensures Drained(data, [], data)
  {
    hide Units, Accepted, Rest;
    assert [] + Units(data) == Units(data) && [] + Accepted(Units(data)) == Accepted(Units(data));
  }

  /** One turn of the loop: the rest has no whole unit, or its first one is refused, or it is sent. */
  lemma DrainMoves(data: seq<byte>, done: seq<seq<byte>>, rest: seq<byte>)
    requires Drained(data, done, rest)
    ensures
      var cut := Cut(rest);
      && (cut == |rest| ==> Units(data) == done && Accepted(Units(data)) == done && Rest(data) == rest)
      && (cut < |rest| ==> 0 < cut)
      && (cut < |rest| && cut > MAX_FRAME_SIZE ==> Accepted(Units(data)) == done && Units(data) != done)
      && (cut < |rest| && cut <= MAX_FRAME_SIZE ==> Drained(data, done + [rest[..cut]], rest[cut..]))
  {
    hide Cut;
    var cut := Cut(rest);
    if cut == |rest| {
      assert done + [] == done;
    } else {
      var units := Units(rest[cut..]);
      assert Units(rest) == [rest[..cut]] + units;
      assert done + ([rest[..cut]] + units) == (done + [rest[..cut]]) + units;
    }
  }

  lemma StampedAppend(done: seq<seq<byte>>, unit: seq<byte>, k: nat, clock: nat -> uint64)
    ensures Stamped(done + [unit], k, clock) == Stamped(done, k, clock) + [SentOf(unit, clock(k + |done|))]
  {
    StampedSum(done, [unit], k, clock);
  }

  lemma FrameWireNone(session: uint32, id: uint32, sent: Sent)
    requires session != 0 && Sendable(sent)
    ensures FrameWire(session, id, sent, 0) == []
  {}

  lemma FrameWireMore(session: uint32, id: uint32, sent: Sent, g: nat)
    requires session != 0 && Sendable(sent) && g < GroupCount(ShardCount(|sent.bytes|))
    ensures FrameWire(session, id, sent, g + 1) ==
            FrameWire(session, id, sent, g)
              + GroupWire(session, id, sent, g, GroupSize(ShardCount(|sent.bytes|), g) + PARITY_SHARDS)
  {}

  lemma EmptyStorage(storage: seq<byte>, bytes: seq<byte>, g: nat)
    requires g < GroupCount(ShardCount(|bytes|)) && |storage| == DATA_SHARDS * SHARD_SIZE
    requires forall k | 0 <= k < |storage| :: storage[k] == 0
    ensures Filled(storage, bytes, g, 0)
  {}

  lemma FilledLength(storage: seq<byte>, bytes: seq<byte>, g: nat, n: nat)
    requires g < GroupCount(ShardCount(|bytes|)) && n <= GroupSize(ShardCount(|bytes|), g)
    requires Filled(storage, bytes, g, n)
    ensures |storage| == DATA_SHARDS * SHARD_SIZE
  {}

  lemma PayloadIs(bytes: seq<byte>, i: nat)
    requires i < ShardCount(|bytes|)
    ensures
      var offset := i * SHARD_SIZE;
      var size := if |bytes| - offset < SHARD_SIZE then |bytes| - offset else SHARD_SIZE;
      && 0 < size && offset + size <= |bytes| && PayloadOf(bytes, i) == bytes[offset..offset + size]
  {}

}
