/** One reassembly slot of pipe/pipe.c, updated in place. */
module ReceiverSlot {
  import opened Wrappers
  import opened Field
  import opened Fec
  import opened Wire
  import opened Reassembly
  import opened ReassemblyInvariant
  import opened Buffers

  /** The shards in a frame buffer. */
  function Chunks(data: seq<byte>, n: nat): (shards: seq<Shard>)
    requires n * SHARD_SIZE <= |data|
    ensures |shards| == n
    ensures forall i | 0 <= i < n :: shards[i] == data[i * SHARD_SIZE..(i + 1) * SHARD_SIZE]
  {
    seq(n, i requires 0 <= i < n => data[i * SHARD_SIZE..(i + 1) * SHARD_SIZE])
  }

  /** Writing bytes at the start of one shard. */
  lemma WriteChunk(before: seq<byte>, after: seq<byte>, n: nat, index: nat, payload: seq<byte>)
    requires n * SHARD_SIZE == |before| == |after| && index < n && |payload| <= SHARD_SIZE
    requires Written(before, after, index * SHARD_SIZE, payload)
    ensures Chunks(after, n) ==
            Chunks(before, n)[index := payload + Chunks(before, n)[index][|payload|..]]
  {
    var s := Chunks(before, n)[index := payload + Chunks(before, n)[index][|payload|..]];
    forall i | 0 <= i < n ensures Chunks(after, n)[i] == s[i] {
      forall j | 0 <= j < SHARD_SIZE ensures Chunks(after, n)[i][j] == s[i][j] {}
    }
  }

  lemma ZeroChunks(data: seq<byte>, n: nat)
    requires n * SHARD_SIZE == |data| && forall k | 0 <= k < |data| :: data[k] == 0
    ensures forall i | 0 <= i < n :: Chunks(data, n)[i] == Zeros(SHARD_SIZE)
  {}

  /** The addresses of count consecutive shards. */
  function GroupTable(first: nat, count: nat): (t: seq<nat>)
    ensures |t| == count && forall i | 0 <= i < count :: t[i] == (first + i) * SHARD_SIZE
  {
    seq(count, i requires 0 <= i < count => (first + i) * SHARD_SIZE)
  }

  lemma TableChunks(data: seq<byte>, n: nat, first: nat, count: nat)
    requires n * SHARD_SIZE == |data| && first + count <= n
    ensures Table(GroupTable(first, count), SHARD_SIZE, |data|)
    ensures ShardsAt(data, GroupTable(first, count), SHARD_SIZE) == Chunks(data, n)[first..first + count]
  {}

  lemma SpliceChunks(before: seq<byte>, after: seq<byte>, n: nat, first: nat, count: nat, present: seq<bool>)
    requires n * SHARD_SIZE == |before| == |after| && first + count <= n && |present| == count
    requires OnlyRepairs(before, after, GroupTable(first, count), present, SHARD_SIZE)
    ensures
      Chunks(after, n) == Splice(Chunks(before, n), first, Chunks(after, n)[first..first + count])
  {
    var s := Splice(Chunks(before, n), first, Chunks(after, n)[first..first + count]);
    forall i | 0 <= i < n ensures Chunks(after, n)[i] == s[i] {
      if !(first <= i < first + count) {
        forall j | 0 <= j < SHARD_SIZE ensures Chunks(after, n)[i][j] == Chunks(before, n)[i][j] {
          OutsideRepairs(before, after, n, first, count, present, i, j);
        }
        assert Chunks(after, n)[i] == Chunks(before, n)[i];
      }
    }
  }

  /** A byte of a shard outside the group is what it was. */
  lemma OutsideRepairs(before: seq<byte>, after: seq<byte>, n: nat, first: nat, count: nat, present: seq<bool>,
                       i: nat, j: nat)
    requires n * SHARD_SIZE == |before| == |after| && first + count <= n && |present| == count
    requires OnlyRepairs(before, after, GroupTable(first, count), present, SHARD_SIZE)
    requires i < n && !(first <= i < first + count) && j < SHARD_SIZE
    ensures (i + 1) * SHARD_SIZE <= n * SHARD_SIZE && Chunks(after, n)[i][j] == Chunks(before, n)[i][j]
  {
    hide Chunks;
    var data := GroupTable(first, count);
    var p := i * SHARD_SIZE + j;
    forall k | 0 <= k < count && !present[k] ensures !(data[k] <= p < data[k] + SHARD_SIZE) {
      ApartByRows(i, first + k, j);
    }
    assert p < |before|;
    assert after[p] == before[p];
    assert Chunks(after, n)[i][j] == after[p] && Chunks(before, n)[i][j] == before[p];
  }

  lemma ApartByRows(i: nat, k: nat, j: nat)
    requires i != k && j < SHARD_SIZE
    ensures !(k * SHARD_SIZE <= i * SHARD_SIZE + j < k * SHARD_SIZE + SHARD_SIZE)
  {}

  /** struct fec_group: two parity buffers, allocated when they arrive. */
  datatype FecGroup = FecGroup(parity0: array?<byte>, parity1: array?<byte>, present0: bool, present1: bool)

  ghost predicate Holds(buffer: array?<byte>, present: bool, value: Option<Shard>)
    reads buffer
  {
    && present == value.Some?
    && (present <==> buffer != null)
    && (buffer != null ==> buffer.Length == SHARD_SIZE && buffer[..] == value.value)
  }

  /** The callocs of find_frame. */
  method Allocate(shards: nat, groups: nat) returns (data: array<byte>, present: array<bool>, table: array<FecGroup>)
    ensures fresh(data) && fresh(present) && fresh(table)
    ensures data.Length == shards * SHARD_SIZE && present.Length == shards && table.Length == groups
    ensures forall k | 0 <= k < data.Length :: data[k] == 0
    ensures forall k | 0 <= k < shards :: !present[k]
    ensures forall k | 0 <= k < groups :: table[k] == FecGroup(null, null, false, false)
  {
    data := new byte[shards * SHARD_SIZE](_ => 0);
    present := new bool[shards](_ => false);
    table := new FecGroup[groups](_ => FecGroup(null, null, false, false));
  }

  lemma NewFrameShape(p: Packet, now: uint64, data: seq<byte>, present: seq<bool>)
    requires |data| == ShardCount(p.frameSize) * SHARD_SIZE && forall k | 0 <= k < |data| :: data[k] == 0
    requires |present| == ShardCount(p.frameSize) && forall k | 0 <= k < |present| :: !present[k]
    ensures
      var f := NewFrame(p, now);
      && f.session == p.session && f.id == p.frame && f.size == p.frameSize && f.timestamp == p.timestamp
      && f.keyframe == p.keyframe && f.firstPacket == now && f.received == 0
      && |f.shards| == ShardCount(p.frameSize) && f.shards == Chunks(data, ShardCount(p.frameSize))
      && f.present == present
      && |f.groups| == GroupCount(|f.shards|) && forall g | 0 <= g < |f.groups| :: f.groups[g] == Group(None, None)
  {
    ZeroChunks(data, ShardCount(p.frameSize));
  }

  /** struct video_frame. */
  class VideoFrame {
    var session: uint32
    var id: uint32
    var size: nat
    var shardCount: nat
    var received: nat
    var keyframe: bool
    var timestamp: uint64
    var firstPacket: uint64
    var data: array?<byte>
    var present: array?<bool>
    var groups: array?<FecGroup>

    /** What the slot stands for: nothing when it is free. */
    ghost var model: Option<Frame>
    ghost var Repr: set<object>

    ghost predicate Valid()
      reads this, Repr
      ensures Valid() ==> this in Repr
    {
      && this in Repr
      && (data == null <==> model.None?)
      && (model.Some? ==>
           && present != null && groups != null && data in Repr && present in Repr && groups in Repr
           && Holding(model.value))
    }

    ghost predicate Holding(f: Frame)
      requires data != null && present != null && groups != null && data in Repr && present in Repr && groups in Repr
      reads this, Repr
    {
      FrameOk(f) && Backed(f)
    }

    /** The struct's fields and buffers hold this frame. */
    ghost predicate Backed(f: Frame)
      requires data != null && present != null && groups != null && data in Repr && present in Repr && groups in Repr
      reads this`session, this`id, this`size, this`timestamp, this`keyframe, this`firstPacket, this`received,
        this`shardCount
      reads this`data, this`present, this`groups, this`Repr, Repr - {this}
    {
      && Labelled(f)
      && data.Length == shardCount * SHARD_SIZE && f.shards == Chunks(data[..], shardCount)
      && f.present == present[..]
      && groups.Length == |f.groups|
      && forall g | 0 <= g < |f.groups| :: HoldingGroup(groups[g], f.groups[g])
    }

    ghost predicate Labelled(f: Frame)
      reads this`session, this`id, this`size, this`timestamp, this`keyframe, this`firstPacket, this`received,
        this`shardCount
    {
      && f.session == session && f.id == id && f.size == size && f.timestamp == timestamp && f.keyframe == keyframe
      && f.firstPacket == firstPacket && f.received == received && |f.shards| == shardCount
    }

    ghost predicate HoldingGroup(g: FecGroup, group: Group)
      reads this`data, this`Repr, Repr - {this}
    {
      && (g.parity0 != null ==> g.parity0 in Repr && g.parity0 != data)
      && (g.parity1 != null ==> g.parity1 in Repr && g.parity1 != data)
      && Holds(g.parity0, g.present0, group.parity0)
      && Holds(g.parity1, g.present1, group.parity1)
    }

    /** The struct fields of a slot are those of the frame it stands for. */
    lemma Describes()
      requires Valid()
      ensures data != null <==> model.Some?
      ensures model.Some? ==>
        && FrameOk(model.value) && Labelled(model.value)
        && data in Repr && present in Repr && present.Length == shardCount && present[..] == model.value.present
        && groups in Repr && groups.Length == |model.value.groups|
    {
      hide Chunks, FrameOk, HoldingGroup;
      if model.Some? { FrameLengths(model.value); }
    }

    constructor ()
      ensures Valid() && model == None && fresh(Repr)
    {
      session, id, size, shardCount, received, keyframe, timestamp, firstPacket := 0, 0, 0, 0, 0, false, 0, 0;
      data, present, groups := null, null, null;
      model := None;
      Repr := {this};
    }

    /** free_frame */
    method Free()
      requires Valid()
      modifies this
      ensures Valid() && model == None && Repr == {this}
    {
      session, id, size, shardCount, received, keyframe, timestamp, firstPacket := 0, 0, 0, 0, 0, false, 0, 0;
      data, present, groups := null, null, null;
      model := None;
      Repr := {this};
    }

    method Label(info: VideoInfo, now: uint64)
      modifies this`session, this`id, this`size, this`timestamp, this`keyframe, this`firstPacket, this`received,
        this`shardCount
      ensures session == info.session && id == info.frame && size == info.frameSize && timestamp == info.timestamp
      ensures keyframe == (info.flags % 2 == 1) && firstPacket == now && received == 0
      ensures shardCount == ShardCount(info.frameSize)
    {
      session, id, size, timestamp := info.session, info.frame, info.frameSize, info.timestamp;
      keyframe, firstPacket, received := info.flags % 2 == 1, now, 0;
      shardCount := (info.frameSize + SHARD_SIZE - 1) / SHARD_SIZE;
    }

    /** The allocation half of find_frame. */
    method Open(info: VideoInfo, ghost p: Packet, now: uint64)
      requires Valid() && model == None
      requires Decoded(p) && p.session == info.session && p.frame == info.frame && p.timestamp == info.timestamp
      requires p.frameSize == info.frameSize && p.keyframe == (info.flags % 2 == 1)
      modifies this
      ensures Valid() && fresh(Repr - {this}) && model == Some(NewFrame(p, now))
    {
      hide FrameOk, Chunks, NewFrame, Decoded, ShardCount, GroupCount, Holding, HoldingGroup;
      Label(info, now);
      data, present, groups := Allocate(shardCount, GroupCount(shardCount));
      Repr := {this, data, present, groups};
      model := Some(NewFrame(p, now));
      NewFrameOk(p, now);
      NewFrameShape(p, now, data[..], present[..]);
      EmptyHolds(model.value);
    }

    lemma EmptyHolds(f: Frame)
      requires data != null && present != null && groups != null && data in Repr && present in Repr && groups in Repr
      requires FrameOk(f) && Labelled(f)
      requires data.Length == shardCount * SHARD_SIZE && f.shards == Chunks(data[..], shardCount)
      requires f.present == present[..]
      requires groups.Length == |f.groups|
      requires forall g | 0 <= g < groups.Length ::
        groups[g] == FecGroup(null, null, false, false) && f.groups[g] == Group(None, None)
      ensures Holding(f)
    {
      hide FrameOk, Chunks;
    }

    /** A data shard: copied to its place unless it is already there. */
    method StoreShard(index: nat, payload: seq<byte>)
      requires Valid() && model.Some? && index < |model.value.shards| && |payload| <= SHARD_SIZE
      modifies this, data, present
      ensures Valid() && Repr == old(Repr) && data == old(data) && present == old(present) && groups == old(groups)
      ensures model == Some(StoreData(old(model.value), index, payload))
    {
      hide Chunks, Counted, Rectangular, GroupOk, Zeros;
      StoreDataOk(model.value, index, payload);
      if !present[index] {
        ghost var before := data[..];
        CopyInto(data, index * SHARD_SIZE, payload);
        WriteChunk(before, data[..], shardCount, index, payload);
        present[index] := true;
        received := received + 1;
        model := Some(StoreData(model.value, index, payload));
      }
    }

    /** A parity shard: kept in a buffer of its own unless one is held already. */
    method KeepParity(g: nat, k: nat, payload: seq<byte>)
      requires Valid() && model.Some? && g < |model.value.groups| && k < PARITY_SHARDS && |payload| == SHARD_SIZE
      modifies this, groups
      ensures Valid() && fresh(Repr - old(Repr)) && data == old(data) && present == old(present)
      ensures groups == old(groups)
      ensures model == Some(StoreParity(old(model.value), g, k, payload))
    {
      hide Chunks, FrameOk, GroupOk, StoreParity;
      ghost var f := model.value;
      var fec := groups[g];
      StoreParityOk(f, g, k, payload);
      assert HoldingGroup(fec, f.groups[g]);
      ParityStored(f, g, k, payload);
      if !(if k == 0 then fec.present0 else fec.present1) {
        var buffer := Duplicate(payload);
        groups[g] :=
          if k == 0 then fec.(parity0 := buffer, present0 := true) else fec.(parity1 := buffer, present1 := true);
        Repr := Repr + {buffer};
        model := Some(StoreParity(f, g, k, payload));
        forall i | 0 <= i < |f.groups| ensures HoldingGroup(groups[i], model.value.groups[i]) {
          assert old(HoldingGroup(groups[i], f.groups[i]));
        }
      }
    }

    lemma ParityStored(f: Frame, g: nat, k: nat, payload: seq<byte>)
      requires g < |f.groups|
      ensures
        var t, group := StoreParity(f, g, k, payload), f.groups[g];
        if (if k == 0 then group.parity0.Some? else group.parity1.Some?) then t == f
        else
          t == f.(groups := f.groups[g :=
                    if k == 0 then group.(parity0 := Some(payload)) else group.(parity1 := Some(payload))])
    {}

    /** The call of stearlight_fec_recover on the shards of one group. */
    method Repair(g: nat, first: nat, count: nat, flags: seq<bool>) returns (ok: bool)
      requires Valid() && model.Some? && g < |model.value.groups| && first + count <= shardCount
      requires |flags| == count <= |model.value.shards| && first + count <= |model.value.shards|
      requires GroupOk(model.value.groups[g]) && Rectangular(model.value.shards, SHARD_SIZE)
      modifies data
      ensures
        var f := model.value;
        var result := Recover(f.shards[first..first + count], flags, SHARD_SIZE, f.groups[g].parity0,
          f.groups[g].parity1);
        && ok == result.Some?
        && Backed(if ok then f.(shards := Splice(f.shards, first, result.value)) else f)
    {
      hide Chunks, Recover, Missing, Splice, GroupTable, ShardsAt, OnlyRepairs, Table, FrameOk;
      ghost var before := data[..];
      var fec := groups[g];
      assert HoldingGroup(fec, model.value.groups[g]);
      assert fec.parity0 != null ==> fec.parity0[..SHARD_SIZE] == fec.parity0[..];
      assert fec.parity1 != null ==> fec.parity1[..SHARD_SIZE] == fec.parity1[..];
      TableChunks(before, shardCount, first, count);
      var code := RecoverInPlace(data, GroupTable(first, count), flags, SHARD_SIZE,
                                 fec.parity0, fec.parity1, fec.present0, fec.present1);
      TableChunks(data[..], shardCount, first, count);
      SpliceChunks(before, data[..], shardCount, first, count, flags);
      ok := code >= 0;
    }

    /** The flags of the recovered shards are raised and counted. */
    method Mark(first: nat, count: nat, ghost f: Frame) returns (marked: nat)
      requires data != null && present != null && groups != null && data in Repr && present in Repr && groups in Repr
      requires this in Repr && Backed(f) && first + count <= |f.present|
      modifies this`received, present
      ensures marked == |Missing(f.present[first..first + count], count)|
      ensures Backed(f.(present := Splice(f.present, first, Everything(count)), received := f.received + marked))
    {
      hide Chunks, Missing, FrameOk, Splice, Holds;
      marked := MarkPresent(present, first, count);
      received := received + marked;
    }

    /** recover_group; the result is the number of shards it recovered. */
    method RecoverShards(g: nat) returns (recovered: nat)
      requires Valid() && model.Some? && g < |model.value.groups|
      modifies this, data, present
      ensures Valid() && Repr == old(Repr) && data == old(data) && present == old(present) && groups == old(groups)
      ensures model == Some(RecoverGroup(old(model.value), g).0) && recovered == RecoverGroup(old(model.value), g).1
    {
      hide Recover, Missing, Splice, FrameOk, RecoverGroup, GroupOk, Rectangular, GroupCount, Backed;
      ghost var f := model.value;
      FrameShape(f, g);
      BackedShape(f);
      var first := g * DATA_SHARDS;
      var count := if shardCount - first < DATA_SHARDS then shardCount - first else DATA_SHARDS;
      var flags := present[first..first + count];
      var missing := CountMissing(flags);
      RecoverGroupUnfolds(f, g, first, count, flags);
      RecoverGroupOk(f, g);
      if missing == 0 { return 0; }
      var ok := Repair(g, first, count, flags);
      if !ok { return 0; }
      ghost var repaired := RecoverGroup(f, g).0;
      recovered := Mark(first, count, f.(shards := repaired.shards));
      model := Some(repaired);
    }

    lemma BackedShape(f: Frame)
      requires data != null && present != null && groups != null && data in Repr && present in Repr && groups in Repr
      requires Backed(f)
      ensures |f.shards| == shardCount && present[..] == f.present && groups.Length == |f.groups|
    {}

    /** The memcpy of svrt_pipe_read. */
    method CopyOut() returns (bytes: seq<byte>)
      requires Valid() && model.Some?
      ensures bytes == Contents(model.value)
    {
      hide Chunks, Flatten;
      FlattenChunks(data[..], shardCount);
      bytes := data[..size];
    }
  }

  lemma {:induction false} FlattenChunks(data: seq<byte>, n: nat)
    requires n * SHARD_SIZE <= |data|
    ensures Flatten(Chunks(data, n)) == data[..n * SHARD_SIZE]
  {
    if n != 0 {
      FlattenChunks(data, n - 1);
      assert Chunks(data, n)[..n - 1] == Chunks(data, n - 1);
    }
  }

  lemma FrameShape(f: Frame, g: nat)
    requires FrameOk(f) && g < |f.groups|
    ensures g < GroupCount(|f.shards|) && |f.present| == |f.shards| && GroupOk(f.groups[g])
    ensures Rectangular(f.shards, SHARD_SIZE)
    ensures 0 < GroupSize(|f.shards|, g) && g * DATA_SHARDS + GroupSize(|f.shards|, g) <= |f.shards|
  {
    GroupBounds(|f.shards|, g);
  }

  lemma RecoverGroupUnfolds(f: Frame, g: nat, first: nat, count: nat, flags: seq<bool>)
    requires FrameOk(f) && g < |f.groups| && first == g * DATA_SHARDS
    requires g < GroupCount(|f.shards|) && count == GroupSize(|f.shards|, g)
    requires first + count <= |f.shards| == |f.present| && flags == f.present[first..first + count]
    requires GroupOk(f.groups[g]) && Rectangular(f.shards, SHARD_SIZE)
    ensures
      var result := Recover(f.shards[first..first + count], flags, SHARD_SIZE, f.groups[g].parity0,
        f.groups[g].parity1);
      var missing := |Missing(flags, count)|;
      RecoverGroup(f, g) ==
        if missing == 0 || result.None? then (f, 0)
        else (f.(shards := Splice(f.shards, first, result.value),
          present := Splice(f.present, first, Everything(count)),
                 received := f.received + missing), missing)
  {
    hide Recover, Missing, Splice, FrameOk, GroupOk;
  }

  method CountMissing(flags: seq<bool>) returns (missing: nat)
    ensures missing == |Missing(flags, |flags|)|
  {
    missing := 0;
    for i := 0 to |flags|
      invariant missing == |Missing(flags, i)|
    {
      if !flags[i] { missing := missing + 1; }
    }
  }

  /** The flags of the recovered shards are raised and counted. */
  method MarkPresent(present: array<bool>, first: nat, count: nat) returns (marked: nat)
    requires first + count <= present.Length
    modifies present
    ensures present[..] == Splice(old(present[..]), first, Everything(count))
    ensures marked == |Missing(old(present[first..first + count]), count)|
  {
    marked := 0;
    ghost var flags := present[first..first + count];
    for i := 0 to count
      invariant forall k | 0 <= k < present.Length ::
        present[k] == (if first <= k < first + i then true else old(present[k]))
      invariant marked == |Missing(flags, i)|
    {
      if !present[first + i] {
        present[first + i] := true;
        marked := marked + 1;
      }
    }
  }
}
