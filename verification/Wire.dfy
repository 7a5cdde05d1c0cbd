/** The 36-byte video datagram header, stearlight_video_header_encode and _decode. */
module Wire {
  import opened Wrappers
  import opened Field
  import opened Fec

  type uint16 = x: int | 0 <= x < 0x1_0000
  type uint32 = x: int | 0 <= x < 0x1_0000_0000
  type uint64 = x: int | 0 <= x < 0x1_0000_0000_0000_0000

  const MAGIC: uint32 := 0x53544152
  const VERSION: byte := 2
  const PACKET_VIDEO: byte := 1
  const DATAGRAM_SIZE: nat := 1200
  const HEADER_SIZE: nat := 36
  const SHARD_SIZE: nat := 1164
  const PARITY_SHARDS: nat := 2
  const MAX_FRAME_SIZE: nat := 8 * 1024 * 1024

  datatype VideoInfo = VideoInfo(
    flags: uint16,
    session: uint32,
    frame: uint32,
    timestamp: uint64,
    frameSize: uint32,
    group: uint16,
    shard: byte,
    dataShards: byte,
    parityShards: byte,
    payloadSize: uint16)

  function Put16(x: uint16): (s: seq<byte>) ensures |s| == 2 {
    [x / 0x100, x % 0x100]
  }

  function Put32(x: uint32): (s: seq<byte>) ensures |s| == 4 {
    Put16(x / 0x1_0000) + Put16(x % 0x1_0000)
  }

  /** swap64 on a little-endian host: the most significant byte goes first. */
  function Put64(x: uint64): (s: seq<byte>) ensures |s| == 8 {
    Put32(x / 0x1_0000_0000) + Put32(x % 0x1_0000_0000)
  }

  function Get16(s: seq<byte>): uint16 requires |s| == 2 {
    0x100 * (s[0] as int) + s[1] as int
  }

  function Get32(s: seq<byte>): uint32 requires |s| == 4 {
    0x1_0000 * (Get16(s[..2]) as int) + Get16(s[2..]) as int
  }

  function Get64(s: seq<byte>): uint64 requires |s| == 8 {
    0x1_0000_0000 * (Get32(s[..4]) as int) + Get32(s[4..]) as int
  }

  /** The field checks that encoding and decoding share. */
  predicate Sound(info: VideoInfo) {
    && info.session != 0
    && 0 < info.frameSize <= MAX_FRAME_SIZE
    && 0 < info.dataShards <= DATA_SHARDS
    && info.parityShards <= PARITY_SHARDS
    && info.payloadSize <= SHARD_SIZE
    && info.shard < info.dataShards + info.parityShards
  }

  function Encode(info: VideoInfo): (wire: Option<seq<byte>>)
    ensures wire.Some? ==> |wire.value| == HEADER_SIZE
  {
    if !Sound(info) then None
    else Some(
      Put32(MAGIC) + [VERSION, PACKET_VIDEO] + Put16(info.flags)
      + Put32(info.session) + Put32(info.frame) + Put64(info.timestamp) + Put32(info.frameSize)
      + Put16(info.group) + [info.shard, info.dataShards, info.parityShards, 0] + Put16(info.payloadSize))
  }

  function Decode(datagram: seq<byte>): (info: Option<VideoInfo>)
    ensures info.Some? ==> Sound(info.value) && |datagram| == HEADER_SIZE + info.value.payloadSize
  {
    if |datagram| < HEADER_SIZE then None
    else if Get32(datagram[0..4]) != MAGIC || datagram[4] != VERSION || datagram[5] != PACKET_VIDEO then None
    else
      var info := VideoInfo(
        Get16(datagram[6..8]), Get32(datagram[8..12]), Get32(datagram[12..16]), Get64(datagram[16..24]),
        Get32(datagram[24..28]), Get16(datagram[28..30]), datagram[30], datagram[31], datagram[32],
        Get16(datagram[34..36]));
      if !Sound(info) || HEADER_SIZE + info.payloadSize != |datagram| then None else Some(info)
  }

  lemma Put16Get16(x: uint16)
    ensures Get16(Put16(x)) == x
  {}

  lemma Put32Get32(x: uint32)
    ensures Get32(Put32(x)) == x
  {
    assert Put32(x)[..2] == Put16(x / 0x1_0000) && Put32(x)[2..] == Put16(x % 0x1_0000);
  }

  lemma Put64Get64(x: uint64)
    ensures Get64(Put64(x)) == x
  {
    Put32Get32(x / 0x1_0000_0000);
    Put32Get32(x % 0x1_0000_0000);
    assert Put64(x)[..4] == Put32(x / 0x1_0000_0000) && Put64(x)[4..] == Put32(x % 0x1_0000_0000);
  }

  lemma Get32Put32(s: seq<byte>)
    requires |s| == 4
    ensures Put32(Get32(s)) == s
  {
    Get16Put16(s[..2]);
    Get16Put16(s[2..]);
    assert Get32(s) / 0x1_0000 == Get16(s[..2]);
  }

  lemma Get16Put16(s: seq<byte>)
    requires |s| == 2
    ensures Put16(Get16(s)) == s
  {}

  lemma Get64Put64(s: seq<byte>)
    requires |s| == 8
    ensures Put64(Get64(s)) == s
  {
    hide Put32, Get32;
    Get32Put32(s[..4]);
    Get32Put32(s[4..]);
    assert Get64(s) / 0x1_0000_0000 == Get32(s[..4]);
  }

  /** Whatever the encoder accepts comes back from the decoder, with the payload of the announced size behind it. */
  lemma EncodeThenDecode(info: VideoInfo, payload: seq<byte>)
    requires Encode(info).Some? && |payload| == info.payloadSize
    ensures Decode(Encode(info).value + payload) == Some(info)
  {
    hide Put16, Put32, Put64, Get16, Get32, Get64;
    var d := Encode(info).value + payload;
    assert d[0..4] == Put32(MAGIC);
    assert d[4] == VERSION && d[5] == PACKET_VIDEO;
    assert d[6..8] == Put16(info.flags);
    assert d[8..12] == Put32(info.session);
    assert d[12..16] == Put32(info.frame);
    assert d[16..24] == Put64(info.timestamp);
    assert d[24..28] == Put32(info.frameSize);
    assert d[28..30] == Put16(info.group);
    assert d[30] == info.shard && d[31] == info.dataShards && d[32] == info.parityShards;
    assert d[34..36] == Put16(info.payloadSize);
    Put32Get32(MAGIC); Put16Get16(info.flags); Put32Get32(info.session); Put32Get32(info.frame);
    Put64Get64(info.timestamp); Put32Get32(info.frameSize); Put16Get16(info.group); Put16Get16(info.payloadSize);
  }

  /** Whatever the decoder accepts is re-encoded to the same header, except that the reserved byte becomes 0. */
  lemma DecodeThenEncode(datagram: seq<byte>)
    requires Decode(datagram).Some?
    ensures Encode(Decode(datagram).value) == Some(datagram[..HEADER_SIZE][33 := 0])
  {
    hide Put16, Put32, Put64, Get16, Get32, Get64;
    var d := datagram;
    Get32Put32(d[0..4]);
    Get16Put16(d[6..8]);
    Get32Put32(d[8..12]);
    Get32Put32(d[12..16]);
    Get64Put64(d[16..24]);
    Get32Put32(d[24..28]);
    Get16Put16(d[28..30]);
    Get16Put16(d[34..36]);
    HeaderParts(d);
  }

  lemma HeaderParts(d: seq<byte>)
    requires |d| >= HEADER_SIZE
    ensures d[0..4] + [d[4], d[5]] + d[6..8] + d[8..12] + d[12..16] + d[16..24] + d[24..28]
      + d[28..30] + [d[30], d[31], d[32], 0] + d[34..36] == d[..HEADER_SIZE][33 := 0]
  {
    assert d[0..4] + [d[4], d[5]] == d[0..6];
    assert d[0..6] + d[6..8] == d[0..8] && d[0..8] + d[8..12] == d[0..12] && d[0..12] + d[12..16] == d[0..16];
    assert d[0..16] + d[16..24] == d[0..24] && d[0..24] + d[24..28] == d[0..28] && d[0..28] + d[28..30] == d[0..30];
    assert d[0..30] + [d[30], d[31], d[32], 0] == d[0..33] + [0];
    assert d[0..33] + [0] + d[34..36] == d[..HEADER_SIZE][33 := 0];
  }

  // ---------- Byte by byte ----------

  /** A number in network order: the most significant byte first. */
  function BigEndian(s: seq<byte>): nat {
    if s == [] then 0 else 256 * BigEndian(s[..|s| - 1]) + s[|s| - 1]
  }

  lemma Pushed(s: seq<byte>, x: byte)
    ensures BigEndian(s + [x]) == 256 * BigEndian(s) + x
  {
    assert (s + [x])[..|s|] == s;
  }

  lemma PushedTwo(s: seq<byte>, t: seq<byte>)
    requires |t| == 2
    ensures BigEndian(s + t) == 0x1_0000 * BigEndian(s) + Get16(t)
  {
    hide BigEndian;
    Pushed(s, t[0]);
    Pushed(s + [t[0]], t[1]);
    assert s + t == s + [t[0]] + [t[1]];
  }

  lemma PushedFour(s: seq<byte>, t: seq<byte>)
    requires |t| == 4
    ensures BigEndian(s + t) == 0x1_0000_0000 * BigEndian(s) + Get32(t)
  {
    hide BigEndian, Get16;
    PushedTwo(s, t[..2]);
    PushedTwo(s + t[..2], t[2..]);
    assert s + t == s + t[..2] + t[2..];
  }

  lemma Two(s: seq<byte>)
    requires |s| == 2
    ensures BigEndian(s) == Get16(s)
  {
    hide Get16;
    PushedTwo([], s);
    assert [] + s == s;
  }

  lemma Four(s: seq<byte>)
    requires |s| == 4
    ensures BigEndian(s) == Get32(s)
  {
    hide Get32;
    PushedFour([], s);
    assert [] + s == s;
  }

  lemma Eight(s: seq<byte>)
    requires |s| == 8
    ensures BigEndian(s) == Get64(s)
  {
    hide Get32, BigEndian;
    Four(s[..4]);
    PushedFour(s[..4], s[4..]);
    assert s == s[..4] + s[4..];
  }

  /** The bytes of a header: the magic "STAR", version and type, then the fields in network order. */
  ghost predicate Bears(d: seq<byte>, info: VideoInfo)
    requires |d| >= 36
  {
    && d[0..4] == [0x53, 0x54, 0x41, 0x52] && d[4] == 2 && d[5] == 1
    && BigEndian(d[6..8]) == info.flags && BigEndian(d[8..12]) == info.session && BigEndian(d[12..16]) == info.frame
    && BigEndian(d[16..24]) == info.timestamp && BigEndian(d[24..28]) == info.frameSize
    && BigEndian(d[28..30]) == info.group && d[30] == info.shard && d[31] == info.dataShards
    && d[32] == info.parityShards && BigEndian(d[34..36]) == info.payloadSize
  }

  lemma MagicIs(s: seq<byte>)
    requires |s| == 4
    ensures Get32(s) == MAGIC <==> s == [0x53, 0x54, 0x41, 0x52]
  {
    Get32Put32(s);
    assert Put32(MAGIC) == [0x53, 0x54, 0x41, 0x52];
    Put32Get32(MAGIC);
  }

  /**
   * Exactly the datagrams are decoded that bear a header with an allowed value in every field and
   * are as long as it says, and each to the header it bears.
   */
  lemma DecodesExactly(d: seq<byte>, info: VideoInfo)
    ensures Decode(d) == Some(info) <==>
      && |d| >= 36 && |d| == 36 + info.payloadSize && Bears(d, info)
      && info.session != 0 && 0 < info.frameSize <= 8 * 1024 * 1024
      && 0 < info.dataShards <= 10 && info.parityShards <= 2 && info.payloadSize <= 1164
      && info.shard < info.dataShards + info.parityShards
  {
    hide Get16, Get32, Get64;
    if |d| >= HEADER_SIZE {
      MagicIs(d[0..4]);
      Two(d[6..8]);
      Four(d[8..12]);
      Four(d[12..16]);
      Eight(d[16..24]);
      Four(d[24..28]);
      Two(d[28..30]);
      Two(d[34..36]);
    }
  }

  /** And exactly such headers are encoded, the reserved byte as 0. */
  lemma EncodesExactly(info: VideoInfo)
    ensures Encode(info).Some? <==>
      && info.session != 0 && 0 < info.frameSize <= 8 * 1024 * 1024
      && 0 < info.dataShards <= 10 && info.parityShards <= 2 && info.payloadSize <= 1164
      && info.shard < info.dataShards + info.parityShards
    ensures Encode(info).Some? ==> Bears(Encode(info).value, info) && Encode(info).value[33] == 0
  {
    if Encode(info).Some? {
      hide Encode, Put16, Put32, Put64, Decode, Bears;
      var payload: seq<byte> := seq(info.payloadSize, _ => 0);
      EncodeThenDecode(info, payload);
      DecodesExactly(Encode(info).value + payload, info);
      BearsInFront(Encode(info).value, payload, info);
      ReservedIsZero(info);
    }
  }

  lemma BearsInFront(d: seq<byte>, payload: seq<byte>, info: VideoInfo)
    requires |d| == 36 && Bears(d + payload, info)
    ensures Bears(d, info)
  {
    hide BigEndian;
    assert forall i, j | 0 <= i <= j <= 36 :: (d + payload)[i..j] == d[i..j];
  }

  lemma ReservedIsZero(info: VideoInfo)
    requires Encode(info).Some?
    ensures Encode(info).value[33] == 0
  {
    hide Put16, Put32, Put64;
  }
}
