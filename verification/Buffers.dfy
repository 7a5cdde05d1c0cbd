/** Copying into byte buffers. */
module Buffers {
  import opened Field

  /** The bytes stand at the offset and all others are what they were. */
  ghost predicate Written(before: seq<byte>, after: seq<byte>, offset: nat, bytes: seq<byte>) {
    && |after| == |before| && offset + |bytes| <= |before|
    && (forall k | 0 <= k < |bytes| :: after[offset + k] == bytes[k])
    && (forall k | 0 <= k < |before| && !(offset <= k < offset + |bytes|) :: after[k] == before[k])
  }

  /** memcpy into a buffer. */
  method CopyInto(buffer: array<byte>, offset: nat, bytes: seq<byte>)
    requires offset + |bytes| <= buffer.Length
    modifies buffer
    ensures Written(old(buffer[..]), buffer[..], offset, bytes)
  {
    for k := 0 to |bytes|
      invariant forall j | 0 <= j < k :: buffer[offset + j] == bytes[j]
      invariant forall j | 0 <= j < buffer.Length && !(offset <= j < offset + k) :: buffer[j] == old(buffer[j])
    {
      buffer[offset + k] := bytes[k];
    }
  }

  /** A new buffer with the given bytes. */
  method Duplicate(bytes: seq<byte>) returns (buffer: array<byte>)
    ensures fresh(buffer) && buffer[..] == bytes
  {
    buffer := new byte[|bytes|](_ => 0);
    CopyInto(buffer, 0, bytes);
  }
}
