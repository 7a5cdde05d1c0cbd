/** How PacketizerThread cuts the encoder's byte stream into access units. */
module Splitter {
  import opened Wrappers
  import opened Field
  import opened Wire

  // ---------- Start codes ----------

  /** The first byte of the NAL unit whose start code is at i: the start code has three bytes, or four. */
  function NalAt(data: seq<byte>, i: nat): (nal: Option<nat>)
    requires i + 5 < |data|
    ensures nal.Some? ==> i < nal.value < |data|
  {
    if data[i] == 0 && data[i + 1] == 0 && data[i + 2] == 1 then Some(i + 3)
    else if data[i] == 0 && data[i + 1] == 0 && data[i + 2] == 0 && data[i + 3] == 1 then Some(i + 4)
    else None
  }

  function NalType(b: byte): nat { (b / 2) % 64 }

  const AUD: nat := 35

  /** An access unit delimiter starts at i, with enough bytes behind it to be seen. */
  predicate AudAt(data: seq<byte>, i: nat) {
    i + 5 < |data| && NalAt(data, i).Some? && NalType(data[NalAt(data, i).value]) == AUD
  }

  /** The first delimiter at or after a position, or the end of the data. */
  function FirstAud(data: seq<byte>, from: nat): (i: nat)
    requires from <= |data|
    ensures from <= i <= |data|
    ensures i < |data| ==> AudAt(data, i)
    ensures forall j | from <= j < i :: !AudAt(data, j)
    decreases |data| - from
  {
    if from == |data| || AudAt(data, from) then from else FirstAud(data, from + 1)
  }

  /** aud_start */
  method AudStart(data: seq<byte>, from: nat) returns (start: nat)
    requires from <= |data|
    ensures start == FirstAud(data, from)
  {
    for i := from to |data|
      invariant FirstAud(data, from) == FirstAud(data, i)
    {
      if i + 5 < |data| {
        var nal := 0;
        if data[i] == 0 && data[i + 1] == 0 && data[i + 2] == 1 {
          nal := i + 3;
        } else if data[i] == 0 && data[i + 1] == 0 && data[i + 2] == 0 && data[i + 3] == 1 {
          nal := i + 4;
        }
        if nal != 0 && (data[nal] / 2) % 64 == 35 { return i; }
      }
    }
    start := |data|;
  }

  /** A frame is a keyframe when it holds a NAL unit of type 16 to 21. */
  ghost predicate HasKeyNal(data: seq<byte>) {
    exists i: nat :: KeyNalAt(data, i)
  }

  predicate KeyNalAt(data: seq<byte>, i: nat) {
    i + 5 < |data| && NalAt(data, i).Some? && 16 <= NalType(data[NalAt(data, i).value]) <= 21
  }

  method IsKeyframe(data: seq<byte>) returns (key: bool)
    ensures key == HasKeyNal(data)
  {
    for i := 0 to |data|
      invariant forall j: nat | j < i :: !KeyNalAt(data, j)
    {
      if i + 5 < |data| {
        var nal := 0;
        if data[i] == 0 && data[i + 1] == 0 && data[i + 2] == 1 {
          nal := i + 3;
        } else if data[i] == 0 && data[i + 1] == 0 && data[i + 2] == 0 && data[i + 3] == 1 {
          nal := i + 4;
        }
        if nal != 0 && 16 <= (data[nal] / 2) % 64 <= 21 {
          assert KeyNalAt(data, i);
          return true;
        }
      }
    }
    key := false;
  }

  // ---------- Access units ----------

  /** Where the buffered data is cut: at the second delimiter, if it can be seen. */
  function Cut(data: seq<byte>): (n: nat)
    ensures n <= |data|
    ensures n < |data| ==> n >= 4 && AudAt(data, n)
  {
    var first := FirstAud(data, 0);
    if first == |data| then |data| else FirstAud(data, first + 4)
  }

  function Units(data: seq<byte>): seq<seq<byte>>
    decreases |data|
  {
    if Cut(data) == |data| then [] else [data[..Cut(data)]] + Units(data[Cut(data)..])
  }

  function Rest(data: seq<byte>): seq<byte>
    decreases |data|
  {
    if Cut(data) == |data| then data else Rest(data[Cut(data)..])
  }

  /** The frames of a whole stream: the units, and what remains at its end. */
  function Frames(stream: seq<byte>): seq<seq<byte>> {
    Units(stream) + if Rest(stream) == [] then [] else [Rest(stream)]
  }

  function Joined(parts: seq<seq<byte>>): seq<byte> {
    if parts == [] then [] else parts[0] + Joined(parts[1..])
  }

  // ---------- More data does not move a cut ----------

  lemma FirstAudStable(data: seq<byte>, more: seq<byte>, from: nat)
    requires from <= |data| && FirstAud(data, from) < |data|
    ensures FirstAud(data + more, from) == FirstAud(data, from)
  {
    var i := FirstAud(data, from);
    forall j | from <= j <= i ensures AudAt(data + more, j) == AudAt(data, j) {}
  }

  lemma CutStable(data: seq<byte>, more: seq<byte>)
    requires Cut(data) < |data|
    ensures Cut(data + more) == Cut(data)
  {
    FirstAudStable(data, more, 0);
    FirstAudStable(data, more, FirstAud(data, 0) + 4);
  }

  /** Cutting what has arrived and keeping the rest comes to the same as cutting everything at once. */
  lemma {:induction false} CutIncrementally(data: seq<byte>, more: seq<byte>)
    ensures Units(data + more) == Units(data) + Units(Rest(data) + more)
    ensures Rest(data + more) == Rest(Rest(data) + more)
    decreases |data|
  {
    hide Cut, AudAt;
    var n := Cut(data);
    if n < |data| {
      CutStable(data, more);
      CutIncrementally(data[n..], more);
      assert (data + more)[..n] == data[..n];
      assert (data + more)[n..] == data[n..] + more;
    }
  }

  // ---------- The frames make up the stream ----------

  lemma {:induction false} JoinedSum(a: seq<seq<byte>>, b: seq<seq<byte>>)
    ensures Joined(a + b) == Joined(a) + Joined(b)
  {
    if a == [] {
      assert a + b == b;
    } else {
      assert (a + b)[1..] == a[1..] + b;
      JoinedSum(a[1..], b);
    }
  }

  lemma {:induction false} UnitsAndRest(data: seq<byte>)
    ensures Joined(Units(data)) + Rest(data) == data
    decreases |data|
  {
    hide *;
    var n := Cut(data);
    UnitsUnfold(data);
    if n < |data| {
      UnitsAndRest(data[n..]);
      JoinedFront(data[..n], Units(data[n..]));
      PutTogether(data, n, Joined(Units(data[n..])), Rest(data[n..]));
    }
  }

  lemma UnitsUnfold(data: seq<byte>)
    ensures
      var n := Cut(data);
      if n < |data| then
        0 < n && Units(data) == [data[..n]] + Units(data[n..]) && Rest(data) == Rest(data[n..])
      else Joined(Units(data)) + Rest(data) == data
  {
    hide Cut;
  }

  lemma PutTogether(data: seq<byte>, n: nat, a: seq<byte>, b: seq<byte>)
    requires n <= |data| && data[n..] == a + b
    ensures (data[..n] + a) + b == data
  {
    assert data == data[..n] + data[n..];
  }

  lemma JoinedFront(unit: seq<byte>, units: seq<seq<byte>>)
    ensures Joined([unit] + units) == unit + Joined(units)
  {
    assert ([unit] + units)[1..] == units;
  }

  lemma FramesMakeStream(stream: seq<byte>)
    ensures Joined(Frames(stream)) == stream
    ensures forall i | 0 <= i < |Frames(stream)| :: Frames(stream)[i] != []
  {
    UnitsAndRest(stream);
    UnitsNonEmpty(stream);
    var tail := if Rest(stream) == [] then [] else [Rest(stream)];
    JoinedSum(Units(stream), tail);
    assert Rest(stream) != [] ==> Joined(tail) == Rest(stream) by { if Rest(stream) != [] { assert tail[1..] == []; } }
  }

  lemma {:induction false} UnitsNonEmpty(data: seq<byte>)
    ensures forall i | 0 <= i < |Units(data)| :: Units(data)[i] != []
    decreases |data|
  {
    if Cut(data) < |data| { UnitsNonEmpty(data[Cut(data)..]); }
  }

  /** Every frame but the first starts at an access unit delimiter of the stream. */
  lemma {:induction false} FramesStartAtDelimiters(stream: seq<byte>, i: nat)
    requires 0 < i < |Frames(stream)|
    ensures AudAt(stream, |Joined(Frames(stream)[..i])|)
    decreases |stream|
  {
    hide Cut, AudAt;
    var n := Cut(stream);
    if n < |stream| {
      var rest := stream[n..];
      assert Frames(stream) == [stream[..n]] + Frames(rest);
      var head := Frames(stream)[..i];
      assert head[1..] == Frames(rest)[..i - 1];
      assert head[0] == stream[..n];
      if i == 1 {
        assert Frames(rest)[..0] == [];
      } else {
        FramesStartAtDelimiters(rest, i - 1);
        AudShiftBack(stream, n, |Joined(Frames(rest)[..i - 1])|);
      }
    }
  }

  /** No delimiter is passed over: a frame, the first and the last included, holds no second one behind its first. */
  lemma {:induction false} NoDelimiterInside(stream: seq<byte>, i: nat, a: nat, j: nat)
    requires i < |Frames(stream)| && AudAt(stream, a)
    requires |Joined(Frames(stream)[..i])| <= a && a + 4 <= j < |Joined(Frames(stream)[..i + 1])|
    ensures !AudAt(stream, j)
    decreases |stream|
  {
    hide Cut, AudAt;
    var n := Cut(stream);
    if n == |stream| {
      WholeFrames(stream);
      assert Frames(stream)[..1] == Frames(stream);
      if AudAt(stream, j) { CutBehind(stream, a, j); }
    } else {
      var rest := stream[n..];
      assert Frames(stream) == [stream[..n]] + Frames(rest);
      if i == 0 {
        assert Frames(stream)[..1] == [stream[..n]] && Joined([stream[..n]]) == stream[..n];
        if AudAt(stream, j) { CutBehind(stream, a, j); }
      } else {
        JoinedCons(stream[..n], Frames(rest), i);
        JoinedCons(stream[..n], Frames(rest), i + 1);
        AudShiftBack(stream, n, a - n);
        AudShiftBack(stream, n, j - n);
        NoDelimiterInside(rest, i - 1, a - n, j - n);
      }
    }
  }

  /** Behind a first delimiter, a second one causes a cut there or before. */
  lemma CutBehind(data: seq<byte>, a: nat, j: nat)
    requires AudAt(data, a) && a + 4 <= j && AudAt(data, j)
    ensures Cut(data) <= j < |data|
  {}

  lemma JoinedCons(head: seq<byte>, tail: seq<seq<byte>>, i: nat)
    requires 0 < i <= |tail| + 1
    ensures |Joined(([head] + tail)[..i])| == |head| + |Joined(tail[..i - 1])|
  {
    assert ([head] + tail)[..i] == [head] + tail[..i - 1];
    assert ([head] + tail[..i - 1])[1..] == tail[..i - 1];
  }

  lemma AudShiftBack(data: seq<byte>, n: nat, i: nat)
    requires n <= |data|
    ensures AudAt(data[n..], i) == AudAt(data, n + i)
  {}

  // ---------- The thread's loop ----------

  /** What the loop does with the chunks it reads: the frames it hands on, and whether it gave up. */
  datatype Packetized = Packetized(frames: seq<seq<byte>>, failed: bool)

  /** The frames before the first one that send_frame refuses for its size. */
  function Accepted(units: seq<seq<byte>>): seq<seq<byte>> {
    if units == [] || |units[0]| > MAX_FRAME_SIZE then [] else [units[0]] + Accepted(units[1..])
  }

  lemma {:induction false} AcceptedPrefix(units: seq<seq<byte>>)
    ensures Accepted(units) <= units
    ensures forall i | 0 <= i < |Accepted(units)| :: |Accepted(units)[i]| <= MAX_FRAME_SIZE
  {
    if units != [] && |units[0]| <= MAX_FRAME_SIZE { AcceptedPrefix(units[1..]); }
  }

  /** The outcome of the loop from a state with unsent data. */
  function Process(pending: seq<byte>, chunks: seq<seq<byte>>): Packetized
    decreases |chunks|
  {
    if chunks == [] then Packetized(if pending == [] then [] else [pending], false)
    else
      var data := pending + chunks[0];
      var units := Units(data);
      if Accepted(units) != units then Packetized(Accepted(units), true)
      else if |Rest(data)| > MAX_FRAME_SIZE then Packetized(units, true)
      else
        var later := Process(Rest(data), chunks[1..]);
        Packetized(units + later.frames, later.failed)
  }

  /** A run that does not give up hands on the frames of the stream, however the stream was cut into chunks. */
  lemma {:induction false} ChunksDoNotMatter(pending: seq<byte>, chunks: seq<seq<byte>>)
    requires Cut(pending) == |pending| && !Process(pending, chunks).failed
    ensures Process(pending, chunks).frames == Frames(pending + Joined(chunks))
    decreases |chunks|
  {
    hide Cut, AudAt, Units, Rest;
    if chunks == [] {
      assert pending + Joined(chunks) == pending;
      WholeFrames(pending);
    } else {
      var data := pending + chunks[0];
      RestIsWhole(data);
      ChunksDoNotMatter(Rest(data), chunks[1..]);
      assert data + Joined(chunks[1..]) == pending + Joined(chunks);
      FramesIncrementally(data, Joined(chunks[1..]));
    }
  }

  lemma WholeFrames(data: seq<byte>)
    requires Cut(data) == |data|
    ensures Frames(data) == if data == [] then [] else [data]
  {}

  lemma FramesIncrementally(data: seq<byte>, more: seq<byte>)
    ensures Frames(data + more) == Units(data) + Frames(Rest(data) + more)
  {
    hide Cut, AudAt, Units, Rest;
    CutIncrementally(data, more);
  }

  lemma {:induction false} RestIsWhole(data: seq<byte>)
    ensures Cut(Rest(data)) == |Rest(data)|
    decreases |data|
  {
    if Cut(data) < |data| { RestIsWhole(data[Cut(data)..]); }
  }

  /** Two ways of reading the same stream, neither failing, hand on the same frames. */
  lemma SameFramesForAllChunkings(a: seq<seq<byte>>, b: seq<seq<byte>>)
    requires Joined(a) == Joined(b) && !Process([], a).failed && !Process([], b).failed
    ensures Process([], a).frames == Process([], b).frames == Frames(Joined(a))
  {
    assert Cut([]) == 0;
    ChunksDoNotMatter([], a);
    ChunksDoNotMatter([], b);
    assert [] + Joined(a) == Joined(a) && [] + Joined(b) == Joined(b);
  }

  // ---------- When a run fails ----------

  /** A complete unit, or what is kept of the next, is longer than a frame may be. */
  ghost predicate TooLong(data: seq<byte>) {
    |Rest(data)| > 8 * 1024 * 1024 || exists i :: 0 <= i < |Units(data)| && |Units(data)[i]| > 8 * 1024 * 1024
  }

  lemma {:induction false} AcceptedAll(units: seq<seq<byte>>)
    ensures Accepted(units) == units <==> forall i | 0 <= i < |units| :: |units[i]| <= 8 * 1024 * 1024
    ensures forall more ::
      Accepted(units + more) == if Accepted(units) == units then units + Accepted(more) else Accepted(units)
  {
    if units == [] {
      assert forall more: seq<seq<byte>> :: units + more == more;
    } else {
      AcceptedAll(units[1..]);
      assert units == [units[0]] + units[1..];
      forall more: seq<seq<byte>>
        ensures Accepted(units + more) == if Accepted(units) == units then units + Accepted(more) else Accepted(units)
      {
        assert (units + more)[0] == units[0] && (units + more)[1..] == units[1..] + more;
      }
    }
  }

  /** Behind data that is not too long, only what comes later can be. */
  lemma TooLongLater(data: seq<byte>, more: seq<byte>)
    requires !TooLong(data)
    ensures TooLong(data + more) == TooLong(Rest(data) + more)
    ensures Accepted(Units(data + more)) == Units(data) + Accepted(Units(Rest(data) + more))
  {
    hide Units, Rest, Accepted;
    CutIncrementally(data, more);
    AcceptedAll(Units(data));
    var a, b := Units(data), Units(Rest(data) + more);
    forall i | 0 <= i < |b| ensures (a + b)[|a| + i] == b[i] {}
  }

  lemma JoinedMore(pending: seq<byte>, chunks: seq<seq<byte>>, m: nat)
    requires 0 < m <= |chunks|
    ensures pending + Joined(chunks[..m]) == (pending + chunks[0]) + Joined(chunks[1..][..m - 1])
  {
    assert chunks[..m][0] == chunks[0] && chunks[..m][1..] == chunks[1..][..m - 1];
  }

  /**
   * A run that fails does so at the first chunk with which the stream is too long, and what is
   * handed on are the units up to the one that is too long, or up to what is kept.
   */
  lemma {:induction false} FailsWhere(pending: seq<byte>, chunks: seq<seq<byte>>) returns (m: nat)
    requires Process(pending, chunks).failed
    ensures 0 < m <= |chunks| && TooLong(pending + Joined(chunks[..m]))
    ensures forall l | 0 < l < m :: !TooLong(pending + Joined(chunks[..l]))
    ensures Process(pending, chunks).frames == Accepted(Units(pending + Joined(chunks[..m])))
    decreases |chunks|
  {
    hide TooLong, Units, Rest, Accepted, Joined;
    var data := pending + chunks[0];
    FirstChunk(pending, chunks);
    StepFails(data);
    if TooLong(data) {
      m := 1;
    } else {
      var n := FailsWhere(Rest(data), chunks[1..]);
      m := n + 1;
      forall l | 1 < l <= m
        ensures TooLong(pending + Joined(chunks[..l])) == TooLong(Rest(data) + Joined(chunks[1..][..l - 1]))
      {
        JoinedMore(pending, chunks, l);
        TooLongLater(data, Joined(chunks[1..][..l - 1]));
      }
      JoinedMore(pending, chunks, m);
      TooLongLater(data, Joined(chunks[1..][..n]));
    }
  }

  lemma FirstChunk(pending: seq<byte>, chunks: seq<seq<byte>>)
    requires chunks != []
    ensures pending + Joined(chunks[..1]) == pending + chunks[0]
  {
    assert chunks[..1][1..] == [];
  }

  lemma StepFails(data: seq<byte>)
    ensures TooLong(data) <==> Accepted(Units(data)) != Units(data) || |Rest(data)| > MAX_FRAME_SIZE
  {
    hide Units, Rest, Accepted;
    AcceptedAll(Units(data));
  }

  /** And a run that does not fail never meets such a chunk. */
  lemma {:induction false} NeverTooLong(pending: seq<byte>, chunks: seq<seq<byte>>, m: nat)
    requires !Process(pending, chunks).failed && 0 < m <= |chunks|
    ensures !TooLong(pending + Joined(chunks[..m]))
    decreases |chunks|
  {
    hide TooLong, Units, Rest, Accepted, Joined;
    var data := pending + chunks[0];
    StepFails(data);
    if m == 1 {
      FirstChunk(pending, chunks);
    } else {
      NeverTooLong(Rest(data), chunks[1..], m - 1);
      JoinedMore(pending, chunks, m);
      TooLongLater(data, Joined(chunks[1..][..m - 1]));
    }
  }

  // ---------- The bytes looked for ----------

  /** An access unit delimiter: a start code of three or four bytes and a NAL unit header of type 35. */
  lemma AudBytes(data: seq<byte>, i: nat)
    ensures AudAt(data, i) <==>
      && i + 5 < |data| && data[i] == 0 && data[i + 1] == 0
      && ((data[i + 2] == 1 && data[i + 3] in {70, 71, 198, 199}) ||
          (data[i + 2] == 0 && data[i + 3] == 1 && data[i + 4] in {70, 71, 198, 199}))
  {}

  /** The bytes of a NAL unit at which decoding can start: a start code and a header of the types 16 to 21. */
  ghost predicate KeyStart(data: seq<byte>, i: nat) {
    && i + 5 < |data| && data[i] == 0 && data[i + 1] == 0
    && var nal := if data[i + 2] == 0 && data[i + 3] == 1 then data[i + 4] else data[i + 3];
    && (data[i + 2] == 1 || (data[i + 2] == 0 && data[i + 3] == 1))
    && (32 <= nal < 44 || 160 <= nal < 172)
  }

  lemma KeyBytes(data: seq<byte>, i: nat)
    ensures KeyNalAt(data, i) <==> KeyStart(data, i)
  {}

  /** A frame is a keyframe exactly if it holds such bytes anywhere. */
  lemma KeyframeBytes(data: seq<byte>)
    ensures HasKeyNal(data) <==> exists i: nat :: KeyStart(data, i)
  {
    hide KeyNalAt, KeyStart;
    forall i: nat ensures KeyNalAt(data, i) <==> KeyStart(data, i) { KeyBytes(data, i); }
  }

  /** Nothing in front of it takes a keyframe's mark away, a delimiter and parameter sets least of all. */
  lemma KeyframeBehind(front: seq<byte>, data: seq<byte>)
    requires HasKeyNal(data)
    ensures HasKeyNal(front + data)
  {
    var i: nat :| KeyNalAt(data, i);
    assert KeyNalAt(front + data, |front| + i);
  }
}
