/** What the hand-off does for the newest frame: it is kept until it is written, and it can always be written. */
module HandoffProgress {
  import opened Wrappers
  import opened SlotHandoff

  // ---------- Nothing newest is lost ----------

  /** A step without a disconnect, a failure or a stop, and a write through an open pipe. */
  predicate Smooth(step: Step) {
    !step.Disconnect? && !step.MapFails? && !step.Stop? && (step.Write? ==> step.result.Success?)
  }

  /** The newest captured frame waits in a slot. */
  ghost predicate NewestWaits(s: State) {
    exists k :: 0 <= k < |s.slots| && s.slots[k].pending && s.slots[k].sequence == s.sequence
  }

  /** The newest captured frame is the last one written. */
  predicate NewestWritten(s: State) {
    |s.captured| > 0 && |s.written| > 0
    && s.written[|s.written| - 1] == Frame(|s.captured|, s.captured[|s.captured| - 1])
  }

  /** What smooth steps keep besides the invariant. */
  ghost predicate Serves(s: State) {
    && s.running && !s.worker.Closing? && !s.worker.Ended?
    && (s.worker.Done? ==>
         s.worker.ok && |s.written| > 0 && s.written[|s.written| - 1].sequence == s.worker.sequence)
    && (s.sequence > 0 ==> NewestWaits(s) || NewestWritten(s))
  }

  lemma ProducerServes(s: State, step: Step)
    requires Inv(s) && Serves(s) && Enabled(s, step) && ProducersOwn(step)
    ensures Serves(Next(s, step))
  {
    hide WrittenOk, WaitingOk;
    var t := Next(s, step);
    if step.Commit? {
      assert t.slots[s.producer.slot].pending;
    } else if NewestWaits(s) {
      var k :| 0 <= k < |s.slots| && s.slots[k].pending && s.slots[k].sequence == s.sequence;
      assert t.slots[k].pending;
    }
  }

  /** The slot that Pick chooses is that of the newest frame, if it waits. */
  lemma PickServes(s: State, k: nat)
    requires Inv(s) && Serves(s) && Enabled(s, Pick(k))
    ensures Serves(Next(s, Pick(k)))
  {
    hide WrittenOk, WaitingOk;
    if NewestWaits(s) {
      var i :| 0 <= i < |s.slots| && s.slots[i].pending && s.slots[i].sequence == s.sequence;
      assert s.slots[k].sequence == s.sequence;
      assert Next(s, Pick(k)).slots[k] == s.slots[k];
    }
  }

  /** Only a written frame is released. */
  lemma FinishServes(s: State)
    requires Inv(s) && Serves(s) && Enabled(s, Finish)
    ensures Serves(Next(s, Finish))
  {
    hide WaitingOk;
    if NewestWaits(s) {
      var k :| 0 <= k < |s.slots| && s.slots[k].pending && s.slots[k].sequence == s.sequence;
      if k != s.worker.slot { assert Next(s, Finish).slots[k].pending; }
    }
  }

  lemma ReaderServes(s: State, step: Step)
    requires Inv(s) && Serves(s) && Enabled(s, step)
    requires step.Busy? || step.ReadRow? || step == Write(Success)
    ensures Serves(Next(s, step))
  {
    var t := Next(s, step);
    assert t.slots == s.slots && NewestWaits(s) == NewestWaits(t);
    if step.Write? && NewestWritten(s) {
      assert s.written[|s.written| - 1].sequence < s.slots[s.worker.slot].sequence;
    }
  }

  lemma StepServes(s: State, step: Step)
    requires Inv(s) && Serves(s) && Enabled(s, step) && Smooth(step)
    ensures Serves(Next(s, step))
  {
    hide Inv, Serves, Next;
    if ProducersOwn(step) {
      ProducerServes(s, step);
    } else {
      match step {
        case Pick(k) => PickServes(s, k);
        case Finish => FinishServes(s);
        case Busy => ReaderServes(s, step);
        case ReadRow => ReaderServes(s, step);
        case Write(_) => ReaderServes(s, step);
        case Clear => NotClosed(s, step);
        case End => NotClosed(s, step);
        case Restart => NotClosed(s, step);
      }
    }
  }

  lemma NotClosed(s: State, step: Step)
    requires Serves(s) && (step.Clear? || step.End? || step.Restart?)
    ensures !Enabled(s, step)
  {}

  lemma {:induction false} RunServes(s: State, steps: seq<Step>)
    requires Inv(s) && Serves(s) && Runs(s, steps) && forall i | 0 <= i < |steps| :: Smooth(steps[i])
    ensures Inv(Reached(s, steps)) && Serves(Reached(s, steps))
    decreases |steps|
  {
    hide Inv, Serves, Enabled, Next, Smooth;
    if steps != [] {
      StepKeeps(s, steps[0]);
      StepServes(s, steps[0]);
      RunServes(Next(s, steps[0]), steps[1..]);
    }
  }

  /**
   * In every run without a disconnect, a failure or a stop, however often the GPU is busy: the
   * newest captured frame is in a slot that waits, or it is the last one written.
   */
  lemma NewestIsKept(steps: seq<Step>)
    requires Runs(START, steps) && forall i | 0 <= i < |steps| :: Smooth(steps[i])
    ensures var s := Reached(START, steps);
      s.captured != [] ==>
        || NewestWritten(s)
        || exists k :: 0 <= k < |s.slots| && s.slots[k].pending && s.slots[k].image == s.captured[|s.captured| - 1]
                       && s.slots[k].sequence == |s.captured|
  {
    hide Runs, Reached, NewestWritten;
    StartIsOk();
    RunServes(START, steps);
  }

  // ---------- It can always be written ----------

  function Rows(n: nat): seq<Step> { seq(n, _ => ReadRow) }

  /** The worker's way with a slot whose frame has that many rows. */
  function Way(k: nat, rows: nat): seq<Step> { [Pick(k)] + (Rows(rows) + [Write(Success), Finish]) }

  lemma FirstStep(s: State, step: Step, rest: seq<Step>)
    requires Enabled(s, step) && Runs(Next(s, step), rest)
    ensures Runs(s, [step] + rest) && Reached(s, [step] + rest) == Reached(Next(s, step), rest)
  {
    hide Enabled, Next;
    assert ([step] + rest)[1..] == rest;
  }

  lemma {:induction false} RowsRead(s: State, rest: seq<Step>)
    requires s.worker.Reading? && s.worker.slot < |s.slots| && s.worker.rows <= s.slots[s.worker.slot].image
    requires Runs(s.(worker := s.worker.(rows := s.slots[s.worker.slot].image)), rest)
    ensures
      var image := s.slots[s.worker.slot].image;
      var steps := Rows(|image| - |s.worker.rows|) + rest;
      Runs(s, steps) && Reached(s, steps) == Reached(s.(worker := s.worker.(rows := image)), rest)
    decreases |s.slots[s.worker.slot].image| - |s.worker.rows|
  {
    hide Runs, Reached;
    var image, n := s.slots[s.worker.slot].image, |s.worker.rows|;
    if n == |image| {
      assert Rows(0) + rest == rest && s.worker.rows == image;
    } else {
      var t := Next(s, ReadRow);
      assert image[..n + 1] == image[..n] + [image[n]];
      RowsRead(t, rest);
      assert Rows(|image| - n) + rest == [ReadRow] + (Rows(|image| - n - 1) + rest);
      FirstStep(s, ReadRow, Rows(|image| - n - 1) + rest);
    }
  }

  /**
   * Whenever the worker waits, no producer is inside and a slot waits: the worker can pick the
   * newest one, read it, write it and release it, and then that frame, as captured, is the last
   * one written and nothing waits any more.
   */
  lemma NewestGetsThrough(s: State) returns (k: nat)
    requires Inv(s) && s.running && s.producer.Away? && s.worker.Waiting? && AnyPending(s.slots)
    ensures k < |s.slots| && Enabled(s, Pick(k)) && Runs(s, Way(k, |s.slots[k].image|))
    ensures 0 < s.slots[k].sequence <= |s.captured|
    ensures
      var t := Reached(s, Way(k, |s.slots[k].image|));
      var q := s.slots[k].sequence;
      && t.written == s.written + [Frame(q, s.captured[q - 1])]
      && t.worker.Waiting? && t.running && t.producer.Away? && !AnyPending(t.slots)
      && t.captured == s.captured && t.sequence == s.sequence && |t.slots| == |s.slots|
    ensures NewestWaits(s) ==> s.slots[k].sequence == s.sequence
  {
    hide Runs, Reached, Inv, IsNewest;
    k := NewestSlot(s.slots);
    PickedAlone(s, k);
    var picked := Next(s, Pick(k));
    StepKeeps(s, Pick(k));
    ReadAndWritten(picked);
    var rest := Rows(|picked.slots[k].image|) + [Write(Success), Finish];
    FirstStep(s, Pick(k), rest);
    assert Way(k, |s.slots[k].image|) == [Pick(k)] + rest;
  }

  /** The picked slot is the only one left waiting. */
  lemma PickedAlone(s: State, k: nat)
    requires Inv(s) && s.running && s.producer.Away? && s.worker.Waiting? && IsNewest(s.slots, k)
    ensures Enabled(s, Pick(k)) && k < |s.slots|
    ensures 0 < s.slots[k].sequence <= |s.captured|
    ensures NewestWaits(s) ==> s.slots[k].sequence == s.sequence
    ensures
      var t := Next(s, Pick(k));
      && t.worker == Reading(k, s.slots[k].sequence, []) && t.slots[k] == s.slots[k] && |t.slots| == |s.slots|
      && (forall i | 0 <= i < |t.slots| && t.slots[i].pending :: i == k)
      && t == s.(slots := t.slots, worker := t.worker)
      && s.slots[k].image == s.captured[s.slots[k].sequence - 1]
  {
    hide WrittenOk, WaitingOk;
  }

  /** From the pick on: the rows, the write, the release. */
  lemma ReadAndWritten(s: State)
    requires s.worker.Reading? && s.worker.rows == [] && s.worker.slot < |s.slots|
    requires s.running && s.producer.Away?
    ensures
      var k, image := s.worker.slot, s.slots[s.worker.slot].image;
      var steps := Rows(|image|) + [Write(Success), Finish];
      && Runs(s, steps)
      && Reached(s, steps) ==
        s.(slots := s.slots[k := s.slots[k].(pending := false)], worker := Waiting,
           written := s.written + [Frame(s.worker.sequence, image)])
  {
    hide Runs, Reached;
    var image := s.slots[s.worker.slot].image;
    var read := s.(worker := s.worker.(rows := image));
    var done := Next(read, Write(Success));
    assert [Finish] + [] == [Finish] && [Write(Success)] + [Finish] == [Write(Success), Finish];
    Nowhere(Next(done, Finish));
    FirstStep(done, Finish, []);
    FirstStep(read, Write(Success), [Finish]);
    RowsRead(s, [Write(Success), Finish]);
  }

  lemma Nowhere(s: State)
    ensures Runs(s, []) && Reached(s, []) == s
  {}

  lemma {:induction false} NewestAmong(slots: seq<Slot>, n: nat) returns (k: nat)
    requires n <= |slots| && exists i :: 0 <= i < n && slots[i].pending
    ensures k < n && slots[k].pending
    ensures forall i | 0 <= i < n && slots[i].pending :: slots[i].sequence <= slots[k].sequence
  {
    if exists i :: 0 <= i < n - 1 && slots[i].pending {
      k := NewestAmong(slots, n - 1);
      if slots[n - 1].pending && slots[n - 1].sequence > slots[k].sequence { k := n - 1; }
    } else {
      k := n - 1;
    }
  }

  lemma NewestSlot(slots: seq<Slot>) returns (k: nat)
    requires AnyPending(slots)
    ensures IsNewest(slots, k)
  {
    k := NewestAmong(slots, |slots|);
  }

  /**
   * From a capture to the encoder: whenever the worker waits, no producer is inside and a slot is
   * idle, or none is made yet, a frame can be drawn and handed over and is then written, next to
   * what was written before.
   */
  lemma CaptureGetsThrough(s: State, image: Image) returns (steps: seq<Step>)
    requires Inv(s) && s.running && s.producer.Away? && s.worker.Waiting?
    requires s.slots == [] || exists i :: 0 <= i < |s.slots| && !s.slots[i].pending
    ensures [Enter(Ready), Draw(image), Commit] <= steps && Runs(s, steps)
    ensures
      var t := Reached(s, steps);
      && t.captured == s.captured + [image]
      && t.written == s.written + [Frame(|s.captured| + 1, image)]
      && t.worker.Waiting? && t.running && t.producer.Away? && !AnyPending(t.slots)
  {
    hide Runs, Reached;
    var entered := Next(s, Enter(Ready));
    IdleFound(SetUp(s.slots, Ready), 0);
    var drawn := Next(entered, Draw(image));
    var handed := Next(drawn, Commit);
    StepKeeps(s, Enter(Ready));
    StepKeeps(entered, Draw(image));
    StepKeeps(drawn, Commit);
    assert handed.slots[entered.producer.slot].pending && NewestWaits(handed);
    var k := NewestGetsThrough(handed);
    var way := Way(k, |handed.slots[k].image|);
    FirstStep(drawn, Commit, way);
    FirstStep(entered, Draw(image), [Commit] + way);
    FirstStep(s, Enter(Ready), [Draw(image)] + ([Commit] + way));
    steps := [Enter(Ready)] + ([Draw(image)] + ([Commit] + way));
  }

  lemma {:induction false} IdleFound(slots: seq<Slot>, i: nat)
    requires i <= |slots| && exists j :: i <= j < |slots| && !slots[j].pending
    ensures FirstIdle(slots, i) < |slots|
    decreases |slots| - i
  {
    if slots[i].pending { IdleFound(slots, i + 1); }
  }

  // ---------- What is dropped stays dropped ----------

  /** A step after which everything captured so far is dropped: a disconnect, a failure or a stop. */
  predicate Drops(step: Step) {
    step.Disconnect? || step.MapFails? || step == Write(Failure) || step.Stop?
  }

  /** Whatever may still be picked was captured behind the first q frames. */
  ghost predicate OnlyBehind(s: State, q: nat) {
    && q <= s.sequence
    && (s.producer.Filling? ==> s.running)
    && (s.worker.Ended? ==> s.slots == [])
    && (s.running && !s.worker.Closing? && !(s.worker.Done? && !s.worker.ok) ==>
         forall i | 0 <= i < |s.slots| && s.slots[i].pending :: s.slots[i].sequence > q)
  }

  lemma DropsAll(s: State, step: Step)
    requires Inv(s) && Enabled(s, step) && Drops(step)
    ensures OnlyBehind(Next(s, step), s.sequence)
  {
    hide WrittenOk, WaitingOk;
  }

  lemma BehindKept(s: State, step: Step, q: nat)
    requires Inv(s) && Enabled(s, step) && OnlyBehind(s, q)
    ensures OnlyBehind(Next(s, step), q)
  {
    hide WrittenOk, WaitingOk;
  }

  lemma {:induction false} BehindOnward(s: State, steps: seq<Step>, q: nat)
    requires Inv(s) && Runs(s, steps) && OnlyBehind(s, q)
    ensures OnlyBehind(Reached(s, steps), q)
    decreases |steps|
  {
    hide Inv, Enabled, Next, OnlyBehind;
    if steps != [] {
      StepKeeps(s, steps[0]);
      BehindKept(s, steps[0], q);
      BehindOnward(Next(s, steps[0]), steps[1..], q);
    }
  }

  /** After a disconnect, a failure or a stop no frame is picked that was captured before it. */
  lemma DroppedForGood(before: seq<Step>, step: Step, between: seq<Step>, k: nat)
    requires Runs(START, before) && Drops(step) && Enabled(Reached(START, before), step)
    requires Runs(Next(Reached(START, before), step), between)
    requires Enabled(Reached(Next(Reached(START, before), step), between), Pick(k))
    ensures
      var s := Reached(START, before);
      Reached(Next(s, step), between).slots[k].sequence > |s.captured|
  {
    hide Runs, Reached, WrittenOk, WaitingOk;
    var s := Reached(START, before);
    StartIsOk();
    RunKeeps(START, before);
    DropsAll(s, step);
    StepKeeps(s, step);
    BehindOnward(Next(s, step), between, s.sequence);
  }

  // ---------- The other ways ----------

  /**
   * Entering, a producer gets the first idle slot if there is one, of the slots there are or of
   * three new ones, and none if new ones are needed and cannot be made or no encoder starts.
   */
  lemma ProducerGetsSlot(s: State, setup: Setup)
    requires Inv(s) && s.running && s.producer.Away?
    ensures Enabled(s, Enter(setup))
    ensures
      var t := Next(s, Enter(setup));
      && |t.slots| == (if s.slots == [] && setup != NoConversion then 3 else |s.slots|)
      && (t.producer.Filling? <==>
            (s.slots != [] || setup == Ready) && exists i :: 0 <= i < |t.slots| && !t.slots[i].pending)
      && (t.producer.Filling? ==>
            && !t.slots[t.producer.slot].pending
            && forall i | 0 <= i < t.producer.slot :: t.slots[i].pending)
  {
    hide WrittenOk, WaitingOk, WorkerOk;
    var slots := SetUp(s.slots, setup);
    FirstIdleIs(slots, 0);
  }

  lemma {:induction false} FirstIdleIs(slots: seq<Slot>, i: nat)
    requires i <= |slots|
    ensures forall j | i <= j < FirstIdle(slots, i) :: slots[j].pending
    decreases |slots| - i
  {
    if i < |slots| && slots[i].pending { FirstIdleIs(slots, i + 1); }
  }

  /** While a producer is inside the mutex, the worker takes only the steps it takes outside, and nobody stops it. */
  lemma MutexExcludes(s: State, step: Step)
    requires Inv(s) && s.producer.Filling? && Enabled(s, step)
    ensures ProducersOwn(step) || step.Busy? || step.MapFails? || step.ReadRow? || step.Write?
  {
    hide WrittenOk, WaitingOk, SlotsOk;
  }

  /** A disconnect frees all slots at once: a producer that enters next finds one. */
  lemma DisconnectFrees(s: State)
    requires Inv(s) && s.running && s.producer.Away? && s.worker.Waiting?
    ensures Enabled(s, Disconnect)
    ensures
      var t := Next(s, Disconnect);
      && !AnyPending(t.slots) && Enabled(t, Enter(Ready)) && Next(t, Enter(Ready)).producer == Filling(0)
      && Enabled(t, Clear) && Next(t, Clear).slots == [] && Next(t, Clear).worker.Waiting?
  {
    hide WrittenOk, WaitingOk, WorkerOk;
  }

  /** Without a pipe the frame is given up, and nothing else that waits. */
  lemma WithoutPipe(s: State)
    requires Inv(s) && s.running && s.producer.Away?
    requires s.worker.Reading? && s.worker.rows == s.slots[s.worker.slot].image
    ensures Runs(s, [Write(NoPipe), Finish])
    ensures
      var k := s.worker.slot;
      Reached(s, [Write(NoPipe), Finish]) == s.(slots := s.slots[k := s.slots[k].(pending := false)], worker := Waiting)
  {
    hide Runs, Reached, WrittenOk, WaitingOk, SlotsOk;
    var done := Next(s, Write(NoPipe));
    assert [Finish] + [] == [Finish] && [Write(NoPipe)] + [Finish] == [Write(NoPipe), Finish];
    Nowhere(Next(done, Finish));
    FirstStep(done, Finish, []);
    FirstStep(s, Write(NoPipe), [Finish]);
  }

  /** Once the driver stops, a worker that is done ends without closing the encoder first. */
  lemma StopEnds(s: State)
    requires Inv(s) && s.worker.Done? && !s.running && s.producer.Away?
    ensures Runs(s, [Finish, End])
    ensures Reached(s, [Finish, End]) == s.(slots := [], worker := Ended)
  {
    hide Runs, Reached, WrittenOk, WaitingOk, SlotsOk;
    var released := Next(s, Finish);
    assert [End] + [] == [End] && [Finish] + [End] == [Finish, End];
    Nowhere(Next(released, End));
    FirstStep(released, End, []);
    FirstStep(s, Finish, [End]);
  }

  // ---------- Nobody is shut out ----------

  /**
   * Wherever the worker is, reading a slot and closing the encoder included: as long as the driver
   * runs, no producer is inside and a slot is idle, or none is made yet, a frame can be drawn and
   * handed over, and that moves neither the worker nor what it has picked.
   */
  lemma CaptureBesideWorker(s: State, image: Image)
    requires Inv(s) && s.running && s.producer.Away?
    requires s.slots == [] || exists i :: 0 <= i < |s.slots| && !s.slots[i].pending
    ensures Runs(s, [Enter(Ready), Draw(image), Commit])
    ensures
      var t := Reached(s, [Enter(Ready), Draw(image), Commit]);
      && t.captured == s.captured + [image] && t.worker == s.worker && t.written == s.written
      && t.running && t.producer.Away?
      && (exists k :: 0 <= k < |t.slots| && t.slots[k].pending && t.slots[k].image == image
                      && t.slots[k].sequence == |t.captured|)
      && (forall k | 0 <= k < |s.slots| && s.slots[k].pending :: k < |t.slots| && t.slots[k] == s.slots[k])
  {
    hide Runs, Reached, WrittenOk, WaitingOk, WorkerOk;
    var entered := Next(s, Enter(Ready));
    IdleFound(SetUp(s.slots, Ready), 0);
    InsideHandsOver(entered, image);
    assert Reached(entered, [Draw(image), Commit]).slots[entered.producer.slot] == Slot(true, s.sequence + 1, image);
    assert [Enter(Ready)] + [Draw(image), Commit] == [Enter(Ready), Draw(image), Commit];
    FirstStep(s, Enter(Ready), [Draw(image), Commit]);
  }

  /** A producer inside can draw whatever was drawn before, hand over what it drew, or give up. */
  lemma InsideHandsOver(s: State, image: Image)
    requires s.producer.Filling? && s.producer.slot < |s.slots|
    ensures Enabled(s, GiveUp) && Next(s, GiveUp) == s.(producer := Away)
    ensures Runs(s, [Draw(image), Commit])
    ensures
      var k, q := s.producer.slot, s.sequence + 1;
      Reached(s, [Draw(image), Commit]) ==
        s.(slots := s.slots[k := Slot(true, q, image)], sequence := q, producer := Away,
           captured := s.captured + [image])
  {
    hide Runs, Reached;
    var drawn := Next(s, Draw(image));
    assert [Commit] + [] == [Commit] && [Draw(image)] + [Commit] == [Draw(image), Commit];
    Nowhere(Next(drawn, Commit));
    FirstStep(drawn, Commit, []);
    FirstStep(s, Draw(image), [Commit]);
  }

  /** Whatever producers do, the worker reads the rest of its slot, and its write comes out one way or another. */
  lemma WorkerReadsAlone(s: State, result: WriteResult)
    requires Inv(s) && s.worker.Reading?
    ensures
      var w, image := s.worker, s.slots[s.worker.slot].image;
      var steps := Rows(|image| - |w.rows|) + [Write(result)];
      && Runs(s, steps)
      && Reached(s, steps) ==
        s.(worker := Done(w.slot, w.sequence, result != Failure),
           written := if result == Success then s.written + [Frame(w.sequence, image)] else s.written)
  {
    hide Runs, Reached, WrittenOk, WaitingOk, SlotsOk;
    var read := s.(worker := s.worker.(rows := s.slots[s.worker.slot].image));
    assert [Write(result)] + [] == [Write(result)];
    Nowhere(Next(read, Write(result)));
    FirstStep(read, Write(result), []);
    RowsRead(s, [Write(result)]);
  }

  /** So it is with the mapping before: the GPU is busy and the worker lets go, or it fails. */
  lemma MappingComesOut(s: State)
    requires s.worker.Reading? && s.worker.rows == []
    ensures Enabled(s, Busy) && Next(s, Busy) == s.(worker := Waiting)
    ensures Enabled(s, MapFails) && Next(s, MapFails) == s.(worker := Done(s.worker.slot, s.worker.sequence, false))
  {}

  /** When the GPU is busy the worker lets go, and picks the same frame again or a newer one. */
  lemma BusyTriesAgain(s: State) returns (k: nat)
    requires Inv(s) && s.running && s.producer.Away? && s.worker.Reading? && s.worker.rows == []
    ensures k < |s.slots| && Runs(s, [Busy, Pick(k)]) && s.slots[k].sequence >= s.worker.sequence
    ensures
      var t := Reached(s, [Busy, Pick(k)]);
      t.worker == Reading(k, s.slots[k].sequence, []) && t.captured == s.captured && t.written == s.written
  {
    hide Runs, Reached, WrittenOk, WaitingOk, SlotsOk;
    k := NewestSlot(s.slots);
    var t := Next(s, Busy);
    assert [Pick(k)] + [] == [Pick(k)] && [Busy] + [Pick(k)] == [Busy, Pick(k)];
    Nowhere(Next(t, Pick(k)));
    FirstStep(t, Pick(k), []);
    FirstStep(s, Busy, [Pick(k)]);
  }

  /** The mapping or the write has failed. */
  predicate Fails(s: State, step: Step) {
    && s.worker.Reading? && s.worker.slot < |s.slots|
    && ((step == MapFails && s.worker.rows == []) ||
        (step == Write(Failure) && s.worker.rows == s.slots[s.worker.slot].image))
  }

  /** After a failure all slots are given up, and the next capture makes new ones. */
  lemma FailureRecovers(s: State, step: Step)
    requires Inv(s) && s.running && s.producer.Away? && Fails(s, step)
    ensures Runs(s, [step, Finish, Clear])
    ensures Reached(s, [step, Finish, Clear]) == s.(slots := [], worker := Waiting)
  {
    hide Runs, Reached, WrittenOk, WaitingOk, SlotsOk;
    var failed := Next(s, step);
    var closing := Next(failed, Finish);
    assert [Clear] + [] == [Clear] && [Finish] + [Clear] == [Finish, Clear];
    assert [step] + [Finish, Clear] == [step, Finish, Clear];
    Nowhere(Next(closing, Clear));
    FirstStep(closing, Clear, []);
    FirstStep(failed, Finish, [Clear]);
    FirstStep(s, step, [Finish, Clear]);
  }

  /** From anywhere the worker can end once the driver is stopped, and what it was reading can still be written. */
  lemma WorkerEnds(s: State) returns (steps: seq<Step>)
    requires Inv(s) && !s.running && !s.worker.Ended?
    ensures Runs(s, steps)
    ensures
      var t := Reached(s, steps);
      && t.worker.Ended? && t.slots == [] && !t.running && t.producer.Away? && t.captured == s.captured
      && t.written == s.written +
           if s.worker.Reading? then [Frame(s.worker.sequence, s.slots[s.worker.slot].image)] else []
  {
    hide Runs, Reached, WrittenOk, WaitingOk, SlotsOk;
    match s.worker {
      case Waiting =>
        Nowhere(Next(s, End));
        FirstStep(s, End, []);
        steps := [End] + [];
      case Done(_, _, _) =>
        StopEnds(s);
        steps := [Finish, End];
      case Closing =>
        var cleared := Next(s, Clear);
        Nowhere(Next(cleared, End));
        FirstStep(cleared, End, []);
        FirstStep(s, Clear, [End] + []);
        steps := [Clear] + ([End] + []);
      case Reading(_, _, _) =>
        steps := ReaderEnds(s);
    }
  }

  lemma ReaderEnds(s: State) returns (steps: seq<Step>)
    requires Inv(s) && !s.running && s.worker.Reading?
    ensures Runs(s, steps)
    ensures
      var t := Reached(s, steps);
      && t.worker.Ended? && t.slots == [] && !t.running && t.producer.Away? && t.captured == s.captured
      && t.written == s.written + [Frame(s.worker.sequence, s.slots[s.worker.slot].image)]
  {
    hide Runs, Reached, WrittenOk, WaitingOk, SlotsOk;
    var read := s.(worker := s.worker.(rows := s.slots[s.worker.slot].image));
    var written := Next(read, Write(Success));
    var released := Next(written, Finish);
    Nowhere(Next(released, End));
    FirstStep(released, End, []);
    FirstStep(written, Finish, [End] + []);
    FirstStep(read, Write(Success), [Finish] + ([End] + []));
    var rest := [Write(Success)] + ([Finish] + ([End] + []));
    RowsRead(s, rest);
    steps := Rows(|s.slots[s.worker.slot].image| - |s.worker.rows|) + rest;
  }

  /** The driver can stop whenever no producer is inside, and start again once the worker has ended. */
  lemma StopsAndStarts(s: State)
    requires Inv(s) && s.producer.Away?
    ensures s.running ==> Enabled(s, Stop) && Next(s, Stop) == s.(running := false)
    ensures s.worker.Ended? ==> Enabled(s, Restart) && Next(s, Restart) == s.(running := true, worker := Waiting)
  {
    hide WrittenOk, WaitingOk, SlotsOk;
  }
}
