/**
 * The hand-off of captured frames to the encoder: the producers' critical section in
 * CopyVirtualFrame and Present, and the worker in EncoderThread, which drops the mutex while it
 * reads a slot.
 */
module SlotHandoff {
  import opened Wrappers

  const STAGING_SLOTS: nat := 3

  /** A picture as the rows of its staging texture. */
  type Image = seq<int>

  datatype Slot = Slot(pending: bool, sequence: nat, image: Image)

  // ---------- The two searches under the mutex ----------

  /** The first slot that is not pending, or the end. */
  function FirstIdle(slots: seq<Slot>, i: nat): (k: nat)
    requires i <= |slots|
    ensures i <= k <= |slots|
    ensures k < |slots| ==> !slots[k].pending
    decreases |slots| - i
  {
    if i == |slots| || !slots[i].pending then i else FirstIdle(slots, i + 1)
  }

  /** The pending slot with the greatest sequence, if there is one. */
  ghost predicate IsNewest(slots: seq<Slot>, k: nat) {
    && k < |slots| && slots[k].pending
    && forall i | 0 <= i < |slots| && slots[i].pending :: slots[i].sequence <= slots[k].sequence
  }

  ghost predicate AnyPending(slots: seq<Slot>) {
    exists i :: 0 <= i < |slots| && slots[i].pending
  }

  function DropOlder(slots: seq<Slot>, k: nat): seq<Slot>
    requires k < |slots|
  {
    seq(|slots|, i requires 0 <= i < |slots| =>
      if i != k && slots[i].pending && slots[i].sequence < slots[k].sequence then slots[i].(pending := false)
      else slots[i])
  }

  function NonePending(slots: seq<Slot>): seq<Slot>
  {
    seq(|slots|, i requires 0 <= i < |slots| => slots[i].(pending := false))
  }

  /** Three new slots; what their textures hold is of no account. */
  function NewSlots(): seq<Slot> { seq(STAGING_SLOTS, _ => Slot(false, 0, [])) }

  /** Every pending slot has been numbered. */
  ghost predicate Numbered(slots: seq<Slot>) {
    forall i | 0 <= i < |slots| && slots[i].pending :: slots[i].sequence > 0
  }

  /** The fields that the mutex guards. */
  class SlotTable {
    var slots: seq<Slot>
    var sequence: nat

    constructor ()
      ensures slots == [] && sequence == 0
    {
      slots, sequence := [], 0;
    }

    /** The slot a producer copies into. */
    method FindIdle() returns (k: nat)
      ensures k == FirstIdle(slots, 0)
    {
      k := 0;
      while k < |slots|
        invariant k <= |slots| && FirstIdle(slots, 0) == FirstIdle(slots, k)
      {
        if !slots[k].pending { return; }
        k := k + 1;
      }
    }

    /** A finished copy is numbered and handed over. */
    method Publish(k: nat)
      requires k < |slots|
      modifies this
      ensures sequence == old(sequence) + 1
      ensures slots == old(slots)[k := old(slots)[k].(pending := true, sequence := old(sequence) + 1)]
    {
      sequence := sequence + 1;
      slots := slots[k := slots[k].(pending := true, sequence := sequence)];
    }

    /** The worker's choice: the newest pending slot, with the older ones dropped. */
    method TakeNewest() returns (picked: Option<nat>)
      requires Numbered(slots)
      modifies this`slots
      ensures picked.None? <==> !AnyPending(old(slots))
      ensures picked.None? ==> slots == old(slots)
      ensures picked.Some? ==> IsNewest(old(slots), picked.value) && slots == DropOlder(old(slots), picked.value)
    {
      if |slots| == 0 { return None; }
      var best := 0;
      for i := 1 to |slots|
        invariant best < i && (slots[best].pending || forall j | 0 <= j < i :: !slots[j].pending)
        invariant forall j | 0 <= j < i && slots[j].pending :: slots[j].sequence <= slots[best].sequence
      {
        var a := if slots[best].pending then slots[best].sequence else 0;
        var b := if slots[i].pending then slots[i].sequence else 0;
        if a < b { best := i; }
      }
      if !slots[best].pending { return None; }
      ghost var was := slots;
      for i := 0 to |slots|
        invariant |slots| == |was|
        invariant forall j | 0 <= j < i :: slots[j] == DropOlder(was, best)[j]
        invariant forall j | i <= j < |was| :: slots[j] == was[j]
        invariant slots[best] == was[best]
      {
        if i != best && slots[i].pending && slots[i].sequence < slots[best].sequence {
          slots := slots[i := slots[i].(pending := false)];
        }
      }
      assert slots == DropOlder(was, best);
      picked := Some(best);
    }

    /** A disconnect drops everything that waits. */
    method DropAll()
      modifies this`slots
      ensures slots == NonePending(old(slots))
    {
      ghost var was := slots;
      for i := 0 to |slots|
        invariant |slots| == |was|
        invariant forall j | 0 <= j < i :: slots[j] == was[j].(pending := false)
        invariant forall j | i <= j < |was| :: slots[j] == was[j]
      {
        slots := slots[i := slots[i].(pending := false)];
      }
      assert slots == NonePending(was);
    }
  }

  // ---------- The protocol as steps ----------

  /** A producer is away, or inside the mutex with the slot it writes. */
  datatype Producer = Away | Filling(slot: nat)

  /**
   * The worker between its critical sections: waiting, reading the slot it picked row by row,
   * done with it and about to lock again, closing the encoder before it clears the slots, ended.
   */
  datatype Worker = Waiting
                  | Reading(slot: nat, sequence: nat, rows: Image)
                  | Done(slot: nat, sequence: nat, ok: bool)
                  | Closing
                  | Ended

  datatype Frame = Frame(sequence: nat, image: Image)

  /** The frames ever captured and the frames written to the encoder are kept as history. */
  datatype State = State(
    slots: seq<Slot>,
    sequence: nat,
    running: bool,
    producer: Producer,
    worker: Worker,
    captured: seq<Image>,
    written: seq<Frame>)

  const START: State := State([], 0, true, Away, Waiting, [], [])

  /** How a producer finds the slots: as they are, newly made, or not to be made. */
  datatype Setup = Ready | NoConversion | NoEncoder

  datatype WriteResult = Success | Failure | NoPipe

  datatype Step =
    // A producer locks, makes the slots if there are none, and looks for an idle one.
    | Enter(setup: Setup)
    // It draws into its slot, any number of times.
    | Draw(image: Image)
    // It numbers the slot and unlocks, or gives up and unlocks.
    | Commit
    | GiveUp
    // The worker wakes for a disconnect, or for a pending slot.
    | Disconnect
    | Pick(slot: nat)
    // Mapping the slot: the GPU is busy, or it fails; then row by row; then the encoder's pipe.
    | Busy
    | MapFails
    | ReadRow
    | Write(result: WriteResult)
    // The worker locks again and releases the slot; after a failure it closes the encoder and clears the slots.
    | Finish
    | Clear
    // The driver stops and starts again.
    | Stop
    | End
    | Restart

  ghost predicate Enabled(s: State, step: Step) {
    match step
    case Enter(_) => s.running && s.producer.Away?
    case Draw(_) => s.producer.Filling? && s.producer.slot < |s.slots|
    case Commit => s.producer.Filling? && s.producer.slot < |s.slots|
    case GiveUp => s.producer.Filling?
    case Disconnect => s.running && s.producer.Away? && s.worker.Waiting?
    case Pick(k) => s.running && s.producer.Away? && s.worker.Waiting? && IsNewest(s.slots, k)
    case Busy => s.worker.Reading? && s.worker.rows == []
    case MapFails => s.worker.Reading? && s.worker.rows == []
    case ReadRow => s.worker.Reading? && s.worker.slot < |s.slots| && |s.worker.rows| < |s.slots[s.worker.slot].image|
    case Write(_) => s.worker.Reading? && s.worker.slot < |s.slots| && |s.worker.rows| == |s.slots[s.worker.slot].image|
    case Finish => s.producer.Away? && s.worker.Done? && s.worker.slot < |s.slots|
    case Clear => s.producer.Away? && s.worker.Closing?
    case Stop => s.running && s.producer.Away?
    case End => !s.running && s.worker.Waiting?
    case Restart => !s.running && s.worker.Ended?
  }

  function SetUp(slots: seq<Slot>, setup: Setup): seq<Slot> {
    if slots == [] && !setup.NoConversion? then NewSlots() else slots
  }

  ghost function Next(s: State, step: Step): State
    requires Enabled(s, step)
  {
    match step
    case Enter(setup) =>
      var slots := SetUp(s.slots, setup);
      var k := FirstIdle(slots, 0);
      s.(slots := slots,
         producer := if (s.slots == [] && !setup.Ready?) || k == |slots| then Away else Filling(k))
    case Draw(image) =>
      s.(slots := s.slots[s.producer.slot := s.slots[s.producer.slot].(image := image)])
    case Commit =>
      var k := s.producer.slot;
      s.(slots := s.slots[k := s.slots[k].(pending := true, sequence := s.sequence + 1)], sequence := s.sequence + 1,
         producer := Away, captured := s.captured + [s.slots[k].image])
    case GiveUp => s.(producer := Away)
    case Disconnect => s.(slots := NonePending(s.slots), worker := Closing)
    case Pick(k) => s.(slots := DropOlder(s.slots, k), worker := Reading(k, s.slots[k].sequence, []))
    case Busy => s.(worker := Waiting)
    case MapFails => s.(worker := Done(s.worker.slot, s.worker.sequence, false))
    case ReadRow =>
      var row := s.slots[s.worker.slot].image[|s.worker.rows|];
      s.(worker := s.worker.(rows := s.worker.rows + [row]))
    case Write(result) =>
      s.(worker := Done(s.worker.slot, s.worker.sequence, !result.Failure?),
         written := if result.Success? then s.written + [Frame(s.worker.sequence, s.worker.rows)] else s.written)
    case Finish =>
      var k := s.worker.slot;
      s.(slots := s.slots[k := s.slots[k].(pending := false)],
         worker := if s.worker.ok || !s.running then Waiting else Closing)
    case Clear => s.(slots := [], worker := Waiting)
    case Stop => s.(running := false)
    case End => s.(slots := [], worker := Ended)
    case Restart => s.(running := true, worker := Waiting)
  }

  /** A run: each step possible where it is taken. */
  ghost predicate Runs(s: State, steps: seq<Step>)
    decreases |steps|
  {
    steps == [] || (Enabled(s, steps[0]) && Runs(Next(s, steps[0]), steps[1..]))
  }

  ghost function Reached(s: State, steps: seq<Step>): State
    requires Runs(s, steps)
    decreases |steps|
  {
    if steps == [] then s else Reached(Next(s, steps[0]), steps[1..])
  }

  // ---------- The invariant ----------

  /** The worker holds a claim on this slot: it is reading it, or has not yet released it. */
  predicate Claims(w: Worker, k: nat, sequence: nat) {
    (w.Reading? || w.Done?) && w.slot == k && w.sequence == sequence
  }

  ghost predicate SlotsOk(s: State) {
    && (s.slots == [] || |s.slots| == STAGING_SLOTS)
    && |s.captured| == s.sequence
    && (forall i | 0 <= i < |s.slots| && s.slots[i].pending ::
         0 < s.slots[i].sequence <= s.sequence && s.slots[i].image == s.captured[s.slots[i].sequence - 1])
    && (forall i, j | 0 <= i < j < |s.slots| && s.slots[i].pending && s.slots[j].pending ::
         s.slots[i].sequence != s.slots[j].sequence)
  }

  ghost predicate ProducerOk(s: State) {
    s.producer.Filling? ==> s.running && s.producer.slot < |s.slots| && !s.slots[s.producer.slot].pending
  }

  /** While the worker is outside the mutex its slot stays pending, and all others that wait are newer. */
  ghost predicate WorkerOk(s: State) {
    && (s.worker.Reading? || s.worker.Done? ==>
         && s.worker.slot < |s.slots|
         && s.slots[s.worker.slot].pending && s.slots[s.worker.slot].sequence == s.worker.sequence
         && (forall i | 0 <= i < |s.slots| && i != s.worker.slot && s.slots[i].pending ::
              s.slots[i].sequence > s.worker.sequence))
    && (s.worker.Reading? ==> s.worker.rows <= s.slots[s.worker.slot].image)
    && (s.worker.Ended? ==> !s.running && s.slots == [])
  }

  /** What was written is what was captured, in increasing order. */
  ghost predicate WrittenOk(s: State) {
    && (forall i | 0 <= i < |s.written| ::
         0 < s.written[i].sequence <= |s.captured| && s.written[i].image == s.captured[s.written[i].sequence - 1])
    && (forall i, j | 0 <= i < j < |s.written| :: s.written[i].sequence < s.written[j].sequence)
  }

  /** What was written is older than whatever waits, except for the slot that was just written. */
  ghost predicate WaitingOk(s: State) {
    (forall i, k | 0 <= i < |s.written| && 0 <= k < |s.slots| && s.slots[k].pending ::
         s.written[i].sequence < s.slots[k].sequence ||
         (s.worker.Done? && s.worker.slot == k && s.written[i].sequence == s.slots[k].sequence))
  }

  ghost predicate Inv(s: State) { SlotsOk(s) && ProducerOk(s) && WorkerOk(s) && WrittenOk(s) && WaitingOk(s) }

  lemma StartIsOk()
    ensures Inv(START)
  {}

  /** The steps of producers. */
  predicate ProducersOwn(step: Step) { step.Enter? || step.Draw? || step.Commit? || step.GiveUp? }

  lemma SlotsKept(s: State, step: Step)
    requires Inv(s) && Enabled(s, step)
    ensures SlotsOk(Next(s, step))
  {
    hide *;
    InvParts(s);
    if ProducersOwn(step) { ProducerKeepsSlots(s, step); } else { WorkerKeepsSlots(s, step); }
  }

  lemma InvParts(s: State)
    requires Inv(s)
    ensures SlotsOk(s) && ProducerOk(s) && WorkerOk(s) && WrittenOk(s) && WaitingOk(s)
  {
    hide SlotsOk, ProducerOk, WorkerOk, WrittenOk, WaitingOk;
  }

  lemma ProducerKeepsSlots(s: State, step: Step)
    requires SlotsOk(s) && ProducerOk(s) && Enabled(s, step) && ProducersOwn(step)
    ensures SlotsOk(Next(s, step))
  {}

  lemma WorkerKeepsSlots(s: State, step: Step)
    requires SlotsOk(s) && Enabled(s, step) && !ProducersOwn(step)
    ensures SlotsOk(Next(s, step))
  {
    hide Enabled, Next;
    WorkerOnlyReleases(s, step);
  }

  /** The worker and the driver release slots or drop them all, and capture nothing. */
  lemma WorkerOnlyReleases(s: State, step: Step)
    requires Enabled(s, step) && !ProducersOwn(step)
    ensures
      var t := Next(s, step);
      && t.captured == s.captured && t.sequence == s.sequence
      && (t.slots == [] || |t.slots| == |s.slots|)
      && forall i | 0 <= i < |t.slots| :: t.slots[i] == s.slots[i] || t.slots[i] == s.slots[i].(pending := false)
  {}

  lemma ThreadsKept(s: State, step: Step)
    requires Inv(s) && Enabled(s, step)
    ensures ProducerOk(Next(s, step)) && WorkerOk(Next(s, step))
  {
    hide *;
    InvParts(s);
    ProducerKept(s, step);
    if ProducersOwn(step) { ProducerKeepsWorker(s, step); } else { WorkerKept(s, step); }
  }

  lemma ProducerKept(s: State, step: Step)
    requires SlotsOk(s) && ProducerOk(s) && Enabled(s, step)
    ensures ProducerOk(Next(s, step))
  {}

  lemma ProducerKeepsWorker(s: State, step: Step)
    requires SlotsOk(s) && ProducerOk(s) && WorkerOk(s) && Enabled(s, step) && ProducersOwn(step)
    ensures WorkerOk(Next(s, step))
  {}

  lemma WorkerKept(s: State, step: Step)
    requires SlotsOk(s) && WorkerOk(s) && Enabled(s, step) && !ProducersOwn(step)
    ensures WorkerOk(Next(s, step))
  {}

  lemma WrittenKept(s: State, step: Step)
    requires Inv(s) && Enabled(s, step)
    ensures WrittenOk(Next(s, step))
  {
    hide *;
    InvParts(s);
    if ProducersOwn(step) { ProducerKeepsWritten(s, step); } else { WorkerKeepsWritten(s, step); }
  }

  lemma ProducerKeepsWritten(s: State, step: Step)
    requires WrittenOk(s) && Enabled(s, step) && ProducersOwn(step)
    ensures WrittenOk(Next(s, step))
  {}

  lemma WorkerKeepsWritten(s: State, step: Step)
    requires SlotsOk(s) && WorkerOk(s) && WrittenOk(s) && WaitingOk(s) && Enabled(s, step) && !ProducersOwn(step)
    ensures WrittenOk(Next(s, step))
  {
    hide *;
    if step.Write? { WriteKeepsWritten(s, step); } else { OthersKeepWritten(s, step); }
  }

  lemma OthersKeepWritten(s: State, step: Step)
    requires WrittenOk(s) && Enabled(s, step) && !ProducersOwn(step) && !step.Write?
    ensures WrittenOk(Next(s, step))
  {
    hide WrittenOk;
    WrittenSame(s, Next(s, step));
  }

  lemma WrittenSame(s: State, t: State)
    requires WrittenOk(s) && t.written == s.written && t.captured == s.captured
    ensures WrittenOk(t)
  {}

  lemma WriteKeepsWritten(s: State, step: Step)
    requires SlotsOk(s) && WorkerOk(s) && WrittenOk(s) && WaitingOk(s) && Enabled(s, step) && step.Write?
    ensures WrittenOk(Next(s, step))
  {
    hide SlotsOk, WaitingOk, WrittenOk;
    SlotIsCaptured(s);
    var t := Next(s, step);
    if step.result.Success? { FrameAdded(s, t); } else { WrittenSame(s, t); }
  }

  lemma FrameAdded(s: State, t: State)
    requires WrittenOk(s) && t.captured == s.captured
    requires |t.written| == |s.written| + 1 && t.written[..|s.written|] == s.written
    requires
      var f := t.written[|s.written|];
      && 0 < f.sequence <= |s.captured| && f.image == s.captured[f.sequence - 1]
      && forall i | 0 <= i < |s.written| :: s.written[i].sequence < f.sequence
    ensures WrittenOk(t)
  {
    assert forall i | 0 <= i < |s.written| :: t.written[i] == s.written[i];
  }

  /** The rows read so far are those of a captured frame, and what was written is older. */
  lemma SlotIsCaptured(s: State)
    requires SlotsOk(s) && WorkerOk(s) && WrittenOk(s) && WaitingOk(s) && s.worker.Reading?
    ensures s.worker.slot < |s.slots| && 0 < s.worker.sequence <= |s.captured|
    ensures s.slots[s.worker.slot].image == s.captured[s.worker.sequence - 1]
    ensures forall i | 0 <= i < |s.written| :: s.written[i].sequence < s.worker.sequence
  {}

  lemma WaitingKept(s: State, step: Step)
    requires Inv(s) && Enabled(s, step)
    ensures WaitingOk(Next(s, step))
  {
    hide *;
    InvParts(s);
    if ProducersOwn(step) { ProducerKeepsWaiting(s, step); } else { WorkerKeepsWaiting(s, step); }
  }

  lemma ProducerKeepsWaiting(s: State, step: Step)
    requires SlotsOk(s) && ProducerOk(s) && WorkerOk(s) && WrittenOk(s) && WaitingOk(s)
    requires Enabled(s, step) && ProducersOwn(step)
    ensures WaitingOk(Next(s, step))
  {}

  lemma WorkerKeepsWaiting(s: State, step: Step)
    requires SlotsOk(s) && WorkerOk(s) && WaitingOk(s) && Enabled(s, step) && !ProducersOwn(step)
    ensures WaitingOk(Next(s, step))
  {
    if step.Write? {
      WriteKeepsWaiting(s, step);
    } else {
      hide Enabled, Next, SlotsOk, WorkerOk;
      WorkerOnlyReleases(s, step);
      NothingWritten(s, step);
    }
  }

  lemma WriteKeepsWaiting(s: State, step: Step)
    requires SlotsOk(s) && WorkerOk(s) && WaitingOk(s) && Enabled(s, step) && step.Write?
    ensures WaitingOk(Next(s, step))
  {}

  /** Only a write adds to what is written, and a slot that was just written is released with the claim on it. */
  lemma NothingWritten(s: State, step: Step)
    requires SlotsOk(s) && WorkerOk(s) && WaitingOk(s) && Enabled(s, step) && !ProducersOwn(step) && !step.Write?
    ensures
      var t := Next(s, step);
      && t.written == s.written
      && (s.worker.Done? && s.worker.slot < |t.slots| && t.slots[s.worker.slot].pending ==>
           t.worker.Done? && t.worker.slot == s.worker.slot)
  {}

  lemma StepKeeps(s: State, step: Step)
    requires Inv(s) && Enabled(s, step)
    ensures Inv(Next(s, step))
  {
    hide Enabled, Next, SlotsOk, ProducerOk, WorkerOk, WrittenOk, WaitingOk;
    SlotsKept(s, step);
    ThreadsKept(s, step);
    WrittenKept(s, step);
    WaitingKept(s, step);
  }

  lemma {:induction false} RunKeeps(s: State, steps: seq<Step>)
    requires Inv(s) && Runs(s, steps)
    ensures Inv(Reached(s, steps))
    decreases |steps|
  {
    hide Enabled, Next, Inv;
    if steps != [] {
      StepKeeps(s, steps[0]);
      RunKeeps(Next(s, steps[0]), steps[1..]);
    }
  }

  // ---------- What holds in every run ----------

  /**
   * In every interleaving: the producer never draws into the slot the worker has picked, whose
   * row copy so far is the captured frame's; every other slot that waits is newer; and the frames
   * written to the encoder are the captured frames, whole, in strictly increasing order.
   */
  lemma HandOffIsSafe(steps: seq<Step>)
    requires Runs(START, steps)
    ensures
      var s := Reached(START, steps);
      && (s.slots == [] || |s.slots| == 3)
      && (s.producer.Filling? && (s.worker.Reading? || s.worker.Done?) ==> s.producer.slot != s.worker.slot)
      && (s.worker.Reading? || s.worker.Done? ==>
           && 0 < s.worker.sequence <= |s.captured|
           && (forall i | 0 <= i < |s.slots| && i != s.worker.slot && s.slots[i].pending ::
                s.slots[i].sequence > s.worker.sequence))
      && (s.worker.Reading? ==> s.worker.rows <= s.captured[s.worker.sequence - 1])
      && (forall i | 0 <= i < |s.written| ::
           0 < s.written[i].sequence <= |s.captured| && s.written[i].image == s.captured[s.written[i].sequence - 1])
      && (forall i, j | 0 <= i < j < |s.written| :: s.written[i].sequence < s.written[j].sequence)
  {
    hide Runs, Reached;
    RunKeeps(START, steps);
  }

  /** No step of anyone changes the slot the worker has picked, until the worker releases it. */
  lemma PickedSlotIsFrozen(s: State, step: Step, k: nat, sequence: nat)
    requires Inv(s) && Enabled(s, step)
    requires Claims(s.worker, k, sequence) && Claims(Next(s, step).worker, k, sequence)
    ensures k < |s.slots| && |Next(s, step).slots| == |s.slots| && Next(s, step).slots[k] == s.slots[k]
  {
    hide WrittenOk, WaitingOk;
  }

  ghost predicate AllSince(s: State, q: nat) {
    q <= s.sequence && forall i | 0 <= i < |s.slots| && s.slots[i].pending :: q <= s.slots[i].sequence
  }

  lemma SinceStep(s: State, step: Step, q: nat)
    requires Enabled(s, step) && AllSince(s, q)
    ensures AllSince(Next(s, step), q)
  {}

  lemma {:induction false} SinceKept(s: State, steps: seq<Step>, q: nat)
    requires Inv(s) && Runs(s, steps) && AllSince(s, q)
    ensures AllSince(Reached(s, steps), q)
    decreases |steps|
  {
    hide Inv, Enabled, Next, AllSince;
    if steps != [] {
      StepKeeps(s, steps[0]);
      SinceStep(s, steps[0], q);
      SinceKept(Next(s, steps[0]), steps[1..], q);
    }
  }

  /** Through busy retries, failures and disconnects, the worker never picks an older frame than before. */
  lemma PicksNeverGoBack(before: seq<Step>, k: nat, between: seq<Step>, j: nat)
    requires Runs(START, before) && Enabled(Reached(START, before), Pick(k))
    requires Runs(Next(Reached(START, before), Pick(k)), between)
    requires Enabled(Reached(Next(Reached(START, before), Pick(k)), between), Pick(j))
    ensures
      var s := Reached(START, before);
      var t := Reached(Next(s, Pick(k)), between);
      s.slots[k].sequence <= t.slots[j].sequence
  {
    hide Runs, Reached, WrittenOk, WaitingOk, WorkerOk, ProducerOk;
    var s := Reached(START, before);
    StartIsOk();
    RunKeeps(START, before);
    StepKeeps(s, Pick(k));
    SinceKept(Next(s, Pick(k)), between, s.slots[k].sequence);
  }
}
