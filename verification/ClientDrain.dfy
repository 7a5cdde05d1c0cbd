/**
 * How svrt_status_server_stop drains the status server's clients: the listener, any number of
 * detached client threads and the stopping thread, as steps on the mutex, the counter and the
 * condition variable they share.
 */
module ClientDrain {

  /** A client: counted but without its thread yet, then its thread from the answer to the last unlock. */
  datatype Client = New | Serving | Answered | Locked | Deregistered | Announced | Gone

  /**
   * The listening thread, which looks at the stop flag only before it selects. It holds the mutex
   * while Registering, Registered, Undoing, Undone and Told.
   */
  datatype Listener = Opening
                    | Polling
                    | Selecting
                    | Accepted
                    | Registering
                    | Registered(client: nat)
                    | Spawning(client: nat)
                    | Failed(client: nat)
                    | Undoing(client: nat)
                    | Undone
                    | Told
                    | Ended

  /** The stopping thread; it holds the mutex while Checking and Passed. */
  datatype Stopper = Idle | Joining | Joined | Checking | Sleeping | Woken | Passed | Destroyed

  datatype Owner = Nobody | ByListener | ByClient(client: nat) | ByStopper

  datatype State = State(
    stopping: bool,
    active: int,
    owner: Owner,
    listener: Listener,
    clients: seq<Client>,
    stopper: Stopper)

  const START: State := State(false, 0, Nobody, Opening, [], Idle)

  datatype Step =
    | Open(ok: bool)
    | Look
    | NoConnection
    | Accept
    | LockToRegister
    | Register
    | UnlockRegistered
    | Spawn(ok: bool)
    | LockToUndo
    | Undo
    | TellUndone
    | UnlockUndone
    | Quit
    | Answer(client: nat)
    | Lock(client: nat)
    | Deregister(client: nat)
    | Broadcast(client: nat)
    | Unlock(client: nat)
    | Stop
    | Join
    | LockToCheck
    | Check
    | Wake
    | Relock
    | Destroy

  predicate At(s: State, i: nat, c: Client) { i < |s.clients| && s.clients[i] == c }

  predicate Enabled(s: State, step: Step) {
    match step
    case Open(_) => s.listener.Opening?
    case Look => s.listener.Polling? && !s.stopping
    case NoConnection => s.listener.Selecting?
    case Accept => s.listener.Selecting?
    case LockToRegister => s.listener.Accepted? && s.owner.Nobody?
    case Register => s.listener.Registering?
    case UnlockRegistered => s.listener.Registered?
    case Spawn(_) => s.listener.Spawning? && s.listener.client < |s.clients|
    case LockToUndo => s.listener.Failed? && s.owner.Nobody?
    case Undo => s.listener.Undoing? && s.listener.client < |s.clients|
    case TellUndone => s.listener.Undone?
    case UnlockUndone => s.listener.Told?
    case Quit => s.listener.Polling? && s.stopping
    case Answer(i) => At(s, i, Serving)
    case Lock(i) => At(s, i, Answered) && s.owner.Nobody?
    case Deregister(i) => At(s, i, Locked)
    case Broadcast(i) => At(s, i, Deregistered)
    case Unlock(i) => At(s, i, Announced)
    case Stop => s.stopper.Idle?
    case Join => s.stopper.Joining? && s.listener.Ended?
    case LockToCheck => s.stopper.Joined? && s.owner.Nobody?
    case Check => s.stopper.Checking?
    case Wake => s.stopper.Sleeping?
    case Relock => s.stopper.Woken? && s.owner.Nobody?
    case Destroy => s.stopper.Passed?
  }

  /** What a broadcast does to the stopping thread. */
  function Told(stopper: Stopper): Stopper { if stopper.Sleeping? then Woken else stopper }

  function Next(s: State, step: Step): State
    requires Enabled(s, step)
  {
    match step
    case Open(ok) => s.(listener := if ok then Polling else Ended)
    case Look => s.(listener := Selecting)
    case NoConnection => s.(listener := Polling)
    case Accept => s.(listener := Accepted)
    case LockToRegister => s.(listener := Registering, owner := ByListener)
    case Register => s.(active := s.active + 1, clients := s.clients + [New], listener := Registered(|s.clients|))
    case UnlockRegistered => s.(listener := Spawning(s.listener.client), owner := Nobody)
    case Spawn(ok) =>
      if ok then s.(clients := s.clients[s.listener.client := Serving], listener := Polling)
      else s.(listener := Failed(s.listener.client))
    case LockToUndo => s.(listener := Undoing(s.listener.client), owner := ByListener)
    case Undo => s.(active := s.active - 1, clients := s.clients[s.listener.client := Gone], listener := Undone)
    case TellUndone => s.(stopper := Told(s.stopper), listener := Listener.Told)
    case UnlockUndone => s.(listener := Polling, owner := Nobody)
    case Quit => s.(listener := Ended)
    case Answer(i) => s.(clients := s.clients[i := Answered])
    case Lock(i) => s.(clients := s.clients[i := Locked], owner := ByClient(i))
    case Deregister(i) => s.(active := s.active - 1, clients := s.clients[i := Deregistered])
    case Broadcast(i) => s.(stopper := Told(s.stopper), clients := s.clients[i := Announced])
    case Unlock(i) => s.(clients := s.clients[i := Gone], owner := Nobody)
    case Stop => s.(stopping := true, stopper := Joining)
    case Join => s.(stopper := Joined)
    case LockToCheck => s.(stopper := Checking, owner := ByStopper)
    case Check => if s.active != 0 then s.(stopper := Sleeping, owner := Nobody) else s.(stopper := Passed)
    case Wake => s.(stopper := Woken)
    case Relock => s.(stopper := Checking, owner := ByStopper)
    case Destroy => s.(stopper := Destroyed, owner := Nobody)
  }

  ghost predicate Runs(s: State, steps: seq<Step>)
    decreases |steps|
  {
    steps == [] || (Enabled(s, steps[0]) && Runs(Next(s, steps[0]), steps[1..]))
  }

  ghost function Reached(s: State, steps: seq<Step>): State
    requires Runs(s, steps)
    decreases |steps|
  {
    if steps == [] then s else Reached(Next(s, steps[0]), steps[1..])
  }

  // ---------- The counter ----------

  /** The client is registered and not yet deregistered. */
  predicate Counted(c: Client) { c.New? || c.Serving? || c.Answered? || c.Locked? }

  function Count(clients: seq<Client>): nat {
    if clients == [] then 0
    else Count(clients[..|clients| - 1]) + if Counted(clients[|clients| - 1]) then 1 else 0
  }

  /** The steps a client still has to take. */
  function Weight(c: Client): nat {
    match c
    case New => 6
    case Serving => 5
    case Answered => 4
    case Locked => 3
    case Deregistered => 2
    case Announced => 1
    case Gone => 0
  }

  function Left(clients: seq<Client>): nat {
    if clients == [] then 0 else Left(clients[..|clients| - 1]) + Weight(clients[|clients| - 1])
  }

  lemma {:induction false} Updated(clients: seq<Client>, i: nat, c: Client)
    requires i < |clients|
    ensures Count(clients[i := c]) ==
      Count(clients) - (if Counted(clients[i]) then 1 else 0) + (if Counted(c) then 1 else 0)
    ensures Left(clients[i := c]) == Left(clients) - Weight(clients[i]) + Weight(c)
    decreases |clients|
  {
    var m := |clients| - 1;
    if i < m {
      Updated(clients[..m], i, c);
      assert clients[i := c][..m] == clients[..m][i := c];
    } else {
      assert clients[i := c][..m] == clients[..m];
    }
  }

  lemma Added(clients: seq<Client>, c: Client)
    ensures Count(clients + [c]) == Count(clients) + if Counted(c) then 1 else 0
    ensures Left(clients + [c]) == Left(clients) + Weight(c)
  {
    assert (clients + [c])[..|clients|] == clients;
  }

  lemma {:induction false} CountZero(clients: seq<Client>)
    ensures Count(clients) == 0 <==> forall i | 0 <= i < |clients| :: !Counted(clients[i])
  {
    if clients != [] { CountZero(clients[..|clients| - 1]); }
  }

  // ---------- The invariant ----------

  predicate Holds(l: Listener) { l.Registering? || l.Registered? || l.Undoing? || l.Undone? || l.Told? }

  predicate HoldsClient(c: Client) { c.Locked? || c.Deregistered? || c.Announced? }

  /** The mutex has the owner that the threads' places say, and so never two. */
  ghost predicate OwnerOk(s: State) {
    && (s.owner.ByListener? <==> Holds(s.listener))
    && (forall i | 0 <= i < |s.clients| :: s.owner == ByClient(i) <==> HoldsClient(s.clients[i]))
    && (s.owner.ByClient? ==> s.owner.client < |s.clients|)
    && (s.owner.ByStopper? <==> s.stopper.Checking? || s.stopper.Passed?)
  }

  /** A client without a thread is the one the listener is about to start or to undo. */
  ghost predicate NewOk(s: State) {
    var l := s.listener;
    && (l.Registered? || l.Spawning? || l.Failed? || l.Undoing? ==> At(s, l.client, New))
    && (forall i | 0 <= i < |s.clients| && s.clients[i].New? ::
         (l.Registered? || l.Spawning? || l.Failed? || l.Undoing?) && l.client == i)
  }

  predicate PastJoin(t: Stopper) { !t.Idle? && !t.Joining? }

  /** Once joined the listener has ended; a sleeping stopper is owed a broadcast; past the wait all are gone. */
  ghost predicate StopperOk(s: State) {
    && (PastJoin(s.stopper) ==> s.listener.Ended?)
    && (s.stopping <==> !s.stopper.Idle?)
    && (s.stopper.Sleeping? && s.active == 0 ==> s.owner.ByClient? && At(s, s.owner.client, Deregistered))
    && (s.stopper.Passed? || s.stopper.Destroyed? ==> forall i | 0 <= i < |s.clients| :: s.clients[i].Gone?)
  }

  ghost predicate Inv(s: State) {
    s.active == Count(s.clients) && OwnerOk(s) && NewOk(s) && StopperOk(s)
  }

  /** The steps of client threads. */
  predicate ClientsOwn(step: Step) {
    step.Answer? || step.Lock? || step.Deregister? || step.Broadcast? || step.Unlock?
  }

  /** A client's step moves that client on and leaves all others. */
  lemma ClientMoves(s: State, step: Step)
    requires Enabled(s, step) && ClientsOwn(step)
    ensures step.client < |s.clients|
    ensures
      var t, i, c := Next(s, step), step.client, s.clients[step.client];
      && t.clients == s.clients[i := t.clients[i]] && t.listener == s.listener && t.stopping == s.stopping
      && Weight(t.clients[i]) == Weight(c) - 1
      && t.active == s.active - (if Counted(c) then 1 else 0) + (if Counted(t.clients[i]) then 1 else 0)
      && t.stopper == if step.Broadcast? then Told(s.stopper) else s.stopper
  {}

  lemma CountKept(s: State, step: Step)
    requires Inv(s) && Enabled(s, step)
    ensures Next(s, step).active == Count(Next(s, step).clients)
  {
    hide StopperOk, OwnerOk, Count;
    if ClientsOwn(step) {
      hide Next, Enabled;
      ClientMoves(s, step);
      Updated(s.clients, step.client, Next(s, step).clients[step.client]);
    } else {
      match step {
        case Register => Added(s.clients, New);
        case Spawn(_) => Updated(s.clients, s.listener.client, Serving);
        case Undo => Updated(s.clients, s.listener.client, Gone);
        case _ =>
      }
    }
  }

  lemma OwnerKept(s: State, step: Step)
    requires Inv(s) && Enabled(s, step)
    ensures OwnerOk(Next(s, step))
  {
    hide *;
    OwnersAgree(s);
    if ClientsOwn(step) { ClientsOwnerKept(s, step); } else { OthersOwnerKept(s, step); }
  }

  lemma OwnersAgree(s: State)
    requires Inv(s)
    ensures OwnerOk(s) && NewOk(s)
  {
    hide OwnerOk, NewOk, StopperOk;
  }

  lemma ClientsOwnerKept(s: State, step: Step)
    requires OwnerOk(s) && Enabled(s, step) && ClientsOwn(step)
    ensures OwnerOk(Next(s, step))
  {}

  lemma OthersOwnerKept(s: State, step: Step)
    requires OwnerOk(s) && NewOk(s) && Enabled(s, step) && !ClientsOwn(step)
    ensures OwnerOk(Next(s, step))
  {}

  lemma NewKept(s: State, step: Step)
    requires Inv(s) && Enabled(s, step)
    ensures NewOk(Next(s, step))
  {
    hide *;
    OwnersAgree(s);
    if ClientsOwn(step) { ClientsNewKept(s, step); } else { OthersNewKept(s, step); }
  }

  lemma ClientsNewKept(s: State, step: Step)
    requires NewOk(s) && Enabled(s, step) && ClientsOwn(step)
    ensures NewOk(Next(s, step))
  {}

  lemma OthersNewKept(s: State, step: Step)
    requires NewOk(s) && Enabled(s, step) && !ClientsOwn(step)
    ensures NewOk(Next(s, step))
  {}

  lemma StopperKept(s: State, step: Step)
    requires Inv(s) && Enabled(s, step)
    ensures StopperOk(Next(s, step))
  {
    hide Count;
    CountZero(s.clients);
  }

  lemma StepKeeps(s: State, step: Step)
    requires Inv(s) && Enabled(s, step)
    ensures Inv(Next(s, step))
  {
    hide Enabled, Next, OwnerOk, NewOk, StopperOk, Count;
    CountKept(s, step);
    OwnerKept(s, step);
    NewKept(s, step);
    StopperKept(s, step);
  }

  lemma {:induction false} RunKeeps(s: State, steps: seq<Step>)
    requires Inv(s) && Runs(s, steps)
    ensures Inv(Reached(s, steps))
    decreases |steps|
  {
    hide Enabled, Next, Inv;
    if steps != [] {
      StepKeeps(s, steps[0]);
      RunKeeps(Next(s, steps[0]), steps[1..]);
    }
  }

  // ---------- What holds in every run ----------

  predicate StoppersOwn(step: Step) {
    step.Stop? || step.Join? || step.LockToCheck? || step.Check? || step.Wake? || step.Relock? || step.Destroy?
  }

  /**
   * For any number of connections and any interleaving: the counter is the number of clients
   * registered and not yet deregistered, failed thread starts included; and once stop has passed
   * its wait, the listener has ended, every client has made its last use of the server, and
   * nobody but the stopping thread can take another step.
   */
  lemma StopIsSafe(steps: seq<Step>)
    requires Runs(START, steps)
    ensures
      var s := Reached(START, steps);
      && s.active == Count(s.clients)
      && (s.stopper.Passed? || s.stopper.Destroyed? ==>
           && s.listener.Ended?
           && (forall i | 0 <= i < |s.clients| :: s.clients[i].Gone?)
           && (forall step | Enabled(s, step) :: StoppersOwn(step)))
  {
    hide Runs, Reached, Count, NewOk;
    StartIsOk();
    RunKeeps(START, steps);
  }

  lemma StartIsOk()
    ensures Inv(START)
  {}

  /** The listener's own broadcast, after a failed thread start, finds nobody waiting: only clients wake stop. */
  lemma ListenerWakesNobody(steps: seq<Step>)
    requires Runs(START, steps) && !Reached(START, steps).listener.Ended?
    ensures var t := Reached(START, steps).stopper; !PastJoin(t) && Told(t) == t
  {
    hide Runs, Reached, Count, OwnerOk, NewOk;
    StartIsOk();
    RunKeeps(START, steps);
  }

  // ---------- Stop returns ----------

  function Rank(t: Stopper): nat {
    match t
    case Idle => 6
    case Joining => 5
    case Joined => 4
    case Woken => 4
    case Checking => 3
    case Sleeping => 1
    case Passed => 1
    case Destroyed => 0
  }

  /** The rank drops enough at a registration to pay for the new client. */
  function ListenerRank(l: Listener): nat {
    match l
    case Selecting => 42
    case Accepted => 41
    case Registering => 40
    case Registered(_) => 10
    case Spawning(_) => 9
    case Failed(_) => 8
    case Undoing(_) => 7
    case Undone => 6
    case Told => 2
    case Opening => 2
    case Polling => 1
    case Ended => 0
  }

  /** An upper bound on the steps left once stop has been called. */
  function StepsLeft(s: State): nat { 4 * Left(s.clients) + Rank(s.stopper) + ListenerRank(s.listener) }

  lemma StepsRunOut(s: State, step: Step)
    requires Inv(s) && Enabled(s, step) && s.stopping && !step.Wake?
    ensures Next(s, step).stopping && StepsLeft(Next(s, step)) < StepsLeft(s)
  {
    hide Count, Left, OwnerOk;
    if ClientsOwn(step) {
      hide Next, Enabled, Inv;
      ClientMoves(s, step);
      Updated(s.clients, step.client, Next(s, step).clients[step.client]);
    } else {
      match step {
        case Register => Added(s.clients, New);
        case Spawn(_) => Updated(s.clients, s.listener.client, Serving);
        case Undo => Updated(s.clients, s.listener.client, Gone);
        case _ =>
      }
    }
  }

  /** The steps of the listener. */
  predicate ListenersOwn(step: Step) {
    !ClientsOwn(step) && !StoppersOwn(step)
  }

  /** Until it has ended the listener goes on, whether stop is called or not, but for a mutex in other hands. */
  lemma ListenerGoesOn(s: State)
    requires Inv(s) && !s.listener.Ended?
    requires s.listener.Accepted? || s.listener.Failed? ==> s.owner.Nobody?
    ensures exists step :: Enabled(s, step) && ListenersOwn(step)
  {
    hide Count;
    match s.listener {
      case Opening => assert Enabled(s, Open(true));
      case Polling => assert Enabled(s, if s.stopping then Quit else Look);
      case Selecting => assert Enabled(s, NoConnection);
      case Accepted => assert Enabled(s, LockToRegister);
      case Registering => assert Enabled(s, Register);
      case Registered(_) => assert Enabled(s, UnlockRegistered);
      case Spawning(_) => assert Enabled(s, Spawn(true));
      case Failed(_) => assert Enabled(s, LockToUndo);
      case Undoing(_) => assert Enabled(s, Undo);
      case Undone => assert Enabled(s, TellUndone);
      case Told => assert Enabled(s, UnlockUndone);
    }
  }

  lemma OwnerGoesOn(s: State)
    requires Inv(s) && s.owner.ByClient?
    ensures exists step :: Enabled(s, step) && !step.Wake?
  {
    hide Count;
    var i := s.owner.client;
    assert HoldsClient(s.clients[i]);
    match s.clients[i] {
      case Locked => assert Enabled(s, Deregister(i));
      case Deregistered => assert Enabled(s, Broadcast(i));
      case Announced => assert Enabled(s, Unlock(i));
    }
  }

  /** A stopper that sleeps while nobody holds the mutex waits for a client that can go on. */
  lemma SleeperIsAwaited(s: State)
    requires Inv(s) && s.stopper.Sleeping? && s.owner.Nobody?
    ensures exists step :: Enabled(s, step) && !step.Wake?
  {
    CountZero(s.clients);
    var i :| 0 <= i < |s.clients| && Counted(s.clients[i]);
    if s.clients[i].Serving? {
      assert Enabled(s, Answer(i));
    } else {
      assert Enabled(s, Lock(i));
    }
  }

  /** No wakeup is lost and nothing blocks: until the server is destroyed somebody can go on. */
  lemma SomebodyGoesOn(s: State)
    requires Inv(s) && s.stopping && !s.stopper.Destroyed?
    ensures exists step :: Enabled(s, step) && !step.Wake?
  {
    hide Count;
    if s.owner.ByClient? {
      OwnerGoesOn(s);
    } else if !s.listener.Ended? {
      ListenerGoesOn(s);
    } else {
      match s.stopper {
        case Joining => assert Enabled(s, Join);
        case Joined => assert Enabled(s, LockToCheck);
        case Checking => assert Enabled(s, Check);
        case Woken => assert Enabled(s, Relock);
        case Passed => assert Enabled(s, Destroy);
        case Sleeping => SleeperIsAwaited(s);
      }
    }
  }

  lemma {:induction false} RunsOut(s: State, steps: seq<Step>)
    requires Inv(s) && s.stopping && Runs(s, steps)
    requires forall i | 0 <= i < |steps| :: !steps[i].Wake?
    ensures |steps| + StepsLeft(Reached(s, steps)) <= StepsLeft(s) && Reached(s, steps).stopping
    decreases |steps|
  {
    hide Enabled, Next, Inv, StepsLeft;
    if steps != [] {
      StepsRunOut(s, steps[0]);
      StepKeeps(s, steps[0]);
      RunsOut(Next(s, steps[0]), steps[1..]);
    }
  }

  /**
   * Stop returns: once it is called only a bounded number of steps are left, spurious wakeups
   * aside, and a run that cannot go on has destroyed the server.
   */
  lemma StopReturns(before: seq<Step>, steps: seq<Step>)
    requires Runs(START, before) && Reached(START, before).stopping
    requires Runs(Reached(START, before), steps)
    requires forall i | 0 <= i < |steps| :: !steps[i].Wake?
    ensures
      var s := Reached(START, before);
      var t := Reached(s, steps);
      && |steps| <= StepsLeft(s)
      && ((forall step | Enabled(t, step) :: step.Wake?) ==> t.stopper.Destroyed?)
  {
    hide Runs, Reached, Inv, StepsLeft, Enabled;
    StartIsOk();
    RunKeeps(START, before);
    var s := Reached(START, before);
    RunsOut(s, steps);
    RunKeeps(s, steps);
    var t := Reached(s, steps);
    if !t.stopper.Destroyed? { SomebodyGoesOn(t); }
  }

  // ---------- Where every connection goes ----------

  /** How often a run accepted, started a thread, failed to, took a client back, and answered. */
  datatype Tally = Tally(accepted: nat, started: nat, failed: nat, undone: nat, answered: nat)

  function Noted(t: Tally, step: Step): Tally {
    match step
    case Accept => t.(accepted := t.accepted + 1)
    case Spawn(ok) => if ok then t.(started := t.started + 1) else t.(failed := t.failed + 1)
    case Undo => t.(undone := t.undone + 1)
    case Answer(_) => t.(answered := t.answered + 1)
    case _ => t
  }

  function TallyFrom(t: Tally, steps: seq<Step>): Tally
    decreases |steps|
  {
    if steps == [] then t else TallyFrom(Noted(t, steps[0]), steps[1..])
  }

  function TallyOf(steps: seq<Step>): Tally { TallyFrom(Tally(0, 0, 0, 0, 0), steps) }

  function Among(clients: seq<Client>, c: Client): nat {
    if clients == [] then 0
    else Among(clients[..|clients| - 1], c) + if clients[|clients| - 1] == c then 1 else 0
  }

  lemma {:induction false} AmongUpdated(clients: seq<Client>, i: nat, to: Client, c: Client)
    requires i < |clients|
    ensures Among(clients[i := to], c) ==
      Among(clients, c) - (if clients[i] == c then 1 else 0) + (if to == c then 1 else 0)
    decreases |clients|
  {
    var m := |clients| - 1;
    if i < m {
      AmongUpdated(clients[..m], i, to, c);
      assert clients[i := to][..m] == clients[..m][i := to];
    } else {
      assert clients[i := to][..m] == clients[..m];
    }
  }

  lemma AmongAdded(clients: seq<Client>, to: Client, c: Client)
    ensures Among(clients + [to], c) == Among(clients, c) + if to == c then 1 else 0
  {
    assert (clients + [to])[..|clients|] == clients;
  }

  lemma {:induction false} NoneAmong(clients: seq<Client>, c: Client)
    requires forall i | 0 <= i < |clients| :: clients[i] != c
    ensures Among(clients, c) == 0
  {
    if clients != [] { NoneAmong(clients[..|clients| - 1], c); }
  }

  ghost predicate Tallied(s: State, t: Tally) {
    && t.accepted == |s.clients| + (if s.listener.Accepted? || s.listener.Registering? then 1 else 0)
    && t.started == t.answered + Among(s.clients, Serving)
    && |s.clients| == t.started + t.undone + Among(s.clients, New)
    && t.failed == t.undone + (if s.listener.Failed? || s.listener.Undoing? then 1 else 0)
  }

  lemma ClientsTallied(s: State, step: Step, t: Tally)
    requires Enabled(s, step) && ClientsOwn(step) && Tallied(s, t)
    ensures Tallied(Next(s, step), Noted(t, step))
  {
    hide Among;
    ClientMoves(s, step);
    var to := Next(s, step).clients[step.client];
    AmongUpdated(s.clients, step.client, to, Serving);
    AmongUpdated(s.clients, step.client, to, New);
  }

  lemma StepTallied(s: State, step: Step, t: Tally)
    requires NewOk(s) && Enabled(s, step) && Tallied(s, t)
    ensures Tallied(Next(s, step), Noted(t, step))
  {
    hide Among;
    if ClientsOwn(step) {
      ClientsTallied(s, step, t);
    } else if step.Register? {
      AmongAdded(s.clients, New, New);
      AmongAdded(s.clients, New, Serving);
    } else if step.Spawn? && step.ok {
      AmongUpdated(s.clients, s.listener.client, Serving, New);
      AmongUpdated(s.clients, s.listener.client, Serving, Serving);
    } else if step.Undo? {
      AmongUpdated(s.clients, s.listener.client, Gone, New);
      AmongUpdated(s.clients, s.listener.client, Gone, Serving);
    }
  }

  lemma {:induction false} RunTallied(s: State, steps: seq<Step>, t: Tally)
    requires Inv(s) && Runs(s, steps) && Tallied(s, t)
    ensures Tallied(Reached(s, steps), TallyFrom(t, steps))
    decreases |steps|
  {
    hide Enabled, Next, Tallied, Noted, OwnerOk, NewOk, StopperOk;
    if steps != [] {
      StepKeeps(s, steps[0]);
      StepTallied(s, steps[0], t);
      RunTallied(Next(s, steps[0]), steps[1..], Noted(t, steps[0]));
    }
  }

  /**
   * In every run each accepted connection is registered, but for the one the listener is about to
   * register; and once the server is destroyed each was either answered, once, or its thread
   * could not be started.
   */
  lemma EveryConnectionIsServed(steps: seq<Step>)
    requires Runs(START, steps)
    ensures
      var s, t := Reached(START, steps), TallyOf(steps);
      && t.accepted == |s.clients| + (if s.listener.Accepted? || s.listener.Registering? then 1 else 0)
      && (s.stopper.Destroyed? ==> t.accepted == t.answered + t.failed && t.answered == t.started)
  {
    hide Runs, Reached, Count, OwnerOk, NewOk, TallyFrom;
    StartIsOk();
    RunKeeps(START, steps);
    RunTallied(START, steps, Tally(0, 0, 0, 0, 0));
    var s := Reached(START, steps);
    if s.stopper.Destroyed? {
      NoneAmong(s.clients, Serving);
      NoneAmong(s.clients, New);
    }
  }

  // ---------- Until stop is called ----------

  ghost predicate ListenerOk(s: State, heard: bool) {
    && (s.listener.Ended? ==> s.stopping || !heard)
    && (!s.listener.Opening? && !s.listener.Ended? ==> heard) && (heard ==> !s.listener.Opening?)
  }

  lemma {:induction false} ListenerFollows(s: State, steps: seq<Step>, heard: bool)
    requires Runs(s, steps) && ListenerOk(s, heard)
    ensures ListenerOk(Reached(s, steps), heard || Open(true) in steps)
    decreases |steps|
  {
    hide ListenerOk, Enabled, Next;
    if steps != [] {
      var now := heard || steps[0] == Open(true);
      ListenerStep(s, steps[0], heard);
      ListenerFollows(Next(s, steps[0]), steps[1..], now);
      assert Open(true) in steps <==> steps[0] == Open(true) || Open(true) in steps[1..];
    }
  }

  lemma ListenerStep(s: State, step: Step, heard: bool)
    requires Enabled(s, step) && ListenerOk(s, heard)
    ensures ListenerOk(Next(s, step), heard || step == Open(true))
  {}

  /** Once its socket is open the listener goes on until stop is called. */
  lemma ListenerStays(steps: seq<Step>)
    requires Runs(START, steps) && Open(true) in steps
    ensures Reached(START, steps).listener.Ended? ==> Reached(START, steps).stopping
    ensures !Reached(START, steps).listener.Opening?
  {
    hide Runs, Reached;
    StartListens();
    ListenerFollows(START, steps, false);
  }

  lemma StartListens()
    ensures ListenerOk(START, false)
  {}

  // ---------- Connections are served before stop is called, too ----------

  lemma Nowhere(s: State)
    ensures Runs(s, []) && Reached(s, []) == s
  {}

  lemma FirstStep(s: State, step: Step, rest: seq<Step>)
    requires Enabled(s, step) && Runs(Next(s, step), rest)
    ensures Runs(s, [step] + rest) && Reached(s, [step] + rest) == Reached(Next(s, step), rest)
  {
    hide Enabled, Next;
    assert ([step] + rest)[1..] == rest;
  }

  /** A run, and another from where it ends. */
  lemma {:induction false} RunsOn(s: State, a: seq<Step>, b: seq<Step>)
    requires Runs(s, a) && Runs(Reached(s, a), b)
    ensures Runs(s, a + b) && Reached(s, a + b) == Reached(Reached(s, a), b)
    decreases |a|
  {
    hide Enabled, Next;
    if a == [] {
      assert a + b == b;
    } else {
      RunsOn(Next(s, a[0]), a[1..], b);
      assert (a + b)[1..] == a[1..] + b;
    }
  }

  /** A listener that looks for a connection takes the one that comes, or none; and a client is answered at once. */
  lemma NobodyWaitsForStop(s: State)
    requires Inv(s)
    ensures s.listener.Opening? ==> forall ok :: Enabled(s, Open(ok))
    ensures s.listener.Selecting? ==> Enabled(s, Accept) && Enabled(s, NoConnection)
    ensures s.listener.Spawning? ==> forall ok :: Enabled(s, Spawn(ok))
    ensures forall i: nat | i < |s.clients| && s.clients[i].Serving? :: Enabled(s, Answer(i))
    ensures s.stopper.Idle? ==> Enabled(s, Step.Stop)
    ensures s.stopper.Sleeping? ==> Enabled(s, Wake)
  {
    hide Count, OwnerOk, StopperOk;
  }

  /** The stopping thread waits for the listener's end, for the mutex and for a broadcast, and for nothing else. */
  lemma StopperGoesOn(s: State)
    requires !s.stopper.Destroyed?
    requires (s.stopper.Joining? ==> s.listener.Ended?) && (s.stopper.Joined? || s.stopper.Woken? ==> s.owner.Nobody?)
    ensures exists step :: Enabled(s, step) && StoppersOwn(step)
  {
    match s.stopper {
      case Idle => assert Enabled(s, Step.Stop);
      case Joining => assert Enabled(s, Join);
      case Joined => assert Enabled(s, LockToCheck);
      case Checking => assert Enabled(s, Check);
      case Sleeping => assert Enabled(s, Wake);
      case Woken => assert Enabled(s, Relock);
      case Passed => assert Enabled(s, Destroy);
    }
  }

  /** With the mutex free an answered client deregisters, tells a stopper that sleeps, and is gone. */
  lemma ClientLeaves(s: State, i: nat)
    requires At(s, i, Answered) && s.owner.Nobody?
    ensures Runs(s, [Lock(i), Deregister(i), Broadcast(i), Unlock(i)])
    ensures Reached(s, [Lock(i), Deregister(i), Broadcast(i), Unlock(i)]) ==
      s.(active := s.active - 1, clients := s.clients[i := Gone], stopper := Told(s.stopper))
  {
    hide Runs, Reached;
    var locked := Next(s, Lock(i));
    var out := Next(locked, Deregister(i));
    var told := Next(out, Broadcast(i));
    assert [Unlock(i)] + [] == [Unlock(i)] && [Broadcast(i)] + [Unlock(i)] == [Broadcast(i), Unlock(i)];
    assert [Deregister(i)] + [Broadcast(i), Unlock(i)] == [Deregister(i), Broadcast(i), Unlock(i)];
    assert [Lock(i)] + [Deregister(i), Broadcast(i), Unlock(i)] == [Lock(i), Deregister(i), Broadcast(i), Unlock(i)];
    Nowhere(Next(told, Unlock(i)));
    FirstStep(told, Unlock(i), []);
    FirstStep(out, Broadcast(i), [Unlock(i)]);
    FirstStep(locked, Deregister(i), [Broadcast(i), Unlock(i)]);
    FirstStep(s, Lock(i), [Deregister(i), Broadcast(i), Unlock(i)]);
  }

  /** A client that is served is answered and gone, with the mutex free, whatever the others and stop do. */
  lemma ClientIsServed(s: State, i: nat)
    requires At(s, i, Serving) && s.owner.Nobody?
    ensures
      var steps := [Answer(i)] + [Lock(i), Deregister(i), Broadcast(i), Unlock(i)];
      && Runs(s, steps)
      && Reached(s, steps) == s.(active := s.active - 1, clients := s.clients[i := Gone], stopper := Told(s.stopper))
  {
    hide Runs, Reached;
    var answered := Next(s, Answer(i));
    ClientLeaves(answered, i);
    assert answered.clients[i := Gone] == s.clients[i := Gone];
    FirstStep(s, Answer(i), [Lock(i), Deregister(i), Broadcast(i), Unlock(i)]);
  }

  const START_CLIENT: seq<Step> := [LockToRegister, Register, UnlockRegistered, Spawn(true)]

  /** With the mutex free an accepted connection is registered and gets its thread. */
  lemma ConnectionRegistered(s: State)
    requires s.listener.Accepted? && s.owner.Nobody?
    ensures Runs(s, START_CLIENT)
    ensures Reached(s, START_CLIENT) ==
      s.(active := s.active + 1, clients := s.clients + [Serving], listener := Polling)
  {
    hide Runs, Reached;
    var locked := Next(s, LockToRegister);
    var entered := Next(locked, Register);
    var free := Next(entered, UnlockRegistered);
    assert (s.clients + [New])[|s.clients| := Serving] == s.clients + [Serving];
    Nowhere(Next(free, Spawn(true)));
    FirstStep(free, Spawn(true), []);
    FirstStep(entered, UnlockRegistered, [Spawn(true)] + []);
    FirstStep(locked, Register, [UnlockRegistered] + ([Spawn(true)] + []));
    FirstStep(s, LockToRegister, [Register] + ([UnlockRegistered] + ([Spawn(true)] + [])));
    assert START_CLIENT == [LockToRegister] + ([Register] + ([UnlockRegistered] + ([Spawn(true)] + [])));
  }

  const UNDO_CLIENT: seq<Step> := [LockToUndo, Undo, TellUndone, UnlockUndone]

  /** With the mutex free a client whose thread could not be started is taken back. */
  lemma ConnectionUndone(s: State)
    requires s.listener.Failed? && s.listener.client < |s.clients| && s.owner.Nobody?
    ensures Runs(s, UNDO_CLIENT)
    ensures Reached(s, UNDO_CLIENT) ==
      s.(active := s.active - 1, clients := s.clients[s.listener.client := Gone], listener := Polling,
         stopper := Told(s.stopper))
  {
    hide Runs, Reached;
    var locked := Next(s, LockToUndo);
    var undone := Next(locked, Undo);
    var told := Next(undone, TellUndone);
    Nowhere(Next(told, UnlockUndone));
    FirstStep(told, UnlockUndone, []);
    FirstStep(undone, TellUndone, [UnlockUndone] + []);
    FirstStep(locked, Undo, [TellUndone] + ([UnlockUndone] + []));
    FirstStep(s, LockToUndo, [Undo] + ([TellUndone] + ([UnlockUndone] + [])));
    assert UNDO_CLIENT == [LockToUndo] + ([Undo] + ([TellUndone] + ([UnlockUndone] + [])));
  }

  /** With the mutex free the listener gets back to where it looks at the stop flag. */
  lemma BackToPolling(s: State) returns (steps: seq<Step>)
    requires Inv(s) && s.owner.Nobody? && !s.listener.Ended?
    ensures Runs(s, steps) && forall step | step in steps :: ListenersOwn(step)
    ensures
      var t := Reached(s, steps);
      && t.listener.Polling? && t.owner.Nobody? && t.stopping == s.stopping && |t.clients| >= |s.clients|
      && forall i | 0 <= i < |s.clients| && !s.clients[i].New? :: t.clients[i] == s.clients[i]
  {
    hide Runs, Reached, Count, StopperOk;
    match s.listener {
      case Opening => Nowhere(Next(s, Open(true))); FirstStep(s, Open(true), []); steps := [Open(true)] + [];
      case Polling => Nowhere(s); steps := [];
      case Selecting => Nowhere(Next(s, NoConnection)); FirstStep(s, NoConnection, []); steps := [NoConnection] + [];
      case Accepted => ConnectionRegistered(s); steps := START_CLIENT;
      case Spawning(_) => Nowhere(Next(s, Spawn(true))); FirstStep(s, Spawn(true), []); steps := [Spawn(true)] + [];
      case Failed(_) => ConnectionUndone(s); steps := UNDO_CLIENT;
    }
  }

  /** From a listener that selects: one connection more is accepted, answered, and gone again. */
  lemma OneAnswered(s: State)
    requires s.listener.Selecting? && s.owner.Nobody?
    ensures
      var i := |s.clients|;
      var steps := [Accept] + (START_CLIENT + ([Answer(i)] + [Lock(i), Deregister(i), Broadcast(i), Unlock(i)]));
      && Runs(s, steps)
      && Reached(s, steps) == s.(clients := s.clients + [Gone], listener := Polling, stopper := Told(s.stopper))
  {
    hide Runs, Reached;
    var i := |s.clients|;
    var serving := [Answer(i)] + [Lock(i), Deregister(i), Broadcast(i), Unlock(i)];
    var accepted := Next(s, Accept);
    ConnectionRegistered(accepted);
    var started := Reached(accepted, START_CLIENT);
    ClientIsServed(started, i);
    assert started.clients[i := Gone] == s.clients + [Gone];
    RunsOn(accepted, START_CLIENT, serving);
    FirstStep(s, Accept, START_CLIENT + serving);
  }

  /**
   * As long as stop is not called and the listener has its socket: from any state with the mutex free one connection
   * more can be accepted and answered, and the others are not needed for it.
   */
  lemma OneMoreIsServed(s: State) returns (steps: seq<Step>, i: nat)
    requires Inv(s) && s.owner.Nobody? && !s.stopping && !s.listener.Ended?
    ensures Runs(s, steps) && Accept in steps && Answer(i) in steps && i >= |s.clients|
    ensures forall step | step in steps && ClientsOwn(step) :: step.client == i
    ensures
      var t := Reached(s, steps);
      && At(t, i, Gone) && t.owner.Nobody? && t.listener.Polling? && !t.stopping
      && forall j | 0 <= j < |s.clients| && !s.clients[j].New? :: t.clients[j] == s.clients[j]
  {
    hide Runs, Reached, Inv;
    var back := BackToPolling(s);
    var polling := Reached(s, back);
    assert Enabled(polling, Look);
    var selecting := Next(polling, Look);
    i := |polling.clients|;
    OneAnswered(selecting);
    var serving := [Accept] + (START_CLIENT + ([Answer(i)] + [Lock(i), Deregister(i), Broadcast(i), Unlock(i)]));
    FirstStep(polling, Look, serving);
    RunsOn(s, back, [Look] + serving);
    steps := back + ([Look] + serving);
    assert serving[0] == Accept && serving[1 + |START_CLIENT|] == Answer(i);
  }
}
