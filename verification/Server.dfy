/**
 The server's threads as one state machine: the acceptor (src/server/acceptor.c), the workers and their
 sessions (src/server/worker.c), over the shared queue, table of active ids and counters. Every step is one
 critical section or one atomic operation; the threads interleave freely.
 */
module Server {
  import opened Prelude
  import opened ActiveIds
  import opened TaskQueue
  import KeyValue
  import Registry
  import Rows
  import Text

  /** An accepted connection, numbered in the order of the `accept` calls. */
  type Conn = nat

  datatype Acceptor = Listening | Accepted(conn: Conn) | Rejecting(conn: Conn) | Over

  /** How far a session with a reservation has come. */
  datatype Stage = Fresh | Greeted | Transferring | Leaving

  /** Where a worker stands; the boundaries are its operations on shared state. */
  datatype Phase =
    | Idle
    | Popped(conn: Conn)
    | Starting(conn: Conn)
    | Busy(conn: Conn)
    | Authenticated(conn: Conn, id: string)
    | Holding(conn: Conn, id: string, stage: Stage)
    | Ending(conn: Conn)
    | HungUp
    | Quitting(conn: Conn)
    | Stopped

  datatype State = State(
    running: bool,
    queue: Fifo<Conn>,
    acceptor: Acceptor,
    workers: seq<Phase>,
    slots: seq<string>,
    accepted: nat,
    closed: seq<Conn>,
    busyWorkers: int,
    activeTransfers: int)

  /**
   `authenticate_client` as a decision: the id in the AUTH payload is the certificate's name, and enabled in what
   the scan gets to see of the registry.
   */
  function Authenticate(cert: Option<string>, payload: Option<string>, registry: Option<string>): (id: Option<string>)
    ensures id.Some? ==> cert == id
  {
    if cert.None? || payload.None? || registry.None? then None
    else
      var claimed := KeyValue.Get(payload.value, "id", Rows.MAX_ID_LEN);
      if claimed == cert && Registry.StatusOf(Registry.RowsOf(Text.Split(registry.value)), cert.value) == Registry.Status.Ok
      then cert else None
  }

  datatype Event =
    // the acceptor
    | Accept
    | Enqueue
    | CloseRejected
    | AcceptorStops
    // a worker
    | PopOne(w: nat)
    | CheckRunning(w: nat)
    | CountBusy(w: nat)
    | HandshakeFails(w: nat)
    | Auth(w: nat, cert: Option<string>, payload: Option<string>, registry: Option<string>)
    | TryReserve(w: nat)
    | SendAuthOk(w: nat, ok: bool)
    | StartTransfer(w: nat)
    | EndTransfer(w: nat)
    | Finish(w: nat)
    | Free(w: nat)
    | Close(w: nat)
    | UncountBusy(w: nat)
    | LeaveLoop(w: nat)
    // the main thread
    | StopRunning
    | ShutQueue

  predicate Holds(p: Phase, stage: Stage) {
    p.Holding? && p.stage == stage
  }

  ghost predicate Enabled(s: State, e: Event) {
    match e
    case Accept => s.acceptor.Listening?
    case Enqueue => s.acceptor.Accepted?
    case CloseRejected => s.acceptor.Rejecting?
    case AcceptorStops => s.acceptor.Listening?
    case StopRunning => true
    case ShutQueue => true
    case _ => e.w < |s.workers| && WorkerEnabled(s, s.workers[e.w], e)
  }

  ghost predicate WorkerEnabled(s: State, p: Phase, e: Event) {
    match e
    case PopOne(_) => p.Idle? && Pop(s.queue).1 != Wait
    case CheckRunning(_) => p.Popped?
    case CountBusy(_) => p.Starting?
    case HandshakeFails(_) => p.Busy?
    case Auth(_, _, _, _) => p.Busy?
    case TryReserve(_) => p.Authenticated?
    case SendAuthOk(_, _) => Holds(p, Fresh)
    case StartTransfer(_) => Holds(p, Greeted)
    case EndTransfer(_) => Holds(p, Transferring)
    case Finish(_) => Holds(p, Greeted)
    case Free(_) => Holds(p, Leaving)
    case Close(_) => p.Ending? || p.Quitting?
    case UncountBusy(_) => p.HungUp?
    case LeaveLoop(_) => p.Idle? && !s.running
    case _ => false
  }

  function Next(s: State, e: Event): State {
    match e
    case Accept => s.(acceptor := Accepted(s.accepted), accepted := s.accepted + 1)
    case Enqueue =>
      if !s.acceptor.Accepted? then s
      else if Accepts(s.queue) then s.(queue := Push(s.queue, s.acceptor.conn), acceptor := Listening)
      else s.(acceptor := Rejecting(s.acceptor.conn))
    case CloseRejected =>
      if !s.acceptor.Rejecting? then s else s.(closed := s.closed + [s.acceptor.conn], acceptor := Listening)
    case AcceptorStops => s.(acceptor := Over)
    case StopRunning => s.(running := false)
    case ShutQueue => s.(queue := s.queue.(shutdown := true))
    case _ =>
      if e.w >= |s.workers| then s
      else
        var p := s.workers[e.w];
        Shared(s, p, e).(workers := s.workers[e.w := NextPhase(s, p, e)])
  }

  /** The worker's own move. */
  function NextPhase(s: State, p: Phase, e: Event): Phase {
    match e
    case PopOne(_) => if Pop(s.queue).1.Got? then Popped(Pop(s.queue).1.item) else Stopped
    case CheckRunning(_) => if !p.Popped? then p else if s.running then Starting(p.conn) else Quitting(p.conn)
    case CountBusy(_) => if p.Starting? then Busy(p.conn) else p
    case HandshakeFails(_) => if p.Busy? then Ending(p.conn) else p
    case Auth(_, cert, payload, registry) =>
      if !p.Busy? then p
      else if Authenticate(cert, payload, registry).Some? then
        Authenticated(p.conn, Authenticate(cert, payload, registry).value)
      else Ending(p.conn)
    case TryReserve(_) =>
      if !p.Authenticated? then p
      else if Answer(s.slots, p.id).Reserved? then Holding(p.conn, p.id, Fresh)
      else Ending(p.conn)
    case SendAuthOk(_, ok) => if p.Holding? then p.(stage := if ok then Greeted else Leaving) else p
    case StartTransfer(_) => if p.Holding? then p.(stage := Transferring) else p
    case EndTransfer(_) => if p.Holding? then p.(stage := Leaving) else p
    case Finish(_) => if p.Holding? then p.(stage := Leaving) else p
    case Free(_) => if p.Holding? then Ending(p.conn) else p
    case Close(_) => if p.Ending? then HungUp else Stopped
    case UncountBusy(_) => Idle
    case LeaveLoop(_) => Stopped
    case _ => p
  }

  /** What the move does to the shared state. */
  function Shared(s: State, p: Phase, e: Event): State {
    match e
    case PopOne(_) => s.(queue := Pop(s.queue).0)
    case CountBusy(_) => s.(busyWorkers := s.busyWorkers + 1)
    case TryReserve(_) => if p.Authenticated? then s.(slots := Reserve(s.slots, p.id)) else s
    case StartTransfer(_) => s.(activeTransfers := s.activeTransfers + 1)
    case EndTransfer(_) => s.(activeTransfers := s.activeTransfers - 1)
    case Free(_) => if p.Holding? then s.(slots := Release(s.slots, p.id)) else s
    case Close(_) => if p.Ending? || p.Quitting? then s.(closed := s.closed + [p.conn]) else s
    case UncountBusy(_) => s.(busyWorkers := s.busyWorkers - 1)
    case _ => s
  }

  ghost predicate Initial(s: State) {
    && s.queue.items == [] && s.acceptor.Listening? && s.accepted == 0 && s.closed == []
    && s.busyWorkers == 0 && s.activeTransfers == 0
    && (forall w | 0 <= w < |s.workers| :: s.workers[w].Idle?)
    && |s.slots| == ACTIVE_CLIENT_MAX && (forall i | 0 <= i < |s.slots| :: s.slots[i] == "")
  }

  ghost predicate IsRun(s: State, events: seq<Event>)
    decreases |events|
  {
    |events| > 0 ==> Enabled(s, events[0]) && IsRun(Next(s, events[0]), events[1..])
  }

  ghost function After(s: State, events: seq<Event>): State
    decreases |events|
  {
    if |events| == 0 then s else After(Next(s, events[0]), events[1..])
  }
}
