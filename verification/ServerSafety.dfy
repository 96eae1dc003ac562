/** What every interleaving of the server's threads keeps. */
module ServerSafety {
  import opened Prelude
  import opened ActiveIds
  import opened TaskQueue
  import opened Server

  /** What a worker in some phase has: a connection, an id, a place in a counter. */
  datatype Token = Owns(conn: Conn) | HoldsId(id: string) | InBusy | InTransfers

  predicate HasConn(p: Phase) {
    !p.Idle? && !p.HungUp? && !p.Stopped?
  }

  predicate IsBusy(p: Phase) {
    p.Busy? || p.Authenticated? || p.Holding? || p.Ending? || p.HungUp?
  }

  predicate Has(p: Phase, t: Token) {
    match t
    case Owns(c) => HasConn(p) && p.conn == c
    case HoldsId(id) => p.Holding? && p.id == id
    case InBusy => IsBusy(p)
    case InTransfers => Holds(p, Transferring)
  }

  function One(b: bool): nat { if b then 1 else 0 }

  /** How often the workers together have a token. */
  ghost function Tally(workers: seq<Phase>, t: Token): nat {
    if |workers| == 0 then 0 else Tally(workers[..|workers| - 1], t) + One(Has(workers[|workers| - 1], t))
  }

  lemma {:induction false} TallyUpdate(workers: seq<Phase>, w: nat, p: Phase, t: Token)
    requires w < |workers|
    ensures Tally(workers[w := p], t) == Tally(workers, t) - One(Has(workers[w], t)) + One(Has(p, t))
  {
    hide Has;
    var n := |workers| - 1;
    if w < n {
      TallyUpdate(workers[..n], w, p, t);
      assert workers[w := p][..n] == workers[..n][w := p];
    } else {
      assert workers[w := p][..n] == workers[..n];
    }
  }

  lemma {:induction false} TallyCounts(workers: seq<Phase>, w: nat, t: Token)
    requires w < |workers|
    ensures Tally(workers, t) >= One(Has(workers[w], t))
  {
    hide Has;
    var n := |workers| - 1;
    if w < n {
      TallyCounts(workers[..n], w, t);
    }
  }

  lemma {:induction false} TallyTwo(workers: seq<Phase>, v: nat, w: nat, t: Token)
    requires v < w < |workers|
    ensures Tally(workers, t) >= One(Has(workers[v], t)) + One(Has(workers[w], t))
  {
    hide Has;
    var n := |workers| - 1;
    if w < n {
      TallyTwo(workers[..n], v, w, t);
    } else {
      TallyCounts(workers[..n], v, t);
    }
  }

  lemma {:induction false} TallyFinds(workers: seq<Phase>, t: Token)
    requires Tally(workers, t) > 0
    ensures exists w :: 0 <= w < |workers| && Has(workers[w], t)
  {
    hide Has;
    var n := |workers| - 1;
    if !Has(workers[n], t) {
      TallyFinds(workers[..n], t);
      var w :| 0 <= w < n && Has(workers[..n][w], t);
      assert Has(workers[w], t);
    }
  }

  // ---- The invariant ----

  ghost function OfAcceptor(a: Acceptor, c: Conn): nat {
    One((a.Accepted? || a.Rejecting?) && a.conn == c)
  }

  /** In how many places a connection is: with the acceptor, queued, with a worker, or closed. */
  ghost function Places(s: State, c: Conn): nat {
    OfAcceptor(s.acceptor, c) + multiset(s.queue.items)[c] + Tally(s.workers, Owns(c)) + multiset(s.closed)[c]
  }

  ghost predicate ConnInv(s: State) {
    forall c: Conn :: Places(s, c) == One(c < s.accepted)
  }

  /** The table holds exactly the ids of the sessions with a reservation, each of them once. */
  ghost predicate SlotInv(s: State) {
    && |s.slots| == ACTIVE_CLIENT_MAX
    && forall id: string :: id != "" ==> Tally(s.workers, HoldsId(id)) == multiset(s.slots)[id] <= 1
  }

  /** An empty id is never reserved. */
  ghost predicate NamedInv(s: State) {
    forall w | 0 <= w < |s.workers| :: s.workers[w].Holding? ==> s.workers[w].id != ""
  }

  ghost predicate CountInv(s: State) {
    s.busyWorkers == Tally(s.workers, InBusy) && s.activeTransfers == Tally(s.workers, InTransfers)
  }

  ghost predicate Inv(s: State) {
    ConnInv(s) && SlotInv(s) && NamedInv(s) && CountInv(s)
  }

  ghost predicate OfWorker(e: Event) {
    !(e.Accept? || e.Enqueue? || e.CloseRejected? || e.AcceptorStops? || e.StopRunning? || e.ShutQueue?)
  }

  /** A step of a worker: what it gives up, and what it takes. */
  lemma WorkerStep(s: State, e: Event, k: Token)
    requires OfWorker(e) && Enabled(s, e)
    ensures Next(s, e).workers == s.workers[e.w := NextPhase(s, s.workers[e.w], e)]
    ensures Tally(Next(s, e).workers, k) ==
      Tally(s.workers, k) - One(Has(s.workers[e.w], k)) + One(Has(NextPhase(s, s.workers[e.w], e), k))
  {
    hide Has, Tally, Shared, NextPhase, WorkerEnabled;
    TallyUpdate(s.workers, e.w, NextPhase(s, s.workers[e.w], e), k);
  }

  /** A connection that the step moves leaves one place for another. */
  lemma ConnMoves(s: State, p: Phase, e: Event, c: Conn)
    requires OfWorker(e) && WorkerEnabled(s, p, e)
    ensures var (q, t) := (NextPhase(s, p, e), Shared(s, p, e));
      && One(Has(q, Owns(c))) + multiset(t.queue.items)[c] + multiset(t.closed)[c]
         == One(Has(p, Owns(c))) + multiset(s.queue.items)[c] + multiset(s.closed)[c]
      && t.acceptor == s.acceptor && t.accepted == s.accepted
  {
    hide Authenticate, Reserve, Release, Answer;
    if e.PopOne? && |s.queue.items| > 0 {
      assert s.queue.items == [s.queue.items[0]] + s.queue.items[1..];
    }
  }

  lemma WorkerKeepsConnections(s: State, e: Event)
    requires ConnInv(s) && OfWorker(e) && Enabled(s, e)
    ensures ConnInv(Next(s, e))
  {
    hide Tally, Has, Shared, NextPhase, WorkerEnabled;
    var t := Next(s, e);
    forall c: Conn ensures Places(t, c) == One(c < t.accepted) {
      assert Places(s, c) == One(c < s.accepted);
      WorkerStep(s, e, Owns(c));
      ConnMoves(s, s.workers[e.w], e, c);
    }
  }

  lemma CountMoves(s: State, p: Phase, e: Event)
    requires OfWorker(e) && WorkerEnabled(s, p, e)
    ensures var (q, t) := (NextPhase(s, p, e), Shared(s, p, e));
      && t.busyWorkers == s.busyWorkers - One(Has(p, InBusy)) + One(Has(q, InBusy))
      && t.activeTransfers == s.activeTransfers - One(Has(p, InTransfers)) + One(Has(q, InTransfers))
  {
    hide Authenticate, Reserve, Release, Answer, Pop;
  }

  lemma WorkerKeepsCounts(s: State, e: Event)
    requires CountInv(s) && OfWorker(e) && Enabled(s, e)
    ensures CountInv(Next(s, e))
  {
    hide Tally, Has, Shared, NextPhase, WorkerEnabled;
    WorkerStep(s, e, InBusy);
    WorkerStep(s, e, InTransfers);
    CountMoves(s, s.workers[e.w], e);
  }

  lemma WorkerKeepsNames(s: State, e: Event)
    requires NamedInv(s) && OfWorker(e) && Enabled(s, e)
    ensures NamedInv(Next(s, e))
  {
    hide Authenticate, Pop;
  }

  /** How many slots hold the id, with the holders of the id taken off. */
  ghost function Spare(slots: seq<string>, p: Phase, id: string): int {
    multiset(slots)[id] - One(Has(p, HoldsId(id)))
  }

  lemma ReserveMoves(slots: seq<string>, c: Conn, own: string, id: string)
    requires id != ""
    ensures var after := Reserve(slots, own);
      var q := if Answer(slots, own).Reserved? then Holding(c, own, Fresh) else Ending(c);
      && Spare(after, q, id) == Spare(slots, Authenticated(c, own), id)
      && (multiset(after)[id] > 1 ==> multiset(slots)[id] > 1)
  {
    hide Reserve;
    ReserveAddsOne(slots, own);
  }

  lemma FreeMoves(slots: seq<string>, c: Conn, own: string, stage: Stage, id: string)
    requires id != "" && own != "" && own in slots
    ensures var after := Release(slots, own);
      && Spare(after, Ending(c), id) == Spare(slots, Holding(c, own, stage), id)
      && (multiset(after)[id] > 1 ==> multiset(slots)[id] > 1)
  {
    hide Release;
    ReleaseTakesOne(slots, own);
  }

  /** Only a reservation and its release touch the table, each for the id of its own worker. */
  lemma SlotMoves(s: State, p: Phase, e: Event, id: string)
    requires OfWorker(e) && WorkerEnabled(s, p, e) && id != ""
    requires p.Holding? ==> p.id in s.slots && p.id != ""
    ensures var (q, t) := (NextPhase(s, p, e), Shared(s, p, e));
      && Spare(t.slots, q, id) == Spare(s.slots, p, id)
      && |t.slots| == |s.slots| && (multiset(t.slots)[id] > 1 ==> multiset(s.slots)[id] > 1)
  {
    if e.TryReserve? {
      hide Reserve, Spare, Answer;
      ReserveMoves(s.slots, p.conn, p.id, id);
    } else if e.Free? {
      hide Release, Spare;
      FreeMoves(s.slots, p.conn, p.id, p.stage, id);
    } else {
      hide Authenticate, Pop;
      assert Shared(s, p, e).slots == s.slots;
    }
  }

  lemma WorkerKeepsSlots(s: State, e: Event)
    requires SlotInv(s) && NamedInv(s) && OfWorker(e) && Enabled(s, e)
    ensures SlotInv(Next(s, e))
  {
    hide Tally, Has, Shared, NextPhase, WorkerEnabled;
    var (p, t) := (s.workers[e.w], Next(s, e));
    if p.Holding? {
      HolderIsListed(s, e.w);
    }
    forall id: string | id != "" ensures Tally(t.workers, HoldsId(id)) == multiset(t.slots)[id] <= 1 {
      assert Tally(s.workers, HoldsId(id)) == multiset(s.slots)[id];
      WorkerStep(s, e, HoldsId(id));
      SlotMoves(s, p, e, id);
    }
    SlotMoves(s, p, e, "x");
  }

  /** The id of a session with a reservation is in the table. */
  lemma HolderIsListed(s: State, w: nat)
    requires SlotInv(s) && NamedInv(s) && w < |s.workers| && s.workers[w].Holding?
    ensures s.workers[w].id in s.slots
  {
    hide Tally;
    TallyCounts(s.workers, w, HoldsId(s.workers[w].id));
    assert multiset(s.slots)[s.workers[w].id] >= 1;
  }

  lemma OtherKeepsInv(s: State, e: Event)
    requires Inv(s) && !OfWorker(e) && Enabled(s, e)
    ensures Inv(Next(s, e))
  {
    hide Tally, SlotInv, CountInv;
    var t := Next(s, e);
    SameWorkers(s, t);
    forall c: Conn ensures Places(t, c) == One(c < t.accepted) {
      assert Places(s, c) == One(c < s.accepted);
    }
  }

  lemma SameWorkers(s: State, t: State)
    requires t.workers == s.workers && t.slots == s.slots
    requires t.busyWorkers == s.busyWorkers && t.activeTransfers == s.activeTransfers
    ensures SlotInv(s) ==> SlotInv(t)
    ensures CountInv(s) ==> CountInv(t)
  {
    hide Tally;
  }

  lemma StepKeepsInv(s: State, e: Event)
    requires Inv(s) && Enabled(s, e)
    ensures Inv(Next(s, e))
  {
    hide ConnInv, SlotInv, CountInv, NamedInv, Next, Enabled;
    if OfWorker(e) {
      WorkerKeepsConnections(s, e);
      WorkerKeepsSlots(s, e);
      WorkerKeepsNames(s, e);
      WorkerKeepsCounts(s, e);
    } else {
      OtherKeepsInv(s, e);
    }
  }

  lemma {:induction false} TallyOfIdle(workers: seq<Phase>, t: Token)
    requires forall w | 0 <= w < |workers| :: workers[w].Idle?
    ensures Tally(workers, t) == 0
  {
    if |workers| > 0 {
      TallyOfIdle(workers[..|workers| - 1], t);
    }
  }

  lemma InitialInv(s: State)
    requires Initial(s)
    ensures Inv(s)
  {
    hide Tally;
    forall t: Token ensures Tally(s.workers, t) == 0 {
      TallyOfIdle(s.workers, t);
    }
    forall id: string | id != "" ensures multiset(s.slots)[id] == 0 {
      assert id !in s.slots;
    }
  }

  lemma {:induction false} RunsKeepInv(s: State, events: seq<Event>)
    requires Inv(s) && IsRun(s, events)
    ensures Inv(After(s, events))
    decreases |events|
  {
    hide Inv, Next, Enabled;
    if |events| > 0 {
      StepKeepsInv(s, events[0]);
      RunsKeepInv(Next(s, events[0]), events[1..]);
    }
  }
}
