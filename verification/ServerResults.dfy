/** What the server's invariant means, for every run from the start. */
module ServerResults {
  import opened Prelude
  import opened ActiveIds
  import opened TaskQueue
  import opened Server
  import opened ServerSafety
  import KeyValue
  import Registry
  import Rows
  import Text

  lemma ReachableInv(s: State, events: seq<Event>)
    requires Initial(s) && IsRun(s, events)
    ensures Inv(After(s, events))
  {
    hide Initial, Inv, IsRun, After;
    InitialInv(s);
    RunsKeepInv(s, events);
  }

  // ---- Sessions ----

  /** No two slots hold the same id. */
  predicate NoTwins(slots: seq<string>) {
    forall i, j | 0 <= i < j < |slots| && slots[i] != "" :: slots[i] != slots[j]
  }

  predicate HoldsFor(p: Phase, id: string) { p.Holding? && p.id == id }

  /**
   Session exclusivity: the non-empty slots are exactly the ids of the sessions with a reservation, no id
   has two slots, and no two sessions hold the same id.
   */
  lemma SessionExclusivity(s: State, events: seq<Event>)
    requires Initial(s) && IsRun(s, events)
    ensures var t := After(s, events);
      && (forall id: string | id != "" :: id in t.slots <==> exists w :: 0 <= w < |t.workers| && HoldsFor(t.workers[w], id))
      && NoTwins(t.slots)
      && (forall v, w | 0 <= v < w < |t.workers| && t.workers[v].Holding? :: !HoldsFor(t.workers[w], t.workers[v].id))
  {
    hide After, IsRun, Initial, Tally;
    ReachableInv(s, events);
    var t := After(s, events);
    forall id: string | id != "" ensures id in t.slots <==> exists w :: 0 <= w < |t.workers| && HoldsFor(t.workers[w], id) {
      ListedIffHeld(t, id);
    }
    SlotsApart(t);
    forall v, w | 0 <= v < w < |t.workers| && t.workers[v].Holding? ensures !HoldsFor(t.workers[w], t.workers[v].id) {
      HoldersApart(t, v, w);
    }
  }

  lemma ListedIffHeld(t: State, id: string)
    requires Inv(t) && id != ""
    ensures id in t.slots <==> exists w :: 0 <= w < |t.workers| && HoldsFor(t.workers[w], id)
  {
    hide Tally, ConnInv, CountInv;
    assert Tally(t.workers, HoldsId(id)) == multiset(t.slots)[id];
    if id in t.slots {
      assert multiset(t.slots)[id] > 0;
      TallyFinds(t.workers, HoldsId(id));
      var w :| 0 <= w < |t.workers| && Has(t.workers[w], HoldsId(id));
      assert HoldsFor(t.workers[w], id);
    }
    forall w | 0 <= w < |t.workers| && HoldsFor(t.workers[w], id) ensures id in t.slots {
      HolderIsListed(t, w);
    }
  }

  lemma SlotsApart(t: State)
    requires SlotInv(t)
    ensures NoTwins(t.slots)
  {
    hide Tally;
    forall i, j | 0 <= i < j < |t.slots| && t.slots[i] != "" ensures t.slots[i] != t.slots[j] {
      assert Tally(t.workers, HoldsId(t.slots[i])) == multiset(t.slots)[t.slots[i]];
      if t.slots[i] == t.slots[j] {
        CountedTwice(t.slots, i, j);
      }
    }
  }

  lemma HoldersApart(t: State, v: nat, w: nat)
    requires SlotInv(t) && NamedInv(t) && v < |t.workers| && w < |t.workers| && v != w && t.workers[v].Holding?
    ensures !HoldsFor(t.workers[w], t.workers[v].id)
  {
    hide Tally;
    var k := HoldsId(t.workers[v].id);
    assert Tally(t.workers, k) <= 1;
    TallyTwo(t.workers, if v < w then v else w, if v < w then w else v, k);
  }

  /**
   Who is authenticated: exactly a client whose AUTH payload names its own certificate, with a registry that is
   well formed throughout and has an enabled row for it.
   */
  lemma AuthenticatedIff(cert: Option<string>, payload: Option<string>, registry: Option<string>, id: string)
    ensures Authenticate(cert, payload, registry) == Some(id) <==>
      && cert == Some(id) && payload.Some? && KeyValue.Get(payload.value, "id", Rows.MAX_ID_LEN) == Some(id)
      && registry.Some? && Registry.Admits(Text.Split(registry.value), id)
  {
    hide Registry.StatusOf, Registry.RowsOf, Registry.Admits, Text.Split, KeyValue.Get;
    if registry.Some? {
      Registry.OkExactlyWhenEnabled(Text.Split(registry.value), id);
    }
  }

  /** AUTH_OK goes only to a session that holds its id in the table, and that holds it alone. */
  lemma AuthOkOnlyToHolder(s: State, events: seq<Event>, w: nat, ok: bool)
    requires Initial(s) && IsRun(s, events) && Enabled(After(s, events), SendAuthOk(w, ok))
    ensures var t := After(s, events);
      && t.workers[w].Holding? && t.workers[w].id in t.slots
      && forall v | 0 <= v < |t.workers| && v != w :: !HoldsFor(t.workers[v], t.workers[w].id)
  {
    hide After, IsRun, Initial, Tally;
    ReachableInv(s, events);
    var t := After(s, events);
    HolderIsListed(t, w);
    forall v | 0 <= v < |t.workers| && v != w ensures !HoldsFor(t.workers[v], t.workers[w].id) {
      HoldersApart(t, w, v);
    }
  }

  /** A second session for an id in use is turned away, and the table is left as it is. */
  lemma DuplicateIsTurnedAway(s: State, v: nat, w: nat)
    requires Inv(s) && v < |s.workers| && s.workers[v].Holding?
    requires w < |s.workers| && s.workers[w].Authenticated? && s.workers[w].id == s.workers[v].id
    ensures var t := Next(s, TryReserve(w));
      t.workers[w] == Ending(s.workers[w].conn) && t.slots == s.slots && t.workers[v] == s.workers[v]
  {
    hide Tally, ConnInv, CountInv;
    HolderIsListed(s, v);
  }

  /** While the worker of a session does nothing itself, no other thread can free its reservation. */
  lemma {:induction false} ReservationLasts(s: State, events: seq<Event>, v: nat)
    requires Inv(s) && IsRun(s, events) && v < |s.workers| && s.workers[v].Holding?
    requires forall i | 0 <= i < |events| :: OfWorker(events[i]) ==> events[i].w != v
    ensures var t := After(s, events); v < |t.workers| && t.workers[v] == s.workers[v] && s.workers[v].id in t.slots
    decreases |events|
  {
    if |events| == 0 {
      hide Tally, ConnInv, CountInv;
      HolderIsListed(s, v);
    } else {
      hide Inv;
      OthersLeaveWorker(s, events[0], v);
      StepKeepsInv(s, events[0]);
      hide Next, Enabled;
      ReservationLasts(Next(s, events[0]), events[1..], v);
    }
  }

  lemma OthersLeaveWorker(s: State, e: Event, v: nat)
    requires v < |s.workers| && (OfWorker(e) ==> e.w != v)
    ensures v < |Next(s, e).workers| && Next(s, e).workers[v] == s.workers[v]
  {
    hide NextPhase, Shared, Accepts, Push;
  }

  // ---- Counters ----

  ghost function With(workers: seq<Phase>, t: Token): set<nat> {
    set w: nat | w < |workers| && Has(workers[w], t)
  }

  lemma {:induction false} TallyIsSize(workers: seq<Phase>, t: Token)
    ensures Tally(workers, t) == |With(workers, t)|
  {
    hide Has;
    if |workers| == 0 {
      assert With(workers, t) == {};
    } else {
      var n := |workers| - 1;
      TallyIsSize(workers[..n], t);
      WithSnoc(workers, t);
      hide With;
    }
  }

  lemma WithSnoc(workers: seq<Phase>, t: Token)
    requires |workers| > 0
    ensures var n := |workers| - 1;
      var front := With(workers[..n], t);
      n !in front && With(workers, t) == if Has(workers[n], t) then front + {n} else front
  {
    hide Has;
  }

  /** At every counter-update boundary the two counters are the numbers of workers in those phases. */
  lemma CountersMatch(s: State, events: seq<Event>)
    requires Initial(s) && IsRun(s, events)
    ensures var t := After(s, events);
      && t.busyWorkers == |set w: nat | w < |t.workers| && IsBusy(t.workers[w])|
      && t.activeTransfers == |set w: nat | w < |t.workers| && Holds(t.workers[w], Transferring)|
  {
    hide After, IsRun, Initial, Tally;
    ReachableInv(s, events);
    var t := After(s, events);
    TallyIsSize(t.workers, InBusy);
    TallyIsSize(t.workers, InTransfers);
    assert With(t.workers, InBusy) == set w: nat | w < |t.workers| && IsBusy(t.workers[w]);
    assert With(t.workers, InTransfers) == set w: nat | w < |t.workers| && Holds(t.workers[w], Transferring);
  }

  // ---- Connections ----

  predicate OwnedBy(p: Phase, c: Conn) { HasConn(p) && p.conn == c }

  predicate WithAcceptor(a: Acceptor, c: Conn) { (a.Accepted? || a.Rejecting?) && a.conn == c }

  predicate OwnedBySome(workers: seq<Phase>, c: Conn) {
    exists w :: 0 <= w < |workers| && OwnedBy(workers[w], c)
  }

  /** Exactly one of four. */
  predicate OneOf(a: bool, b: bool, c: bool, d: bool) {
    One(a) + One(b) + One(c) + One(d) == 1
  }

  lemma {:induction false} TallyNone(workers: seq<Phase>, t: Token)
    requires forall w | 0 <= w < |workers| :: !Has(workers[w], t)
    ensures Tally(workers, t) == 0
  {
    if |workers| > 0 {
      TallyNone(workers[..|workers| - 1], t);
    }
  }

  lemma OwnedIffTally(workers: seq<Phase>, c: Conn)
    ensures OwnedBySome(workers, c) <==> Tally(workers, Owns(c)) > 0
  {
    hide Tally;
    if Tally(workers, Owns(c)) > 0 {
      TallyFinds(workers, Owns(c));
      var w :| 0 <= w < |workers| && Has(workers[w], Owns(c));
      assert OwnedBy(workers[w], c);
    } else if OwnedBySome(workers, c) {
      var w :| 0 <= w < |workers| && OwnedBy(workers[w], c);
      TallyCounts(workers, w, Owns(c));
    }
  }

  /**
   Until the queue is destroyed, each accepted connection is in exactly one place: with the acceptor,
   queued, with a worker, or closed; it has one owner, and it is closed at most once.
   */
  lemma ExactlyOnePlace(s: State, events: seq<Event>, c: Conn)
    requires Initial(s) && IsRun(s, events) && c < After(s, events).accepted
    ensures var t := After(s, events);
      && OneOf(WithAcceptor(t.acceptor, c), c in t.queue.items, OwnedBySome(t.workers, c), c in t.closed)
      && multiset(t.closed)[c] <= 1 && multiset(t.queue.items)[c] <= 1
      && forall v, w | 0 <= v < w < |t.workers| && OwnedBy(t.workers[v], c) :: !OwnedBy(t.workers[w], c)
  {
    hide After, IsRun, Initial, Tally, SlotInv, CountInv;
    ReachableInv(s, events);
    var t := After(s, events);
    assert Places(t, c) == 1;
    OwnedIffTally(t.workers, c);
    assert c in t.queue.items <==> multiset(t.queue.items)[c] > 0;
    assert c in t.closed <==> multiset(t.closed)[c] > 0;
    forall v, w | 0 <= v < w < |t.workers| && OwnedBy(t.workers[v], c) ensures !OwnedBy(t.workers[w], c) {
      TallyTwo(t.workers, v, w, Owns(c));
    }
  }

  predicate AllDone(s: State) {
    s.acceptor.Over? && forall w | 0 <= w < |s.workers| :: s.workers[w].Stopped?
  }

  /** Once every thread is done, a connection has been closed exactly when it is not left in the queue. */
  lemma ClosedIffNotQueued(s: State, events: seq<Event>, c: Conn)
    requires Initial(s) && IsRun(s, events) && AllDone(After(s, events)) && c < After(s, events).accepted
    ensures c in After(s, events).closed <==> c !in After(s, events).queue.items
  {
    hide After, IsRun, Initial;
    ExactlyOnePlace(s, events, c);
    var t := After(s, events);
    assert !OwnedBySome(t.workers, c);
  }

  /** And one can be left there: the workers leave their loop before they look at the queue again. */
  lemma QueuedConnectionIsNeverClosed(s: State)
    requires Initial(s) && |s.workers| == 1 && s.queue == Fifo([], 1, false)
    ensures var events := [Accept, Enqueue, AcceptorStops, StopRunning, ShutQueue, LeaveLoop(0)];
      && IsRun(s, events) && AllDone(After(s, events))
      && After(s, events).queue.items == [0] && After(s, events).closed == []
  {
    hide After, IsRun;
    var s1 := s.(acceptor := Accepted(0), accepted := 1);
    var s2 := s1.(acceptor := Listening, queue := Fifo([0], 1, false));
    var s3 := s2.(acceptor := Over);
    var s4 := s3.(running := false);
    var s5 := s4.(queue := Fifo([0], 1, true));
    var s6 := s5.(workers := s.workers[0 := Stopped]);
    NothingLeft(s6);
    OneFirst(s5, LeaveLoop(0), [], s6);
    var e5 := [LeaveLoop(0)] + [];
    OneFirst(s4, ShutQueue, e5, s6);
    var e4 := [ShutQueue] + e5;
    OneFirst(s3, StopRunning, e4, s6);
    var e3 := [StopRunning] + e4;
    OneFirst(s2, AcceptorStops, e3, s6);
    var e2 := [AcceptorStops] + e3;
    assert s1.queue.items + [0] == [0];
    OneFirst(s1, Enqueue, e2, s6);
    var e1 := [Enqueue] + e2;
    OneFirst(s, Accept, e1, s6);
    assert [Accept] + e1 == [Accept, Enqueue, AcceptorStops, StopRunning, ShutQueue, LeaveLoop(0)];
  }

  ghost predicate Leads(s: State, events: seq<Event>, t: State) {
    IsRun(s, events) && After(s, events) == t
  }

  lemma NothingLeft(s: State)
    ensures Leads(s, [], s)
  {
  }

  lemma OneFirst(s: State, e: Event, rest: seq<Event>, t: State)
    requires Enabled(s, e) && Leads(Next(s, e), rest, t)
    ensures Leads(s, [e] + rest, t)
  {
    hide Next, Enabled;
    assert ([e] + rest)[1..] == rest;
  }
}
