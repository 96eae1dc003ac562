/** Authentication over whole runs: what has happened before a session may hold an id, and before it may transfer. */
module ServerAuth {
  import opened Prelude
  import opened ActiveIds
  import opened Server
  import KeyValue
  import Registry
  import ServerResults
  import Text

  // ---- One step ----

  /** The certificate, the AUTH payload and the registry all speak for the id. */
  ghost predicate Admitted(cert: Option<string>, payload: Option<string>, registry: Option<string>, id: string) {
    && cert == Some(id)
    && payload.Some? && KeyValue.Get(payload.value, "id", 64) == Some(id)
    && registry.Some? && Registry.Admits(Text.Split(registry.value), id)
  }

  /** The look at the AUTH message authenticates its own connection exactly for an admitted id, and ends it otherwise. */
  lemma AuthDecides(s: State, w: nat, cert: Option<string>, payload: Option<string>, registry: Option<string>)
    requires w < |s.workers| && s.workers[w].Busy?
    ensures var (t, conn) := (Next(s, Auth(w, cert, payload, registry)), s.workers[w].conn);
      && t == s.(workers := s.workers[w := t.workers[w]])
      && (forall id :: t.workers[w] == Authenticated(conn, id) <==> Admitted(cert, payload, registry, id))
      && (t.workers[w] == Ending(conn) <==> forall id :: !Admitted(cert, payload, registry, id))
  {
    hide Authenticate, Registry.Admits, Text.Split, KeyValue.Get;
    forall id ensures Authenticate(cert, payload, registry) == Some(id) <==> Admitted(cert, payload, registry, id) {
      ServerResults.AuthenticatedIff(cert, payload, registry, id);
    }
    if Authenticate(cert, payload, registry).Some? {
      assert Admitted(cert, payload, registry, Authenticate(cert, payload, registry).value);
    }
  }

  /** A reservation succeeds exactly for a new id with a slot free, and takes the first free one. */
  lemma ReserveDecides(s: State, w: nat)
    requires w < |s.workers| && s.workers[w].Authenticated?
    ensures var (t, p) := (Next(s, TryReserve(w)), s.workers[w]);
      && t == s.(slots := t.slots, workers := s.workers[w := t.workers[w]])
      && (if p.id != "" && p.id !in s.slots && "" in s.slots
          then t.workers[w] == Holding(p.conn, p.id, Fresh) && TakesFirst(s.slots, p.id, t.slots)
          else t.workers[w] == Ending(p.conn) && t.slots == s.slots)
  {
    FirstIsTaken(s.slots, s.workers[w].id);
  }

  // ---- Runs ----

  /** The worker has an authenticated client with this id. */
  predicate Serves(p: Phase, c: Conn, id: string) {
    (p.Authenticated? || p.Holding?) && p.conn == c && p.id == id
  }

  /** The worker's session has got its AUTH_OK. */
  predicate IsGreeted(p: Phase, c: Conn, id: string) {
    p.Holding? && p.conn == c && p.id == id && (p.stage.Greeted? || p.stage.Transferring?)
  }

  /** In a run, an event at position `k` found the worker in this phase. */
  ghost predicate Found(s: State, events: seq<Event>, k: nat, w: nat, p: Phase)
    requires k <= |events|
  {
    var t := After(s, events[..k]);
    w < |t.workers| && t.workers[w] == p
  }

  ghost predicate AuthAt(s: State, events: seq<Event>, k: nat, w: nat, c: Conn, id: string)
    requires k < |events|
  {
    var e := events[k];
    e.Auth? && e.w == w && Admitted(e.cert, e.payload, e.registry, id) && Found(s, events, k, w, Busy(c))
  }

  ghost predicate AuthOkAt(s: State, events: seq<Event>, k: nat, w: nat, c: Conn, id: string)
    requires k < |events|
  {
    events[k] == SendAuthOk(w, true) && Found(s, events, k, w, Holding(c, id, Fresh))
  }

  lemma StepServes(s: State, e: Event, w: nat, c: Conn, id: string)
    requires w < |s.workers| && Enabled(s, e)
    requires Serves(Next(s, e).workers[w], c, id) && !Serves(s.workers[w], c, id)
    ensures s.workers[w] == Busy(c) && e.Auth? && e.w == w && Admitted(e.cert, e.payload, e.registry, id)
  {
    hide Authenticate, Registry.Admits, Text.Split, KeyValue.Get, Admitted;
    if e.Auth? && e.w == w {
      AuthDecides(s, w, e.cert, e.payload, e.registry);
    }
  }

  lemma StepGreets(s: State, e: Event, w: nat, c: Conn, id: string)
    requires w < |s.workers| && Enabled(s, e)
    requires IsGreeted(Next(s, e).workers[w], c, id) && !IsGreeted(s.workers[w], c, id)
    ensures s.workers[w] == Holding(c, id, Fresh) && e == SendAuthOk(w, true)
  {
    hide Authenticate;
  }

  lemma SameWorkers(s: State, e: Event)
    ensures |Next(s, e).workers| == |s.workers|
  {
    hide NextPhase;
  }

  lemma Later(s: State, events: seq<Event>, k: nat)
    requires 0 < |events| && k < |events|
    ensures After(Next(s, events[0]), events[1..][..k]) == After(s, events[..k + 1])
  {
    hide Next;
    assert events[..k + 1][1..] == events[1..][..k] && events[..k + 1][0] == events[0];
  }

  lemma {:induction false} ServedWasAdmitted(s: State, events: seq<Event>, w: nat, c: Conn, id: string)
    requires IsRun(s, events) && w < |s.workers| && !Serves(s.workers[w], c, id)
    requires w < |After(s, events).workers| && Serves(After(s, events).workers[w], c, id)
    ensures exists k :: 0 <= k < |events| && AuthAt(s, events, k, w, c, id)
    decreases |events|
  {
    hide Next, Enabled, Admitted;
    if |events| > 0 {
      var s1 := Next(s, events[0]);
      SameWorkers(s, events[0]);
      if Serves(s1.workers[w], c, id) {
        StepServes(s, events[0], w, c, id);
        assert events[..0] == [];
        assert AuthAt(s, events, 0, w, c, id);
      } else {
        ServedWasAdmitted(s1, events[1..], w, c, id);
        var k :| 0 <= k < |events[1..]| && AuthAt(s1, events[1..], k, w, c, id);
        Later(s, events, k);
        assert AuthAt(s, events, k + 1, w, c, id);
      }
    }
  }

  lemma {:induction false} GreetedWasSent(s: State, events: seq<Event>, w: nat, c: Conn, id: string)
    requires IsRun(s, events) && w < |s.workers| && !IsGreeted(s.workers[w], c, id)
    requires w < |After(s, events).workers| && IsGreeted(After(s, events).workers[w], c, id)
    ensures exists k :: 0 <= k < |events| && AuthOkAt(s, events, k, w, c, id)
    decreases |events|
  {
    hide Next, Enabled;
    if |events| > 0 {
      var s1 := Next(s, events[0]);
      SameWorkers(s, events[0]);
      if IsGreeted(s1.workers[w], c, id) {
        StepGreets(s, events[0], w, c, id);
        assert events[..0] == [];
        assert AuthOkAt(s, events, 0, w, c, id);
      } else {
        GreetedWasSent(s1, events[1..], w, c, id);
        var k :| 0 <= k < |events[1..]| && AuthOkAt(s1, events[1..], k, w, c, id);
        Later(s, events, k);
        assert AuthOkAt(s, events, k + 1, w, c, id);
      }
    }
  }

  lemma {:induction false} WorkersStay(s: State, events: seq<Event>)
    ensures |After(s, events).workers| == |s.workers|
    decreases |events|
  {
    hide Next;
    if |events| > 0 {
      SameWorkers(s, events[0]);
      WorkersStay(Next(s, events[0]), events[1..]);
    }
  }

  /**
   Over every run: a worker with an authenticated client, from the authentication to the release of its id, has had
   an AUTH of its own, for this connection, in which certificate, payload and registry all spoke for this id.
   */
  lemma ServedOnlyIfAdmitted(s: State, events: seq<Event>, w: nat)
    requires Initial(s) && IsRun(s, events) && w < |After(s, events).workers|
    ensures var p := After(s, events).workers[w];
      p.Authenticated? || p.Holding? ==> exists k :: 0 <= k < |events| && AuthAt(s, events, k, w, p.conn, p.id)
  {
    hide After, IsRun, Next, Admitted;
    WorkersStay(s, events);
    var p := After(s, events).workers[w];
    if p.Authenticated? || p.Holding? {
      ServedWasAdmitted(s, events, w, p.conn, p.id);
    }
  }

  /** So AUTH_OK is sent only for an id that was admitted on this connection. */
  lemma AuthOkOnlyIfAdmitted(s: State, events: seq<Event>, w: nat, ok: bool)
    requires Initial(s) && IsRun(s, events) && Enabled(After(s, events), SendAuthOk(w, ok))
    ensures var p := After(s, events).workers[w];
      p.Holding? && exists k :: 0 <= k < |events| && AuthAt(s, events, k, w, p.conn, p.id)
  {
    hide After, IsRun, Initial, Next, Admitted;
    ServedOnlyIfAdmitted(s, events, w);
  }

  /** And a session goes on, to a transfer or without one, only after its AUTH_OK went out. */
  lemma TransferOnlyAfterAuthOk(s: State, events: seq<Event>, w: nat)
    requires Initial(s) && IsRun(s, events) && w < |After(s, events).workers|
    ensures var p := After(s, events).workers[w];
      Holds(p, Greeted) || Holds(p, Transferring) ==>
        exists k :: 0 <= k < |events| && AuthOkAt(s, events, k, w, p.conn, p.id)
  {
    hide After, IsRun, Next;
    WorkersStay(s, events);
    var p := After(s, events).workers[w];
    if Holds(p, Greeted) || Holds(p, Transferring) {
      GreetedWasSent(s, events, w, p.conn, p.id);
    }
  }

  // ---- After the stop ----

  /** The worker has no session, and is not about to start one. */
  predicate NoSession(p: Phase) {
    p.Idle? || p.Popped? || p.Quitting? || p.Stopped?
  }

  /** Once the server has been told to stop, a worker without a session starts none: what it still pops it closes. */
  lemma {:induction false} NoSessionAfterStop(s: State, events: seq<Event>, w: nat)
    requires IsRun(s, events) && !s.running && w < |s.workers| && NoSession(s.workers[w])
    ensures var t := After(s, events); !t.running && w < |t.workers| && NoSession(t.workers[w])
    decreases |events|
  {
    if |events| > 0 {
      NoSessionStep(s, events[0], w);
      hide Next, Enabled, NoSession;
      NoSessionAfterStop(Next(s, events[0]), events[1..], w);
    }
  }

  lemma NoSessionStep(s: State, e: Event, w: nat)
    requires Enabled(s, e) && !s.running && w < |s.workers| && NoSession(s.workers[w])
    ensures var t := Next(s, e); !t.running && w < |t.workers| && NoSession(t.workers[w])
  {
    hide Authenticate;
  }
}
