/**
 When an installed update is counted by the server. A PAUSE that the session thread finds after its last chunk ends
 the session as an error, at once, whether the RESULT is already there or not.
 */
module TransferCounting {
  import opened Prelude
  import opened Messages
  import opened Transfer
  import opened TransferSafety
  import S = PackageService
  import D = Downloader
  import Hex
  import SemVer

  // ---- What happens to a connection, as events of a run ----

  /** The `k`-th event: the thread of connection `i`, waiting for the RESULT, finds a PAUSE. */
  predicate FindsPauseAt(s: State, evs: seq<Event>, i: nat, k: nat)
    requires k < |evs|
  {
    FindsPause(After(s, evs[..k]), evs[k], i)
  }

  /** The `k`-th event: the thread of connection `i` ends by itself, after a failure of the network or the disk. */
  predicate DropsAt(s: State, evs: seq<Event>, i: nat, k: nat)
    requires k < |evs|
  {
    Drops(After(s, evs[..k]), evs[k], i)
  }

  /** The `k`-th event: the client sends RESULT ok on connection `i`. */
  predicate ReportsAt(s: State, evs: seq<Event>, i: nat, k: nat)
    requires k < |evs|
  {
    Reports(After(s, evs[..k]), evs[k], i)
  }

  predicate FindsPause(s: State, ev: Event, i: nat) {
    ev == OnServer(i, TakeResult) && Can(s, ev) && ConnAt(s, i).toServer[0].Pause?
  }

  predicate Drops(s: State, ev: Event, i: nat) {
    ev == OnServer(i, Drop) && Can(s, ev)
  }

  predicate Reports(s: State, ev: Event, i: nat) {
    ev == OnClient(Report(true)) && Can(s, ev) && |s.past| == i
  }

  // ---- The same as flags that a run sets ----

  /** What has happened so far; `done` is TRANSFER_DONE sent, `refused` RESULT checksum_fail sent. */
  datatype Fate = Fate(done: bool, dropped: bool, paused: bool, reported: bool, refused: bool)

  function NextFate(f: Fate, s: State, ev: Event, i: nat): Fate {
    Fate(f.done || (ev == OnServer(i, SendDone) && Can(s, ev)),
         f.dropped || Drops(s, ev, i),
         f.paused || FindsPause(s, ev, i),
         f.reported || Reports(s, ev, i),
         f.refused || Refuses(s, ev, i))
  }

  predicate Refuses(s: State, ev: Event, i: nat) {
    && ev.OnClient? && ev.c.Check? && Can(s, ev) && |s.past| == i
    && !ClientStep(s, ev.c).client.Renaming?
  }

  function FateAfter(s: State, evs: seq<Event>, i: nat): Fate {
    if |evs| == 0 then Fate(false, false, false, false, false)
    else NextFate(FateAfter(s, evs[..|evs| - 1], i), After(s, evs[..|evs| - 1]), evs[|evs| - 1], i)
  }

  /** The flags say whether such an event has occurred. */
  lemma {:induction false} FateIsHistory(s: State, evs: seq<Event>, i: nat)
    ensures var f := FateAfter(s, evs, i);
      && (f.paused <==> exists k: nat :: k < |evs| && FindsPauseAt(s, evs, i, k))
      && (f.dropped <==> exists k: nat :: k < |evs| && DropsAt(s, evs, i, k))
      && (f.reported <==> exists k: nat :: k < |evs| && ReportsAt(s, evs, i, k))
  {
    hide After, FindsPause, Drops, Reports, Refuses;
    if |evs| > 0 {
      var n := |evs| - 1;
      FateIsHistory(s, evs[..n], i);
      forall k: nat | k < n
        ensures FindsPauseAt(s, evs[..n], i, k) == FindsPauseAt(s, evs, i, k)
        ensures DropsAt(s, evs[..n], i, k) == DropsAt(s, evs, i, k)
        ensures ReportsAt(s, evs[..n], i, k) == ReportsAt(s, evs, i, k)
      {
        assert evs[..n][..k] == evs[..k];
      }
      hide FindsPauseAt, DropsAt, ReportsAt;
      LastEvent(s, evs, i);
      Extends((k: nat) => k < |evs| && FindsPauseAt(s, evs, i, k), (k: nat) => k < n && FindsPauseAt(s, evs[..n], i, k), n);
      Extends((k: nat) => k < |evs| && DropsAt(s, evs, i, k), (k: nat) => k < n && DropsAt(s, evs[..n], i, k), n);
      Extends((k: nat) => k < |evs| && ReportsAt(s, evs, i, k), (k: nat) => k < n && ReportsAt(s, evs[..n], i, k), n);
    }
  }

  lemma Extends(p: nat -> bool, q: nat -> bool, n: nat)
    requires forall k: nat :: p(k) <==> q(k) || (k == n && p(n))
    ensures (exists k: nat :: p(k)) <==> (exists k: nat :: q(k)) || p(n)
  {
  }

  lemma LastEvent(s: State, evs: seq<Event>, i: nat)
    requires |evs| > 0
    ensures var (n, t) := (|evs| - 1, After(s, evs[..|evs| - 1]));
      && FindsPauseAt(s, evs, i, n) == FindsPause(t, evs[n], i)
      && DropsAt(s, evs, i, n) == Drops(t, evs[n], i) && ReportsAt(s, evs, i, n) == Reports(t, evs[n], i)
  {
  }

  // ---- The invariant ----

  predicate HasDone(msgs: seq<ServerMsg>) {
    exists j | 0 <= j < |msgs| :: msgs[j].Done?
  }

  /** How a connection stands, given what has happened to it. */
  predicate FateOk(c: Conn, f: Fate) {
    && (c.counted ==> c.server.Closed? && !f.paused && !f.dropped)
    && (f.paused || f.dropped ==> c.server.Closed?)
    && (f.done ==> Over(c.server))
    && (c.server.AwaitResult? || HasDone(c.toClient) ==> f.done)
    && (f.done && c.server.Closed? ==> f.dropped || f.paused || c.counted || f.refused)
    && (f.reported ==> f.done && !f.refused)
    && (f.reported && c.server.AwaitResult? ==> Result(true) in c.toServer)
    && (Result(false) in c.toServer ==> f.refused)
  }

  /** How the place of the client agrees with what has happened to the live connection. */
  predicate ClientFate(client: D.Client, f: Fate) {
    match client
    case Ended(_) => true
    case AwaitBye(_) => true
    case WritingRow(_) => true
    case AwaitOffer => !f.reported && !f.refused
    case Receiving(_) => !f.reported && !f.refused
    case Holding(_) => !f.reported && !f.refused
    case _ => f.done && !f.reported && !f.refused
  }

  ghost predicate Fated(s: State, evs: seq<Event>) {
    var t := After(s, evs);
    && (forall i: nat | i <= |t.past| :: FateOk(ConnAt(t, i), FateAfter(s, evs, i)))
    && (forall i: nat | i > |t.past| :: FateAfter(s, evs, i) == Fate(false, false, false, false, false))
    && ClientFate(t.client, FateAfter(s, evs, |t.past|))
  }

  // ---- Steps of the server ----

  /** What a step of the thread does to the flags of its connection. */
  function ServerFate(f: Fate, c: Conn, e: ServerEvent): Fate
    requires ServerCan(c, e)
  {
    match e
    case SendDone => f.(done := true)
    case Drop => f.(dropped := true)
    case TakeResult => if c.toServer[0].Pause? then f.(paused := true) else f
    case _ => f
  }

  lemma ServerKeepsFate(c: Conn, f: Fate, e: ServerEvent, manifest: Manifest)
    requires ConnOk(c) && FateOk(c, f) && ServerCan(c, e)
    ensures FateOk(ServerStep(c, e, manifest), ServerFate(f, c, e))
  {
    hide SemVer.CompareText, SemVer.Older, MessageOk;
    match e {
      case TakeResult => ResultKeepsFate(c, f, manifest);
      case SendDone => DoneKeepsFate(c, f, manifest);
      case TakeVersion => QuietKeepsFate(c, f, e, manifest);
      case Drop => hide Alternates, HasResult;
      case _ => QuietKeepsFate(c, f, e, manifest);
    }
  }

  lemma ResultKeepsFate(c: Conn, f: Fate, manifest: Manifest)
    requires ConnOk(c) && FateOk(c, f) && ServerCan(c, TakeResult)
    ensures FateOk(ServerStep(c, TakeResult, manifest), ServerFate(f, c, TakeResult))
  {
    hide SemVer.Older, MessageOk;
    var d := ServerStep(c, TakeResult, manifest);
    assert c.toServer[0].Pause? || (c.toServer[0].Result? && |c.toServer| == 1);
    assert f.done;
    if c.toServer[0].Result? && !c.toServer[0].ok {
      assert Result(false) in c.toServer;
    }
    assert Result(false) in d.toServer ==> Result(false) in c.toServer;
  }

  lemma DoneKeepsFate(c: Conn, f: Fate, manifest: Manifest)
    requires ConnOk(c) && FateOk(c, f) && ServerCan(c, SendDone)
    ensures FateOk(ServerStep(c, SendDone, manifest), ServerFate(f, c, SendDone))
  {
    hide SemVer.Older, MessageOk, Alternates, HasResult, HasDone;
  }

  /** The steps before TRANSFER_DONE. */
  lemma QuietKeepsFate(c: Conn, f: Fate, e: ServerEvent, manifest: Manifest)
    requires ConnOk(c) && FateOk(c, f) && ServerCan(c, e) && !e.TakeResult? && !e.SendDone? && !e.Drop?
    ensures FateOk(ServerStep(c, e, manifest), f)
  {
    hide SemVer.CompareText, SemVer.Older, MessageOk, Alternates;
    var d := ServerStep(c, e, manifest);
    assert !Over(c.server);
    assert forall j | 0 <= j < |c.toClient| :: !c.toClient[j].Done?;
    assert !HasDone(d.toClient);
    assert forall m :: m in d.toServer ==> m in c.toServer;
  }

  lemma NoFateElsewhere(f: Fate, s: State, ev: Event, i: nat)
    requires ev.OnServer? && ev.conn != i
    ensures NextFate(f, s, ev, i) == f
  {
  }

  lemma FateOfServer(f: Fate, s: State, i: nat, e: ServerEvent)
    requires Can(s, OnServer(i, e))
    ensures NextFate(f, s, OnServer(i, e), i) == ServerFate(f, ConnAt(s, i), e)
  {
    hide ServerStep;
  }

  lemma ServerFateKeepsClient(client: D.Client, f: Fate, c: Conn, e: ServerEvent)
    requires ServerCan(c, e) && ClientFate(client, f)
    ensures ClientFate(client, ServerFate(f, c, e))
  {
  }

  // ---- Steps of the client ----

  /** What a step of the client does to the flags of the live connection. */
  function StepFate(f: Fate, s: State, e: ClientEvent): Fate
    requires ClientCan(s, e)
  {
    f.(reported := f.reported || e == Report(true),
       refused := f.refused || (e.Check? && !ClientStep(s, e).client.Renaming?))
  }

  lemma FateOfClient(f: Fate, s: State, e: ClientEvent, i: nat)
    requires Can(s, OnClient(e))
    ensures NextFate(f, s, OnClient(e), i) == if i == |s.past| then StepFate(f, s, e) else f
  {
    hide ClientStep, ClientCan;
  }

  lemma ReportKeepsFate(s: State, f: Fate, e: ClientEvent)
    requires LiveOk(s.client, s.live) && FateOk(s.live, f) && ClientFate(s.client, f)
    requires ClientCan(s, e) && (e.Report? || e.Check?)
    ensures FateOk(ClientStep(s, e).live, StepFate(f, s, e)) && ClientFate(ClientStep(s, e).client, StepFate(f, s, e))
  {
    hide ConnOk, HasDone, D.HexDigest, Hex.EqualIgnoringCase;
    assert s.live.toServer + [] == s.live.toServer;
  }

  lemma TakeKeepsFate(s: State, f: Fate, e: ClientEvent)
    requires LiveOk(s.client, s.live) && FateOk(s.live, f) && ClientFate(s.client, f)
    requires ClientCan(s, e) && (e.TakeReply? || e.TakeFrame?)
    ensures FateOk(ClientStep(s, e).live, f) && ClientFate(ClientStep(s, e).client, f)
  {
    hide ConnOk, ClientOk, D.HexDigest, Hex.EqualIgnoringCase, SemVer.Valid;
    var (c, t) := (s.live, ClientStep(s, e));
    assert c.toServer + [] == c.toServer;
    assert t.live.toClient == c.toClient[1..];
    assert HasDone(t.live.toClient) ==> HasDone(c.toClient) by {
      forall j | 0 <= j < |t.live.toClient| && t.live.toClient[j].Done? ensures HasDone(c.toClient) {
        assert c.toClient[j + 1].Done?;
      }
    }
    assert c.toClient[0].Done? ==> HasDone(c.toClient);
  }

  lemma RestKeepsFate(s: State, f: Fate, e: ClientEvent)
    requires LiveOk(s.client, s.live) && FateOk(s.live, f) && ClientFate(s.client, f)
    requires ClientCan(s, e) && !e.TakeReply? && !e.TakeFrame? && !e.Report? && !e.Check?
    ensures FateOk(ClientStep(s, e).live, f) && ClientFate(ClientStep(s, e).client, f)
  {
    hide ConnOk, ClientOk, HasDone, D.Flushed;
    assert s.live.toServer + [] == s.live.toServer;
  }

  lemma ClientKeepsFate(s: State, f: Fate, e: ClientEvent)
    requires LiveOk(s.client, s.live) && FateOk(s.live, f) && ClientFate(s.client, f) && ClientCan(s, e)
    ensures FateOk(ClientStep(s, e).live, StepFate(f, s, e)) && ClientFate(ClientStep(s, e).client, StepFate(f, s, e))
  {
    hide LiveOk, FateOk, ClientFate, ClientStep, ClientCan;
    if e.Report? || e.Check? {
      ReportKeepsFate(s, f, e);
    } else if e.TakeReply? || e.TakeFrame? {
      TakeKeepsFate(s, f, e);
    } else {
      RestKeepsFate(s, f, e);
    }
  }

  lemma ClientKeepsPast(s: State, e: ClientEvent)
    requires ClientCan(s, e)
    ensures ClientStep(s, e).past == s.past
  {
    hide D.OnOffer, D.OnFrame, D.OnHash;
  }

  // ---- Runs ----

  lemma FateSnoc(s: State, evs: seq<Event>, ev: Event, i: nat)
    ensures After(s, evs + [ev]) == Next(After(s, evs), ev)
    ensures FateAfter(s, evs + [ev], i) == NextFate(FateAfter(s, evs, i), After(s, evs), ev, i)
  {
    hide Next, NextFate;
    assert (evs + [ev])[..|evs|] == evs;
  }

  lemma ServerKeepsFated(s: State, evs: seq<Event>, i: nat, e: ServerEvent)
    requires Initial(s) && Fated(s, evs) && Can(After(s, evs), OnServer(i, e))
    ensures Fated(s, evs + [OnServer(i, e)])
  {
    hide After, FateAfter, NextFate, FateOk, ClientFate, ServerCan, ServerStep, ServerFate, Next, Safe, ConnOk;
    var (t, ev) := (After(s, evs), OnServer(i, e));
    RunsAreSafe(s, evs);
    SafeConn(t, i);
    ServerStepShape(t, i, e);
    var u := Next(t, ev);
    FateSnoc(s, evs, ev, i);
    FateOfServer(FateAfter(s, evs, i), t, i, e);
    ServerKeepsFate(ConnAt(t, i), FateAfter(s, evs, i), e, t.manifest);
    forall j: nat | j != i ensures FateAfter(s, evs + [ev], j) == FateAfter(s, evs, j) {
      FateSnoc(s, evs, ev, j);
      NoFateElsewhere(FateAfter(s, evs, j), t, ev, j);
    }
    if i == |t.past| {
      ServerFateKeepsClient(t.client, FateAfter(s, evs, i), ConnAt(t, i), e);
    }
  }

  lemma SafeConn(t: State, i: nat)
    requires Safe(t) && i <= |t.past|
    ensures ConnOk(ConnAt(t, i))
  {
    hide ConnOk, ClientOk, InstallsOk, ProgressOk, RunOk;
  }

  lemma ClientKeepsFated(s: State, evs: seq<Event>, e: ClientEvent)
    requires Initial(s) && Fated(s, evs) && Can(After(s, evs), OnClient(e))
    ensures Fated(s, evs + [OnClient(e)])
  {
    hide After, FateAfter, NextFate, FateOk, ClientFate, ClientCan, ClientStep, StepFate, Safe, LiveOk;
    var (t, ev) := (After(s, evs), OnClient(e));
    var n := |t.past|;
    RunsAreSafe(s, evs);
    LiveIsSafe(t);
    ClientKeepsPast(t, e);
    assert ConnAt(t, n) == t.live;
    ClientKeepsFate(t, FateAfter(s, evs, n), e);
    forall j: nat
      ensures FateAfter(s, evs + [ev], j) == if j == n then StepFate(FateAfter(s, evs, n), t, e) else FateAfter(s, evs, j)
    {
      FateSnoc(s, evs, ev, j);
      FateOfClient(FateAfter(s, evs, j), t, e, j);
    }
    FateSnoc(s, evs, ev, n);
  }

  lemma OtherHasNoFate(f: Fate, s: State, ev: Event, i: nat)
    requires (!ev.OnClient? && !ev.OnServer?) || !Can(s, ev)
    ensures NextFate(f, s, ev, i) == f
  {
  }

  lemma OtherKeepsFated(s: State, evs: seq<Event>, ev: Event)
    requires Fated(s, evs) && ((!ev.OnClient? && !ev.OnServer?) || !Can(After(s, evs), ev))
    ensures Fated(s, evs + [ev])
  {
    hide After, FateAfter, NextFate, ServerStep, ClientStep;
    var t := After(s, evs);
    forall j: nat ensures FateAfter(s, evs + [ev], j) == FateAfter(s, evs, j) {
      FateSnoc(s, evs, ev, j);
      OtherHasNoFate(FateAfter(s, evs, j), t, ev, j);
    }
    FateSnoc(s, evs, ev, 0);
    var u := Next(t, ev);
    forall j: nat | j <= |u.past| ensures FateOk(ConnAt(u, j), FateAfter(s, evs, j)) {
      assert j <= |t.past| ==> FateOk(ConnAt(t, j), FateAfter(s, evs, j)) && ConnAt(u, j) == ConnAt(t, j);
    }
  }

  lemma {:induction false} RunsAreFated(s: State, evs: seq<Event>)
    requires Initial(s)
    ensures Fated(s, evs)
  {
    if |evs| > 0 {
      hide Fated, Next, Can;
      var (init, ev) := (evs[..|evs| - 1], evs[|evs| - 1]);
      assert evs == init + [ev];
      RunsAreFated(s, init);
      if ev.OnServer? && Can(After(s, init), ev) {
        ServerKeepsFated(s, init, ev.conn, ev.e);
      } else if ev.OnClient? && Can(After(s, init), ev) {
        ClientKeepsFated(s, init, ev.c);
      } else {
        OtherKeepsFated(s, init, ev);
      }
    }
  }

  /**
   When an update is counted, for every run: take a session whose client has reported the update installed, and
   whose thread has ended. It has been counted exactly when the thread never found a PAUSE where it waited for
   the RESULT, and did not end by a failure of its own.
   */
  lemma CountedIffNoPauseFound(s: State, evs: seq<Event>, i: nat)
    requires Initial(s) && i <= |After(s, evs).past| && ConnAt(After(s, evs), i).server.Closed?
    requires exists k: nat :: k < |evs| && ReportsAt(s, evs, i, k)
    ensures ConnAt(After(s, evs), i).counted <==>
      forall k: nat | k < |evs| :: !FindsPauseAt(s, evs, i, k) && !DropsAt(s, evs, i, k)
  {
    hide After, FateAfter, FindsPauseAt, DropsAt, ReportsAt;
    RunsAreFated(s, evs);
    FateIsHistory(s, evs, i);
    assert FateOk(ConnAt(After(s, evs), i), FateAfter(s, evs, i));
  }
}
