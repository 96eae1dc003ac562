/**
 What holds in every reachable state of the transfer system, whatever the server's disk and manifest
 do: the pause handshake, one manifest per session, and install safety.
 */
module TransferSafety {
  import opened Prelude
  import opened Messages
  import opened Transfer
  import S = PackageService
  import D = Downloader
  import Hex
  import SemVer

  // ---- Control messages ----

  /** PAUSE and RESUME alternate, RESUME first when the stream is held; a RESULT may end the list. */
  predicate Alternates(msgs: seq<ClientMsg>, held: bool) {
    |msgs| > 0 ==>
      match msgs[0]
      case Pause(_) => !held && Alternates(msgs[1..], true)
      case Resume => held && Alternates(msgs[1..], false)
      case Result(_) => !held && |msgs| == 1
      case _ => false
  }

  predicate HasResult(msgs: seq<ClientMsg>) {
    exists i | 0 <= i < |msgs| :: msgs[i].Result?
  }

  /** Whether the client is in its pause once the server has read `msgs`. */
  predicate HeldAfter(msgs: seq<ClientMsg>, held: bool) {
    if |msgs| == 0 then held else msgs[|msgs| - 1].Pause?
  }

  lemma {:induction false} AlternatesSnoc(msgs: seq<ClientMsg>, held: bool, m: ClientMsg)
    requires Alternates(msgs, held) && !HasResult(msgs)
    requires if HeldAfter(msgs, held) then m.Resume? else m.Pause? || m.Result?
    ensures Alternates(msgs + [m], held)
  {
    if |msgs| > 0 {
      assert msgs[0].Pause? || msgs[0].Resume? by { assert !msgs[0].Result?; }
      assert !HasResult(msgs[1..]) by {
        forall i | 0 <= i < |msgs[1..]| ensures !msgs[1..][i].Result? {
          assert msgs[1..][i] == msgs[i + 1];
        }
      }
      AlternatesSnoc(msgs[1..], msgs[0].Pause?, m);
      assert (msgs + [m])[1..] == msgs[1..] + [m];
    }
  }

  lemma NoResultRest(msgs: seq<ClientMsg>)
    requires |msgs| > 0 && !HasResult(msgs)
    ensures !HasResult(msgs[1..])
  {
    forall i | 0 <= i < |msgs[1..]| ensures !msgs[1..][i].Result? {
      assert msgs[1..][i] == msgs[i + 1];
    }
  }

  lemma NoResultSnoc(msgs: seq<ClientMsg>, m: ClientMsg)
    requires !HasResult(msgs) && !m.Result?
    ensures !HasResult(msgs + [m])
  {
  }

  // ---- Invariants of one connection ----

  /** The unread messages of the client fit the place of the server thread. */
  predicate ControlOk(c: Conn) {
    match c.server
    case AwaitVersion => c.toServer == [] || c.toServer == [VersionReq(c.asked)]
    case AwaitDownload(_) =>
      |c.toServer| > 0 ==> c.toServer[0].DownloadReq? && Alternates(c.toServer[1..], false) && !HasResult(c.toServer)
    case Holding(_) => Alternates(c.toServer, true) && !HasResult(c.toServer)
    case AwaitResult(_) => Alternates(c.toServer, false)
    case Closed => true
    case _ => Alternates(c.toServer, false) && !HasResult(c.toServer)
  }

  function SnapshotOf(server: S.Server): Option<Manifest> {
    match server
    case AwaitDownload(m) => Some(m)
    case Polling(st) => Some(st.manifest)
    case Holding(st) => Some(st.manifest)
    case Sending(st) => Some(st.manifest)
    case Finishing(m) => Some(m)
    case AwaitResult(m) => Some(m)
    case _ => None
  }

  predicate Over(server: S.Server) { server.AwaitResult? || server.Closed? }

  /** An offer or a digest on its way to the client belongs to the snapshot of the connection. */
  predicate MessageOk(c: Conn, msg: ServerMsg) {
    && (msg.Offer? ==> c.offered.Some? && msg == Offer(c.offered.value.version, c.offered.value.size, c.offered.value.digest))
    && (msg.Done? ==> c.offered.Some? && msg.digest == c.offered.value.digest && Over(c.server))
  }

  predicate ConnOk(c: Conn) {
    && ControlOk(c)
    && (SnapshotOf(c.server).Some? ==> c.offered == SnapshotOf(c.server))
    && (c.offered.Some? ==> SemVer.Older(c.asked, c.offered.value.version))
    && (c.server.AwaitVersion? ==> c.toClient == [] && c.offered.None?)
    && (c.server.AwaitDownload? ==> |c.toClient| <= 1)
    && (forall i | 0 <= i < |c.toClient| :: MessageOk(c, c.toClient[i]))
  }

  lemma MessagesKept(c: Conn, d: Conn, more: seq<ServerMsg>)
    requires forall i | 0 <= i < |c.toClient| :: MessageOk(c, c.toClient[i])
    requires d.toClient == c.toClient + more && (c.offered.Some? ==> d.offered == c.offered)
    requires Over(c.server) ==> Over(d.server)
    requires forall i | 0 <= i < |more| :: MessageOk(d, more[i])
    ensures forall i | 0 <= i < |d.toClient| :: MessageOk(d, d.toClient[i])
  {
    forall i | 0 <= i < |d.toClient| ensures MessageOk(d, d.toClient[i]) {
      if i < |c.toClient| {
        assert MessageOk(c, c.toClient[i]);
      } else {
        assert d.toClient[i] == more[i - |c.toClient|];
      }
    }
  }

  lemma OlderIfNegative(a: string, b: string)
    ensures SemVer.CompareText(a, b).Some? && SemVer.CompareText(a, b).value < 0 ==> SemVer.Older(a, b)
  {
  }

  lemma TakeVersionKeepsConn(c: Conn, manifest: Manifest)
    requires ConnOk(c) && ServerCan(c, TakeVersion)
    ensures ConnOk(ServerStep(c, TakeVersion, manifest))
    ensures ServerStep(c, TakeVersion, manifest).asked == c.asked
  {
    hide SemVer.CompareText, SemVer.Older;
    OlderIfNegative(c.asked, manifest.version);
  }

  lemma TakeDownloadKeepsConn(c: Conn, size: nat, manifest: Manifest)
    requires ConnOk(c) && ServerCan(c, TakeDownload(size))
    ensures ConnOk(ServerStep(c, TakeDownload(size), manifest))
  {
    hide SemVer.Older, Alternates, HasResult;
    NoResultRest(c.toServer);
    var d := ServerStep(c, TakeDownload(size), manifest);
    MessagesKept(c, d, if d.server.Closed? && d.toClient != c.toClient then [Fault] else []);
  }

  lemma TakeControlKeepsConn(c: Conn, manifest: Manifest)
    requires ConnOk(c) && ServerCan(c, TakeControl)
    ensures ConnOk(ServerStep(c, TakeControl, manifest))
    ensures !ServerStep(c, TakeControl, manifest).server.Closed?
  {
    hide SemVer.Older;
    NoResultRest(c.toServer);
    assert !c.toServer[0].Result?;
    MessagesKept(c, ServerStep(c, TakeControl, manifest), []);
  }

  lemma SendKeepsConn(c: Conn, e: ServerEvent, manifest: Manifest)
    requires ConnOk(c) && ServerCan(c, e) && (e.SendChunk? || e.SendDone? || e.FindNothing?)
    ensures ConnOk(ServerStep(c, e, manifest))
  {
    hide SemVer.Older, Alternates, HasResult;
    var d := ServerStep(c, e, manifest);
    MessagesKept(c, d, d.toClient[|c.toClient|..]);
  }

  lemma EndKeepsConn(c: Conn, e: ServerEvent, manifest: Manifest)
    requires ConnOk(c) && ServerCan(c, e) && (e.Refuse? || e.TakeResult? || e.Drop?)
    ensures ConnOk(ServerStep(c, e, manifest))
  {
    hide SemVer.Older, Alternates, HasResult;
    var d := ServerStep(c, e, manifest);
    MessagesKept(c, d, d.toClient[|c.toClient|..]);
  }

  /** Every step of a server thread keeps the invariants of its connection. */
  lemma ServerKeepsConn(c: Conn, e: ServerEvent, manifest: Manifest)
    requires ConnOk(c) && ServerCan(c, e)
    ensures ConnOk(ServerStep(c, e, manifest))
    ensures ServerStep(c, e, manifest).asked == c.asked
  {
    hide ConnOk;
    match e
    case TakeVersion => TakeVersionKeepsConn(c, manifest);
    case TakeDownload(size) => TakeDownloadKeepsConn(c, size, manifest);
    case TakeControl => TakeControlKeepsConn(c, manifest);
    case SendChunk(_, _) => SendKeepsConn(c, e, manifest);
    case SendDone => SendKeepsConn(c, e, manifest);
    case FindNothing => SendKeepsConn(c, e, manifest);
    case _ => EndKeepsConn(c, e, manifest);
  }

  // ---- Invariants that join the client to its live connection ----

  predicate SameOffer(c: Conn, version: string, digest: string) {
    c.offered.Some? && c.offered.value.version == version && c.offered.value.digest == digest
  }

  /** The transfer is open: a stream is requested, running, or done, and the pause states agree. */
  predicate InTransfer(c: Conn, held: bool) {
    c.server.Closed? ||
    (&& !c.server.AwaitVersion?
     && (c.server.AwaitDownload? ==> |c.toServer| > 0 && c.toClient == [])
     && !HasResult(c.toServer)
     && HeldAfter(c.toServer, c.server.Holding?) == held)
  }

  /** TRANSFER_DONE has arrived and RESULT is not sent yet. */
  predicate Received(c: Conn) {
    c.server.Closed? || (c.server.AwaitResult? && !HasResult(c.toServer) && !HeldAfter(c.toServer, false))
  }

  predicate NoPackageBytes(msgs: seq<ServerMsg>) {
    forall i | 0 <= i < |msgs| :: !msgs[i].Data? && !msgs[i].Done?
  }

  predicate ClientOk(client: D.Client, c: Conn) {
    match client
    case Ended(_) => true
    case AwaitOffer =>
      && (c.server.AwaitVersion? || (c.server.AwaitDownload? && c.toServer == []) || c.server.Closed?)
      && NoPackageBytes(c.toClient)
    case Receiving(rx) => SameOffer(c, rx.version, rx.digest) && InTransfer(c, false)
    case Holding(rx) => SameOffer(c, rx.version, rx.digest) && InTransfer(c, true)
    case Flushing(rx) => SameOffer(c, rx.version, rx.digest) && Received(c)
    case Verifying(v, d) => SameOffer(c, v, d) && Received(c)
    case Renaming(v, d) => SameOffer(c, v, d) && Received(c)
    case Reporting(v) => c.offered.Some? && c.offered.value.version == v && Received(c)
    case AwaitBye(v) => c.offered.Some? && c.offered.value.version == v && Over(c.server)
    case WritingRow(v) => c.offered.Some? && c.offered.value.version == v && Over(c.server)
  }

  lemma ServerKeepsClient(client: D.Client, c: Conn, e: ServerEvent, manifest: Manifest)
    requires ConnOk(c) && ServerCan(c, e) && ClientOk(client, c)
    ensures ClientOk(client, ServerStep(c, e, manifest))
  {
    hide SemVer.CompareText, SemVer.Older, Alternates;
    if |c.toServer| > 0 && !HasResult(c.toServer) {
      NoResultRest(c.toServer);
    }
    if e.TakeVersion? {
      assert c.toServer[1..] == [];
    }
  }

  lemma QuitKeepsConn(c: Conn, more: seq<ClientMsg>, held: bool)
    requires ConnOk(c) && InTransfer(c, held)
    requires more == [] || (more == [Resume] && held) || (|more| == 1 && more[0].Pause? && !held)
    ensures var d := c.(toServer := c.toServer + more);
      && ConnOk(d) && InTransfer(d, if more == [] then held else !held)
  {
    hide SemVer.Older;
    var d := c.(toServer := c.toServer + more);
    if more == [] {
      assert d == c;
    } else {
      if !c.server.Closed? {
        assert more == [more[0]];
        NoResultSnoc(c.toServer, more[0]);
        if c.server.AwaitDownload? {
          assert (c.toServer + more)[1..] == c.toServer[1..] + more;
          NoResultRest(c.toServer);
          AlternatesSnoc(c.toServer[1..], false, more[0]);
        } else {
          AlternatesSnoc(c.toServer, c.server.Holding?, more[0]);
        }
      }
      MessagesKept(c, d, []);
    }
  }

  lemma ReportKeepsConn(c: Conn, ok: bool)
    requires ConnOk(c) && Received(c)
    ensures ConnOk(c.(toServer := c.toServer + [Result(ok)]))
  {
    hide SemVer.Older;
    var d := c.(toServer := c.toServer + [Result(ok)]);
    if !c.server.Closed? {
      AlternatesSnoc(c.toServer, false, Result(ok));
    }
    MessagesKept(c, d, []);
  }

  /** Reading a frame from the live connection. */
  lemma ReceivedKeepsConn(c: Conn)
    requires ConnOk(c) && |c.toClient| > 0
    ensures ConnOk(c.(toClient := c.toClient[1..]))
    ensures MessageOk(c, c.toClient[0]) && !c.server.AwaitVersion?
  {
    hide SemVer.Older, Alternates, HasResult;
    var d := c.(toClient := c.toClient[1..]);
    forall i | 0 <= i < |d.toClient| ensures MessageOk(d, d.toClient[i]) {
      assert d.toClient[i] == c.toClient[i + 1];
      assert MessageOk(c, c.toClient[i + 1]);
    }
    assert MessageOk(c, c.toClient[0]);
  }

  // ---- Invariants of the whole state ----

  predicate InstallOk(s: State, x: Install) {
    && x.conn <= |s.past| && SameOffer(ConnAt(s, x.conn), x.version, x.digest)
    && Hex.EqualIgnoringCase(D.HexDigest(x.content), x.digest)
  }

  /** The client has renamed a verified file during connection `i`. */
  predicate InstalledIn(s: State, i: nat) {
    exists k | 0 <= k < |s.installs| :: s.installs[k].conn == i
  }

  /** Connection `i` can only be counted, or be about to be counted, after a rename. */
  predicate ReportOk(s: State, i: nat)
    requires i <= |s.past|
  {
    ConnAt(s, i).counted || Result(true) in ConnAt(s, i).toServer ==> InstalledIn(s, i)
  }

  /** The latest rename is the one of this attempt. */
  predicate JustInstalled(s: State, version: string) {
    && |s.installs| > 0
    && var last := s.installs[|s.installs| - 1]; last.conn == |s.past| && last.version == version
  }

  predicate InstallsOk(s: State) {
    && (forall k | 0 <= k < |s.installs| :: InstallOk(s, s.installs[k]))
    && (forall j, k | 0 <= j < k < |s.installs| :: s.installs[j].conn < s.installs[k].conn)
    && (forall i: nat | i <= |s.past| :: ReportOk(s, i))
  }

  /** What the place of the client says about the disk and the history. */
  predicate ProgressOk(s: State) {
    match s.client
    case Ended(_) => true
    case Renaming(v, d) => !InstalledIn(s, |s.past|) && v in s.parts && Hex.EqualIgnoringCase(D.HexDigest(s.parts[v]), d)
    case Reporting(v) => JustInstalled(s, v)
    case AwaitBye(v) => JustInstalled(s, v)
    case WritingRow(v) => JustInstalled(s, v)
    case _ => !InstalledIn(s, |s.past|)
  }

  predicate RunOk(s: State) {
    !s.client.Ended? ==> s.live.asked == s.current
  }

  predicate ConnsOk(s: State) {
    forall i: nat | i <= |s.past| :: ConnOk(ConnAt(s, i))
  }

  predicate Safe(s: State) {
    && ConnsOk(s) && ClientOk(s.client, s.live) && InstallsOk(s) && ProgressOk(s) && RunOk(s)
  }

  /** A step that changes only one connection, and neither its snapshot nor what it reported. */
  lemma ConnUpdated(s: State, t: State, n: nat)
    requires InstallsOk(s) && n <= |s.past| == |t.past| && t.installs == s.installs
    requires forall i: nat | i <= |s.past| && i != n :: ConnAt(t, i) == ConnAt(s, i)
    requires ConnAt(s, n).offered.Some? ==> ConnAt(t, n).offered == ConnAt(s, n).offered
    requires ReportOk(t, n)
    ensures InstallsOk(t)
  {
    forall k | 0 <= k < |t.installs| ensures InstallOk(t, t.installs[k]) {
      assert InstallOk(s, s.installs[k]);
    }
    forall i: nat | i <= |t.past| ensures ReportOk(t, i) {
      assert ReportOk(s, i);
    }
  }

  lemma ServerKeepsReport(c: Conn, e: ServerEvent, manifest: Manifest)
    requires ConnOk(c) && ServerCan(c, e)
    ensures var d := ServerStep(c, e, manifest);
      && (d.counted || Result(true) in d.toServer ==> c.counted || Result(true) in c.toServer)
      && (c.offered.Some? ==> d.offered == c.offered)
  {
    hide SemVer.CompareText, SemVer.Older, Alternates, HasResult;
  }

  lemma SameClientProgress(s: State, t: State)
    requires ProgressOk(s) && RunOk(s)
    requires t.client == s.client && t.parts == s.parts && t.installs == s.installs
    requires t.current == s.current && |t.past| == |s.past| && t.live.asked == s.live.asked
    ensures ProgressOk(t) && RunOk(t)
  {
    hide D.HexDigest, Hex.EqualIgnoringCase;
  }

  /** The state after a step of the server, connection by connection. */
  lemma ServerStepShape(s: State, i: nat, e: ServerEvent)
    requires Can(s, OnServer(i, e))
    ensures var t := Next(s, OnServer(i, e));
      && t == s.(past := t.past, live := t.live, served := t.served) && |t.past| == |s.past|
      && ConnAt(t, i) == ServerStep(ConnAt(s, i), e, s.manifest)
      && (forall j: nat | j <= |s.past| && j != i :: ConnAt(t, j) == ConnAt(s, j))
      && t.served == s.served + (if ConnAt(t, i).counted && !ConnAt(s, i).counted then 1 else 0)
  {
    hide ServerStep, ServerCan;
  }

  lemma ServerKeepsInstalls(s: State, i: nat, e: ServerEvent)
    requires ConnsOk(s) && InstallsOk(s) && Can(s, OnServer(i, e))
    ensures InstallsOk(Next(s, OnServer(i, e)))
  {
    hide ConnOk, ServerStep, ServerCan, InstallOk, Next;
    var t := Next(s, OnServer(i, e));
    ServerStepShape(s, i, e);
    assert ConnOk(ConnAt(s, i));
    ServerKeepsReport(ConnAt(s, i), e, s.manifest);
    assert ReportOk(s, i);
    ConnUpdated(s, t, i);
  }

  lemma ServerKeepsSafe(s: State, i: nat, e: ServerEvent)
    requires Safe(s) && Can(s, OnServer(i, e))
    ensures Safe(Next(s, OnServer(i, e)))
  {
    hide ConnOk, ClientOk, ServerStep, ServerCan, InstallsOk, ProgressOk, RunOk, Next;
    var t := Next(s, OnServer(i, e));
    ServerStepShape(s, i, e);
    assert ConnOk(ConnAt(s, i));
    ServerKeepsConn(ConnAt(s, i), e, s.manifest);
    ServerKeepsInstalls(s, i, e);
    if i == |s.past| {
      ServerKeepsClient(s.client, s.live, e, s.manifest);
    }
    assert ConnAt(s, |s.past|) == s.live && ConnAt(t, |t.past|) == t.live;
    SameClientProgress(s, t);
    forall j: nat | j <= |t.past| ensures ConnOk(ConnAt(t, j)) {
      assert ConnOk(ConnAt(s, j));
    }
  }

  // ---- Steps of the client ----

  /** A step of the client before the rename leaves the history alone. */
  predicate BeforeRename(e: ClientEvent) {
    !e.Rename? && !e.Report? && !e.TakeBye? && !e.WriteRow?
  }

  ghost predicate LiveOk(client: D.Client, c: Conn) {
    ConnOk(c) && ClientOk(client, c)
  }

  lemma RequestKeepsConn(c: Conn, offset: nat)
    requires ConnOk(c) && (c.server.Closed? || (c.server.AwaitDownload? && c.toServer == [] && c.toClient == []))
    ensures var d := c.(toServer := c.toServer + [DownloadReq(offset)]);
      ConnOk(d) && InTransfer(d, false)
  {
    hide SemVer.Older;
    var d := c.(toServer := c.toServer + [DownloadReq(offset)]);
    if !c.server.Closed? {
      assert d.toServer == [DownloadReq(offset)] && d.toServer[1..] == [];
    }
    MessagesKept(c, d, []);
  }

  lemma TakeReplyKeepsLive(s: State, e: ClientEvent)
    requires LiveOk(s.client, s.live) && ClientCan(s, e) && e.TakeReply?
    ensures LiveOk(ClientStep(s, e).client, ClientStep(s, e).live)
  {
    hide SemVer.Valid, ConnOk, InTransfer;
    ReceivedKeepsConn(s.live);
    var c := s.live.(toClient := s.live.toClient[1..]);
    assert c.toServer + [] == c.toServer;
    if s.live.toClient[0].Offer? {
      OneOfferAtMost(s.live);
      var file := D.Contents(FileOf(s.parts, s.live.toClient[0].version));
      RequestKeepsConn(c, if |file| > s.live.toClient[0].size then 0 else |file|);
    }
  }

  lemma OneOfferAtMost(c: Conn)
    requires ConnOk(c) && |c.toClient| > 0
    ensures c.server.AwaitDownload? ==> c.toClient[1..] == []
  {
    hide ControlOk, MessageOk, SemVer.Older;
  }

  lemma ReceivingKeepsLive(s: State, e: ClientEvent)
    requires LiveOk(s.client, s.live) && ClientCan(s, e) && BeforeRename(e) && !e.TakeReply? && !e.TakeFrame?
    ensures LiveOk(ClientStep(s, e).client, ClientStep(s, e).live)
  {
    hide SemVer.Older, D.HexDigest, Hex.EqualIgnoringCase, ConnOk;
    var t := ClientStep(s, e);
    var more := t.live.toServer[|s.live.toServer|..];
    assert s.live.toServer + [] == s.live.toServer;
    match e
    case ClickPause(_, _) => QuitKeepsConn(s.live, more, false);
    case EndHold(_) => QuitKeepsConn(s.live, more, true);
    case Check(_, _) =>
      ReportKeepsConn(s.live, false);
    case _ =>
  }

  lemma TakeFrameKeepsLive(s: State, e: ClientEvent)
    requires LiveOk(s.client, s.live) && ClientCan(s, e) && e.TakeFrame?
    ensures LiveOk(ClientStep(s, e).client, ClientStep(s, e).live)
  {
    hide SemVer.Older, Hex.EqualIgnoringCase, Alternates, HasResult;
    ReceivedKeepsConn(s.live);
    assert s.live.toServer + [] == s.live.toServer;
  }

  lemma ClientStepShape(s: State, e: ClientEvent)
    requires ClientCan(s, e) && BeforeRename(e)
    ensures var t := ClientStep(s, e);
      && t == s.(client := t.client, parts := t.parts, live := t.live)
      && t.live == s.live.(toServer := t.live.toServer, toClient := t.live.toClient)
      && (Result(true) in t.live.toServer ==> Result(true) in s.live.toServer)
      && !s.client.Ended?
      && (t.client.Ended? || BeforeRenaming(t.client) ||
          (t.client.Renaming? && t.client.version in t.parts &&
           Hex.EqualIgnoringCase(D.HexDigest(t.parts[t.client.version]), t.client.digest)))
  {
    hide SemVer.Valid, D.HexDigest, Hex.EqualIgnoringCase;
  }

  predicate BeforeRenaming(c: D.Client) {
    c.AwaitOffer? || c.Receiving? || c.Holding? || c.Flushing? || c.Verifying?
  }

  /** A step that touches the past of no connection and the live one only in its queues. */
  lemma LiveUpdated(s: State, t: State)
    requires ConnsOk(s) && InstallsOk(s) && t.past == s.past && t.installs == s.installs && ConnOk(t.live)
    requires t.live.offered == s.live.offered && t.live.counted == s.live.counted
    requires Result(true) in t.live.toServer ==> Result(true) in s.live.toServer || InstalledIn(s, |s.past|)
    ensures ConnsOk(t) && InstallsOk(t)
  {
    hide ConnOk, InstallOk;
    assert ReportOk(s, |s.past|);
    ConnUpdated(s, t, |s.past|);
    forall j: nat | j <= |t.past| ensures ConnOk(ConnAt(t, j)) {
      assert ConnOk(ConnAt(s, j));
    }
  }

  lemma BeforeRenameKeepsSafe(s: State, e: ClientEvent)
    requires Safe(s) && ClientCan(s, e) && BeforeRename(e)
    ensures Safe(ClientStep(s, e))
  {
    hide ConnOk, ClientOk, InstallsOk, ConnsOk, ClientStep;
    var t := ClientStep(s, e);
    ClientStepShape(s, e);
    LiveIsSafe(s);
    match e {
      case TakeReply(_, _, _, _) => TakeReplyKeepsLive(s, e);
      case TakeFrame(_, _) => TakeFrameKeepsLive(s, e);
      case _ => ReceivingKeepsLive(s, e);
    }
    LiveUpdated(s, t);
    BeforeRenameProgress(s, t, e);
  }

  lemma LiveIsSafe(s: State)
    requires Safe(s)
    ensures LiveOk(s.client, s.live)
  {
    hide ConnOk, ClientOk;
    assert ConnAt(s, |s.past|) == s.live;
  }

  lemma BeforeRenameProgress(s: State, t: State, e: ClientEvent)
    requires ProgressOk(s) && RunOk(s) && ClientCan(s, e) && BeforeRename(e) && t == ClientStep(s, e)
    ensures ProgressOk(t) && RunOk(t)
  {
    hide ClientStep, D.HexDigest, Hex.EqualIgnoringCase;
    ClientStepShape(s, e);
  }

  lemma RenameKeepsInstalls(s: State)
    requires Safe(s) && ClientCan(s, Rename(true))
    ensures InstallsOk(ClientStep(s, Rename(true)))
  {
    hide ConnOk, D.HexDigest, Hex.EqualIgnoringCase;
    var t := ClientStep(s, Rename(true));
    forall k | 0 <= k < |t.installs| ensures InstallOk(t, t.installs[k]) {
      if k < |s.installs| {
        assert InstallOk(s, s.installs[k]);
      }
    }
    forall j, k | 0 <= j < k < |t.installs| ensures t.installs[j].conn < t.installs[k].conn {
      assert InstallOk(s, s.installs[j]);
      assert s.installs[j].conn != |s.past|;
    }
    forall i: nat | i <= |t.past| ensures ReportOk(t, i) {
      assert ReportOk(s, i);
      if InstalledIn(s, i) {
        var k :| 0 <= k < |s.installs| && s.installs[k].conn == i;
        assert t.installs[k].conn == i;
      }
    }
  }

  /** The rename, the report and the steps after it. */
  lemma AfterCheckKeepsSafe(s: State, e: ClientEvent)
    requires Safe(s) && ClientCan(s, e) && !BeforeRename(e)
    ensures Safe(ClientStep(s, e))
  {
    hide ConnOk, D.HexDigest, Hex.EqualIgnoringCase, SemVer.Older;
    var t := ClientStep(s, e);
    LiveIsSafe(s);
    if e == Rename(true) {
      RenameKeepsInstalls(s);
      forall j: nat | j <= |t.past| ensures ConnOk(ConnAt(t, j)) {
        assert ConnOk(ConnAt(s, j));
      }
    } else {
      if e.Report? {
        assert s.installs[|s.installs| - 1].conn == |s.past|;
        ReportKeepsConn(s.live, true);
        assert s.live.toServer + [] == s.live.toServer;
      }
      LiveUpdated(s, t);
    }
  }

  // ---- Steps of the environment ----

  lemma ConnectKeepsSafe(s: State)
    requires Safe(s) && Can(s, Connect)
    ensures Safe(Next(s, Connect))
  {
    hide D.HexDigest, Hex.EqualIgnoringCase, SemVer.Older;
    var t := Next(s, Connect);
    forall j: nat | j <= |t.past| ensures ConnOk(ConnAt(t, j)) {
      if j < |t.past| {
        assert ConnAt(t, j) == ConnAt(s, j);
        assert ConnOk(ConnAt(s, j));
      }
    }
    forall k | 0 <= k < |t.installs| ensures InstallOk(t, t.installs[k]) && t.installs[k].conn <= |s.past| {
      assert InstallOk(s, s.installs[k]);
    }
    forall i: nat | i <= |t.past| ensures ReportOk(t, i) {
      if i < |t.past| {
        assert ReportOk(s, i);
        assert ConnAt(t, i) == ConnAt(s, i);
      }
    }
  }

  lemma OtherKeepsSafe(s: State, ev: Event)
    requires Safe(s) && Can(s, ev) && (ev.Reload? || ev.StartRun? || ev.DropRow? || ev.GiveUp? || ev.Crash?)
    ensures Safe(Next(s, ev))
  {
    hide ConnOk, D.HexDigest, Hex.EqualIgnoringCase;
    LiveIsSafe(s);
    LiveUpdated(s, Next(s, ev));
  }

  lemma NextKeepsSafe(s: State, ev: Event)
    requires Safe(s)
    ensures Safe(Next(s, ev))
  {
    hide Safe, ClientStep, ServerCan;
    if Can(s, ev) {
      match ev {
        case OnServer(i, e) => ServerKeepsSafe(s, i, e);
        case OnClient(e) =>
          if BeforeRename(e) {
            BeforeRenameKeepsSafe(s, e);
          } else {
            AfterCheckKeepsSafe(s, e);
          }
        case Connect => ConnectKeepsSafe(s);
        case _ => OtherKeepsSafe(s, ev);
      }
    }
  }

  /** The invariants hold in every reachable state. */
  lemma {:induction false} RunsAreSafe(s: State, evs: seq<Event>)
    requires Initial(s)
    ensures Safe(After(s, evs))
  {
    if |evs| == 0 {
      assert ConnOk(s.live);
      assert Safe(s);
    } else {
      RunsAreSafe(s, evs[..|evs| - 1]);
      NextKeepsSafe(After(s, evs[..|evs| - 1]), evs[|evs| - 1]);
    }
  }
}
