/**
 One client and its server as a system of interleaved steps: every connection of the client, the two
 queues of messages of each connection, the client's disk, and the manifest that the server may
 reload at any time. All choices of the environment are part of the event, so a run is a sequence
 of events, and an event that is not possible in a state changes nothing.
 */
module Transfer {
  import opened Prelude
  import opened Messages
  import S = PackageService
  import D = Downloader
  import Hex
  import SemVer

  /**
   One connection. `asked` is the version in its VERSION_REQ, `offered` the snapshot taken for it,
   `counted` whether the server has counted its update as served.
   */
  datatype Conn = Conn(asked: string, server: S.Server, toClient: seq<ServerMsg>, toServer: seq<ClientMsg>,
                       offered: Option<Manifest>, counted: bool)

  /** A rename of a verified file, with the connection it belongs to. */
  datatype Install = Install(conn: nat, version: string, content: seq<byte>, digest: string)

  /**
   `past` are the connections the client has left; their server threads may still run. `parts` and
   `finals` are the `.part` and the installed files by version text, `row` the client's row of the
   version table, `current` what the running check read from it, `installs` the history of renames.
   */
  datatype State = State(manifest: Manifest, past: seq<Conn>, live: Conn, client: D.Client, current: string,
                         parts: map<string, seq<byte>>, finals: map<string, seq<byte>>, row: Option<string>,
                         served: nat, installs: seq<Install>)

  datatype ServerEvent =
    | TakeVersion
    | Refuse
    | TakeDownload(size: nat)
    | FindNothing
    | TakeControl
    | SendChunk(data: seq<byte>, readError: bool)
    | SendDone
    | TakeResult
    | Drop

  datatype ClientEvent =
    | TakeReply(sendOk: bool, stop: bool, openOk: bool, fatal: bool)
    | Quit(kept: nat, stop: bool)
    | ClickPause(kept: nat, sendOk: bool)
    | EndHold(end: D.HoldEnd)
    | TakeFrame(kept: nat, short: bool)
    | Spill(n: nat)
    | EndFlush(kept: nat, ok: bool)
    | Check(readOk: bool, sendOk: bool)
    | Rename(ok: bool)
    | Report(sendOk: bool)
    | TakeBye
    | WriteRow(ok: bool)

  datatype Event =
    | Reload(m: Manifest)
    | OnServer(conn: nat, e: ServerEvent)
    | OnClient(c: ClientEvent)
    /** A check starts. `seen` is whether its read of the version table got to the client's row. */
    | StartRun(seen: bool)
    /** The write of another client, which did not see the row, has put back a table without it. */
    | DropRow
    | Connect
    | GiveUp
    | Crash(kept: nat)

  // ---- The server's side of one connection (handle_client_session) ----

  predicate ServerCan(c: Conn, e: ServerEvent) {
    match e
    case TakeVersion => c.server.AwaitVersion? && |c.toServer| > 0
    case Refuse => c.server.AwaitVersion? || c.server.AwaitDownload?
    case TakeDownload(_) => c.server.AwaitDownload? && |c.toServer| > 0
    case FindNothing => c.server.Polling?
    case TakeControl => (c.server.Polling? || c.server.Holding?) && |c.toServer| > 0
    case SendChunk(data, _) => c.server.Sending? && c.server.stream.sent + |data| <= c.server.stream.size && |data| > 0
    case SendDone => c.server.Finishing?
    case TakeResult => c.server.AwaitResult? && |c.toServer| > 0
    case Drop => !c.server.Closed?
  }

  function Reply(c: Conn, server: S.Server, msgs: seq<ServerMsg>): Conn {
    c.(server := server, toClient := c.toClient + msgs)
  }

  function Took(c: Conn): Conn
    requires |c.toServer| > 0
  {
    c.(toServer := c.toServer[1..])
  }

  function ServerStep(c: Conn, e: ServerEvent, manifest: Manifest): Conn
    requires ServerCan(c, e)
  {
    match e
    case TakeVersion => OnVersion(Took(c), c.toServer[0], manifest)
    case Refuse => Reply(c, S.Closed, [Fault])
    case TakeDownload(size) => OnDownload(Took(c), c.toServer[0], c.server.manifest, size)
    case FindNothing => c.(server := S.Sending(c.server.stream))
    case TakeControl => Took(c).(server := S.OnControl(c.server, c.toServer[0]))
    case SendChunk(data, readError) =>
      var (next, frame) := S.OnChunk(c.server.stream, data, readError);
      Reply(c, next, [frame])
    case SendDone => Reply(c, S.AwaitResult(c.server.manifest), [Done(c.server.manifest.digest)])
    case TakeResult => OnResult(Took(c), c.toServer[0])
    case Drop => c.(server := S.Closed)
  }

  /** The update decision, taken on a snapshot that the connection keeps. */
  function OnVersion(c: Conn, msg: ClientMsg, manifest: Manifest): Conn {
    if !msg.VersionReq? then Reply(c, S.Closed, [Fault])
    else
      var cmp := SemVer.CompareText(msg.current, manifest.version);
      if cmp.None? then Reply(c, S.Closed, [Fault])
      else if cmp.value >= 0 then Reply(c, S.Closed, [UpToDate(manifest.version), Bye])
      else
        Reply(c, S.AwaitDownload(manifest), [Offer(manifest.version, manifest.size, manifest.digest)])
          .(offered := Some(manifest))
  }

  function OnDownload(c: Conn, msg: ClientMsg, m: Manifest, size: nat): Conn {
    if !msg.DownloadReq? || msg.offset > m.size then Reply(c, S.Closed, [Fault])
    else c.(server := S.Open(m, size, msg.offset))
  }

  function OnResult(c: Conn, msg: ClientMsg): Conn {
    if !msg.Result? then c.(server := S.Closed)
    else Reply(c, S.Closed, [Bye]).(counted := c.counted || msg.ok)
  }

  // ---- The client's side ----

  function FileOf(files: map<string, seq<byte>>, v: string): D.File {
    if v in files then Some(files[v]) else None
  }

  function PutFile(files: map<string, seq<byte>>, v: string, f: D.File): map<string, seq<byte>> {
    if f.Some? then files[v := f.value] else files - {v}
  }

  /**
   `getCurrentVersion`, without an inline override, for the row that the read of the table got to. A lock that
   fails, a table that cannot be opened and a read error all count as a table without the row.
   */
  function CurrentVersion(row: Option<string>): string {
    if row.Some? then row.value else "0.0.0"
  }

  predicate ClientCan(s: State, e: ClientEvent) {
    match e
    case TakeReply(_, _, _, _) => s.client.AwaitOffer? && |s.live.toClient| > 0
    case Quit(_, _) => s.client.AwaitOffer? || s.client.Receiving?
    case ClickPause(_, _) => s.client.Receiving?
    case EndHold(_) => s.client.Holding?
    case TakeFrame(_, _) => s.client.Receiving? && |s.live.toClient| > 0
    case Spill(n) => s.client.Receiving? && n <= |s.client.rx.buffered|
    case EndFlush(_, _) => s.client.Flushing?
    case Check(_, _) => s.client.Verifying?
    case Rename(_) => s.client.Renaming? && s.client.version in s.parts
    case Report(_) => s.client.Reporting?
    case TakeBye => s.client.AwaitBye?
    case WriteRow(_) => s.client.WritingRow?
  }

  /** A step of the receiving code on the `.part` file of version `v`, with what it sends. */
  function Apply(s: State, v: string, step: D.Step): State {
    s.(client := step.client, parts := PutFile(s.parts, v, step.part),
       live := s.live.(toServer := s.live.toServer + step.sent))
  }

  function Received(s: State): State
    requires |s.live.toClient| > 0
  {
    s.(live := s.live.(toClient := s.live.toClient[1..]))
  }

  function ClientStep(s: State, e: ClientEvent): State
    requires ClientCan(s, e)
  {
    match e
    case TakeReply(sendOk, stop, openOk, fatal) =>
      var msg := s.live.toClient[0];
      if msg.Offer? then
        Apply(Received(s), msg.version,
              D.OnOffer(msg.version, msg.size, msg.digest, FileOf(s.parts, msg.version), sendOk, stop, openOk))
      else if msg.UpToDate? then Received(s).(client := D.Ended(D.Success))
      else if msg.Fault? then Received(s).(client := D.Ended(if fatal then D.Fatal else D.Retry))
      else Received(s).(client := D.Ended(if stop then D.Paused else D.Reconnect))
    case Quit(kept, stop) =>
      if s.client.AwaitOffer? then s.(client := D.Ended(if stop then D.Paused else D.Reconnect))
      else
        var rx := s.client.rx;
        Apply(s, rx.version, D.OnQuit(rx, FileOf(s.parts, rx.version), kept, stop))
    case ClickPause(kept, sendOk) =>
      var rx := s.client.rx;
      Apply(s, rx.version, D.OnPause(rx, FileOf(s.parts, rx.version), kept, sendOk))
    case EndHold(end) =>
      var rx := s.client.rx;
      Apply(s, rx.version, D.OnHold(rx, FileOf(s.parts, rx.version), end))
    case TakeFrame(kept, short) =>
      var rx := s.client.rx;
      Apply(Received(s), rx.version, D.OnFrame(rx, FileOf(s.parts, rx.version), s.live.toClient[0], kept, short))
    case Spill(n) =>
      var rx := s.client.rx;
      s.(client := D.Receiving(rx.(buffered := rx.buffered[n..])),
         parts := PutFile(s.parts, rx.version, D.Flushed(FileOf(s.parts, rx.version), rx.buffered, n)))
    case EndFlush(kept, ok) =>
      var rx := s.client.rx;
      Apply(s, rx.version, D.OnFlush(rx, FileOf(s.parts, rx.version), kept, ok))
    case Check(readOk, sendOk) =>
      var v := s.client.version;
      Apply(s, v, D.OnHash(v, s.client.digest, FileOf(s.parts, v), readOk, sendOk))
    case Rename(ok) =>
      var v := s.client.version;
      if !ok then s.(client := D.Ended(D.Fatal))
      else
        s.(client := D.Reporting(v), finals := s.finals[v := s.parts[v]], parts := s.parts - {v},
           installs := s.installs + [Install(|s.past|, v, s.parts[v], s.client.digest)])
    case Report(sendOk) =>
      s.(client := D.AwaitBye(s.client.version),
         live := s.live.(toServer := s.live.toServer + if sendOk then [Result(true)] else []))
    case TakeBye => s.(client := D.WritingRow(s.client.version))
    case WriteRow(ok) =>
      if ok then s.(client := D.Ended(D.Success), row := Some(s.client.version))
      else s.(client := D.Ended(D.Fatal))
  }

  // ---- The whole system ----

  /** No check for updates is running. */
  predicate Idle(c: D.Client) {
    c.Ended? && (c.result.Success? || c.result.Fatal? || c.result.Paused?)
  }

  /** A check is running, between two attempts. */
  predicate Between(c: D.Client) {
    c.Ended? && !Idle(c)
  }

  function ConnAt(s: State, i: nat): Conn
    requires i <= |s.past|
  {
    if i < |s.past| then s.past[i] else s.live
  }

  predicate Can(s: State, ev: Event) {
    match ev
    case Reload(m) => SemVer.Valid(m.version)
    case OnServer(i, e) => i <= |s.past| && ServerCan(ConnAt(s, i), e)
    case OnClient(e) => ClientCan(s, e)
    case StartRun(_) => Idle(s.client)
    case DropRow => true
    case Connect => Between(s.client)
    case GiveUp => Between(s.client)
    case Crash(_) => true
  }

  /** The client process dies: of the bytes written so far, the first `kept` are on the disk. */
  function Crashed(s: State, kept: nat): State {
    var down := s.(client := D.Ended(D.Fatal));
    if s.client.Receiving? || s.client.Holding? || s.client.Flushing? then
      var rx := s.client.rx;
      var written := D.Contents(FileOf(s.parts, rx.version)) + rx.buffered;
      down.(parts := s.parts[rx.version := D.Take(written, kept)])
    else down
  }

  function PutConn(s: State, i: nat, c: Conn): State
    requires i <= |s.past|
  {
    if i < |s.past| then s.(past := s.past[i := c]) else s.(live := c)
  }

  function NewConn(current: string): Conn {
    Conn(current, S.AwaitVersion, [], [VersionReq(current)], None, false)
  }

  function Next(s: State, ev: Event): State {
    if !Can(s, ev) then s
    else
      match ev
      case Reload(m) => s.(manifest := m)
      case OnServer(i, e) =>
        var c := ServerStep(ConnAt(s, i), e, s.manifest);
        PutConn(s, i, c).(served := if c.counted && !ConnAt(s, i).counted then s.served + 1 else s.served)
      case OnClient(e) => ClientStep(s, e)
      case StartRun(seen) => s.(client := D.Ended(D.Retry), current := CurrentVersion(if seen then s.row else None))
      case DropRow => s.(row := None)
      case Connect =>
        s.(client := D.AwaitOffer, past := s.past + [s.live], live := NewConn(s.current))
      case GiveUp => s.(client := D.Ended(D.Fatal))
      case Crash(kept) => Crashed(s, kept)
  }

  /** The state after a run. */
  function After(s: State, evs: seq<Event>): State {
    if |evs| == 0 then s else Next(After(s, evs[..|evs| - 1]), evs[|evs| - 1])
  }

  lemma AfterOne(s: State, e: Event)
    ensures After(s, [e]) == Next(s, e)
  {
    hide Next;
    assert [e][..0] == [];
    assert After(s, [e]) == Next(After(s, []), e);
  }

  lemma AfterTwo(s: State, e1: Event, e2: Event)
    ensures After(s, [e1, e2]) == Next(Next(s, e1), e2)
  {
    hide Next, After;
    AfterOne(s, e1);
    AfterOne(Next(s, e1), e2);
    AfterConcat(s, [e1], [e2]);
    assert [e1] + [e2] == [e1, e2];
  }

  lemma AfterThree(s: State, e1: Event, e2: Event, e3: Event)
    ensures After(s, [e1, e2, e3]) == Next(Next(Next(s, e1), e2), e3)
  {
    hide Next, After;
    AfterTwo(s, e1, e2);
    AfterOne(Next(Next(s, e1), e2), e3);
    AfterConcat(s, [e1, e2], [e3]);
    assert [e1, e2] + [e3] == [e1, e2, e3];
  }

  lemma {:induction false} AfterConcat(s: State, xs: seq<Event>, ys: seq<Event>)
    ensures After(s, xs + ys) == After(After(s, xs), ys)
  {
    hide Next;
    if |ys| == 0 {
      assert xs + ys == xs;
    } else {
      AfterConcat(s, xs, ys[..|ys| - 1]);
      assert (xs + ys)[..|xs + ys| - 1] == xs + ys[..|ys| - 1];
    }
  }

  /** Before the first check: any manifest, any files, any row, and no connection. */
  ghost predicate Initial(s: State) {
    && s.past == [] && s.live == Conn("", S.Closed, [], [], None, false)
    && Idle(s.client) && s.served == 0 && s.installs == []
  }
}
