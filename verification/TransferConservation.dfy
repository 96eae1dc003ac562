/**
 Conservation of the package bytes. Fix the package of every version. As long as the server's disk and
 manifests agree with it, the bytes in flight always continue the package at the client's count, through any
 pauses, disconnects, short writes, crashes and reconnects, and however little a flush writes. The only bytes
 that can be missing behind that count are those that the flush of a pause failed to write.
 */
module TransferConservation {
  import opened Prelude
  import opened Messages
  import opened Transfer
  import opened TransferSafety
  import S = PackageService
  import D = Downloader
  import Hex
  import SemVer

  type Packages = string -> seq<byte>

  predicate HonestManifest(p: Packages, m: Manifest) {
    m.size == |p(m.version)| && m.digest == D.HexDigest(p(m.version))
  }

  predicate TrueRead(file: seq<byte>, from: nat, data: seq<byte>) {
    from + |data| <= |file| && data == file[from..from + |data|]
  }

  predicate HonestServerEvent(p: Packages, c: Conn, e: ServerEvent)
    requires ServerCan(c, e)
  {
    match e
    case TakeDownload(size) => size == |p(c.server.manifest.version)|
    case SendChunk(data, _) => TrueRead(p(c.server.stream.manifest.version), c.server.stream.sent, data)
    case _ => true
  }

  /** The server's disk tells the truth. Everything else is free. */
  predicate HonestEvent(p: Packages, s: State, ev: Event) {
    Can(s, ev) ==>
      match ev
      case Reload(m) => HonestManifest(p, m)
      case OnServer(i, e) => HonestServerEvent(p, ConnAt(s, i), e)
      case _ => true
  }

  predicate HonestRun(p: Packages, s: State, evs: seq<Event>) {
    |evs| > 0 ==>
      && HonestRun(p, s, evs[..|evs| - 1])
      && HonestEvent(p, After(s, evs[..|evs| - 1]), evs[|evs| - 1])
  }

  ghost predicate HonestStart(p: Packages, s: State) {
    Initial(s) && HonestManifest(p, s.manifest)
  }

  /** What the client has of a package: the file on disk and the buffer behind it. */
  function Have(s: State, rx: D.Rx): seq<byte> {
    D.Contents(FileOf(s.parts, rx.version)) + rx.buffered
  }

  // ---- What the current attempt has lost ----

  /** The file that the attempt started from, and the bytes that the flushes of its pauses have not written since. */
  datatype Track = Track(start: seq<byte>, lost: nat)

  function Dropped(buffered: seq<byte>, kept: nat): nat {
    |buffered| - |D.Take(buffered, kept)|
  }

  function NextTrack(k: Track, s: State, ev: Event): Track {
    if !Can(s, ev) || !ev.OnClient? then k
    else
      match ev.c
      case TakeReply(_, _, _, _) =>
        var t := Next(s, ev);
        if t.client.Receiving? then Track(D.Contents(FileOf(t.parts, t.client.rx.version)), 0) else k
      case ClickPause(kept, _) => k.(lost := k.lost + Dropped(s.client.rx.buffered, kept))
      case _ => k
  }

  /** The track of the attempt in which a run ends. */
  function TrackAfter(s: State, evs: seq<Event>): Track {
    if |evs| == 0 then Track([], 0)
    else NextTrack(TrackAfter(s, evs[..|evs| - 1]), After(s, evs[..|evs| - 1]), evs[|evs| - 1])
  }

  // ---- The invariant ----

  ghost predicate ConnHonest(p: Packages, c: Conn) {
    && (c.offered.Some? ==> HonestManifest(p, c.offered.value))
    && (S.Streaming(c.server) ==>
          && c.server.stream.size == |p(c.server.stream.manifest.version)|
          && c.server.stream.sent <= c.server.stream.size)
  }

  /** The bytes of the live connection, when the client's count is `at`. */
  ghost predicate Flow(file: seq<byte>, c: Conn, at: nat) {
    var end := at + |Payload(c.toClient)|;
    && end <= |file| && Payload(c.toClient) == file[at..end]
    && (S.Streaming(c.server) ==> end == c.server.stream.sent)
    && (c.server.Finishing? || c.server.AwaitResult? ==> end == |file|)
    && (c.server.AwaitDownload? && |c.toServer| > 0 ==> c.toServer[0] == DownloadReq(at))
    && (forall i | 0 <= i < |c.toClient| && c.toClient[i].Done? :: i == |c.toClient| - 1 && end == |file|)
  }

  /** The bytes behind the count `at`: none but the lost ones are missing. */
  ghost predicate Behind(file: seq<byte>, have: seq<byte>, k: Track, at: nat) {
    && |k.start| <= at <= |file| && |have| + k.lost == at
    && (k.lost == 0 ==> have == k.start + file[|k.start|..at])
  }

  ghost predicate Downloading(p: Packages, s: State, k: Track, rx: D.Rx) {
    && rx.size == |p(rx.version)|
    && Flow(p(rx.version), s.live, rx.received)
    && Behind(p(rx.version), Have(s, rx), k, rx.received)
  }

  ghost predicate ClientHonest(p: Packages, s: State, k: Track) {
    match s.client
    case Receiving(rx) => Downloading(p, s, k, rx)
    case Holding(rx) => Downloading(p, s, k, rx) && rx.buffered == []
    case Flushing(rx) => Behind(p(rx.version), Have(s, rx), k, |p(rx.version)|)
    case Verifying(v, d) =>
      v in s.parts && Behind(p(v), s.parts[v], k, |p(v)|) && d == D.HexDigest(p(v))
    case _ => true
  }

  ghost predicate Honest(p: Packages, s: State, k: Track) {
    HonestManifest(p, s.manifest) && ConnHonest(p, s.live) && ClientHonest(p, s, k)
  }

  // ---- Steps of the server ----

  lemma ServerKeepsConnHonest(p: Packages, c: Conn, e: ServerEvent, manifest: Manifest)
    requires ConnOk(c) && ConnHonest(p, c) && HonestManifest(p, manifest)
    requires ServerCan(c, e) && HonestServerEvent(p, c, e)
    ensures ConnHonest(p, ServerStep(c, e, manifest))
  {
    hide D.HexDigest, SemVer.Older, SemVer.CompareText, Alternates, HasResult;
  }

  /** Sending data that continues the file. */
  lemma ChunkKeepsFlow(file: seq<byte>, c: Conn, at: nat, data: seq<byte>, last: bool, next: S.Server)
    requires Flow(file, c, at) && c.server.Sending? && TrueRead(file, c.server.stream.sent, data)
    requires forall i | 0 <= i < |c.toClient| :: !c.toClient[i].Done?
    requires next.Closed? || (next.Polling? && next.stream.sent == c.server.stream.sent + |data|)
      || (next.Finishing? && c.server.stream.sent + |data| == |file|)
    ensures Flow(file, Reply(c, next, [Data(data, last)]), at)
  {
    PayloadSnoc(c.toClient, Data(data, last));
    var sent := c.server.stream.sent;
    assert file[at..sent] + file[sent..sent + |data|] == file[at..sent + |data|];
  }

  /** A message without package bytes, sent when no TRANSFER_DONE is in flight. */
  lemma MessageKeepsFlow(file: seq<byte>, c: Conn, at: nat, msg: ServerMsg, next: S.Server)
    requires Flow(file, c, at) && (next.Closed? || next.AwaitResult?)
    requires forall i | 0 <= i < |c.toClient| :: !c.toClient[i].Done?
    requires !msg.Data? && (msg.Done? || next.AwaitResult? ==> c.server.Finishing?)
    ensures Flow(file, Reply(c, next, [msg]), at)
  {
    PayloadSnoc(c.toClient, msg);
    assert Payload(c.toClient) + [] == Payload(c.toClient);
  }

  lemma NoDoneYet(c: Conn)
    requires ConnOk(c) && !Over(c.server)
    ensures forall i | 0 <= i < |c.toClient| :: !c.toClient[i].Done?
  {
    hide SemVer.Older, Alternates, HasResult;
    forall i | 0 <= i < |c.toClient| ensures !c.toClient[i].Done? {
      assert MessageOk(c, c.toClient[i]);
    }
  }

  /** Every step of the server thread of the live connection keeps the flow. */
  lemma ServerKeepsFlow(p: Packages, c: Conn, e: ServerEvent, manifest: Manifest, at: nat, held: bool)
    requires ConnOk(c) && ConnHonest(p, c) && InTransfer(c, held) && c.offered.Some?
    requires ServerCan(c, e) && HonestServerEvent(p, c, e)
    requires Flow(p(c.offered.value.version), c, at)
    ensures Flow(p(c.offered.value.version), ServerStep(c, e, manifest), at)
  {
    hide D.HexDigest, SemVer.Older, SemVer.CompareText, Alternates, MessageOk;
    var file := p(c.offered.value.version);
    if !Over(c.server) {
      NoDoneYet(c);
    }
    match e {
      case SendChunk(data, readError) =>
        var (next, frame) := S.OnChunk(c.server.stream, data, readError);
        ChunkKeepsFlow(file, c, at, data, frame.last, next);
      case SendDone =>
        MessageKeepsFlow(file, c, at, Done(c.server.manifest.digest), S.AwaitResult(c.server.manifest));
      case Refuse =>
        MessageKeepsFlow(file, c, at, Fault, S.Closed);
      case TakeDownload(size) =>
        MessageKeepsFlow(file, Took(c).(server := S.Closed), at, Fault, S.Closed);
      case TakeResult =>
        assert !c.toServer[0].Result?;
      case _ =>
    }
  }

  lemma ServerKeepsHonest(p: Packages, s: State, k: Track, i: nat, e: ServerEvent)
    requires Safe(s) && Honest(p, s, k) && Can(s, OnServer(i, e)) && HonestServerEvent(p, ConnAt(s, i), e)
    ensures Honest(p, Next(s, OnServer(i, e)), k)
  {
    hide ConnOk, ServerStep, ServerCan, InstallsOk, ProgressOk, Flow, D.HexDigest, Next;
    var t := Next(s, OnServer(i, e));
    ServerStepShape(s, i, e);
    LiveIsSafe(s);
    assert ConnAt(s, |s.past|) == s.live && ConnAt(t, |t.past|) == t.live;
    if i == |s.past| {
      ServerKeepsConnHonest(p, s.live, e, s.manifest);
      if s.client.Receiving? || s.client.Holding? {
        ServerKeepsFlow(p, s.live, e, s.manifest, s.client.rx.received, s.client.Holding?);
      }
    }
  }

  // ---- Steps of the client ----

  /** A download that has just been requested. */
  lemma RequestedFlow(file: seq<byte>, c: Conn, at: nat)
    requires at <= |file| && NoPackageBytes(c.toClient)
    requires c.server.Closed? || (c.server.AwaitDownload? && |c.toServer| > 0 && c.toServer[0] == DownloadReq(at))
    ensures Flow(file, c, at)
  {
    NoBytesNoPayload(c.toClient);
  }

  lemma {:induction false} NoBytesNoPayload(msgs: seq<ServerMsg>)
    requires NoPackageBytes(msgs)
    ensures Payload(msgs) == []
  {
    if |msgs| > 0 {
      NoBytesNoPayload(msgs[1..]);
    }
  }

  /** The client reads an offer: the `.part` file, if any, becomes the start of the transfer. */
  lemma OfferKeepsHonest(p: Packages, s: State, k: Track, e: ClientEvent)
    requires LiveOk(s.client, s.live) && Honest(p, s, k) && ClientCan(s, e) && e.TakeReply?
    requires s.live.toClient[0].Offer?
    ensures Honest(p, ClientStep(s, e), NextTrack(k, s, OnClient(e)))
  {
    hide D.HexDigest, SemVer.Valid, Flow, ConnOk;
    ReceivedKeepsConn(s.live);
    var t := ClientStep(s, e);
    if t.client.Receiving? {
      var rx := t.client.rx;
      assert rx.size == |p(rx.version)|;
      assert Have(t, rx) == D.Contents(FileOf(t.parts, rx.version));
      RequestedFlow(p(rx.version), t.live, rx.received);
    }
  }

  lemma TakeReplyKeepsHonest(p: Packages, s: State, k: Track, e: ClientEvent)
    requires Safe(s) && Honest(p, s, k) && ClientCan(s, e) && e.TakeReply?
    ensures Honest(p, ClientStep(s, e), NextTrack(k, s, OnClient(e)))
  {
    hide Safe, ConnOk, ClientOk, D.HexDigest, Flow;
    LiveIsSafe(s);
    if s.live.toClient[0].Offer? {
      OfferKeepsHonest(p, s, k, e);
    }
  }

  /** Taking the head of the queue splits the payload. */
  lemma HeadOfPayload(msgs: seq<ServerMsg>)
    requires |msgs| > 0
    ensures Payload(msgs) == (if msgs[0].Data? then msgs[0].bytes else []) + Payload(msgs[1..])
  {
  }

  /** Data moves from the connection to the client. */
  lemma DataKeepsFlow(file: seq<byte>, c: Conn, at: nat)
    requires |c.toClient| > 0 && c.toClient[0].Data? && Flow(file, c, at) && !c.server.AwaitDownload?
    ensures var end := at + |c.toClient[0].bytes|;
      && Flow(file, c.(toClient := c.toClient[1..]), end)
      && end <= |file| && c.toClient[0].bytes == file[at..end]
  {
    var rest := c.toClient[1..];
    var data := c.toClient[0].bytes;
    HeadOfPayload(c.toClient);
    var all := file[at..at + |Payload(c.toClient)|];
    assert data == all[..|data|] && Payload(rest) == all[|data|..];
    forall i | 0 <= i < |rest| && rest[i].Done?
      ensures i == |rest| - 1 && at + |data| + |Payload(rest)| == |file|
    {
      assert c.toClient[i + 1] == rest[i];
    }
  }

  lemma DataKeepsBehind(file: seq<byte>, have: seq<byte>, k: Track, at: nat, data: seq<byte>)
    requires Behind(file, have, k, at) && TrueRead(file, at, data)
    ensures Behind(file, have + data, k, at + |data|)
  {
    if k.lost == 0 {
      var end := at + |data|;
      assert file[|k.start|..at] + file[at..end] == file[|k.start|..end];
      assert (k.start + file[|k.start|..at]) + data == k.start + (file[|k.start|..at] + data);
    }
  }

  /** TRANSFER_DONE finds the count at the end. */
  lemma DoneFindsEnd(file: seq<byte>, c: Conn, at: nat)
    requires |c.toClient| > 0 && c.toClient[0].Done? && Flow(file, c, at)
    ensures at == |file|
  {
    HeadOfPayload(c.toClient);
    assert c.toClient[1..] == [];
  }

  lemma TakeFrameKeepsHonest(p: Packages, s: State, k: Track, kept: nat, short: bool)
    requires Safe(s) && Honest(p, s, k) && ClientCan(s, TakeFrame(kept, short))
    ensures Honest(p, ClientStep(s, TakeFrame(kept, short)), k)
  {
    hide D.HexDigest, Hex.EqualIgnoringCase, Safe, Flow, Behind;
    InTransferOf(s);
    var rx := s.client.rx;
    var file := p(rx.version);
    var msg := s.live.toClient[0];
    var t := ClientStep(s, TakeFrame(kept, short));
    assert s.live.toServer + [] == s.live.toServer;
    PutSame(s.parts, rx.version);
    if msg.Data? {
      DataKeepsFlow(file, s.live, rx.received);
      DataKeepsBehind(file, Have(s, rx), k, rx.received, msg.bytes);
      if t.client.Receiving? {
        assert t.live == s.live.(toClient := s.live.toClient[1..]);
        assert Have(t, t.client.rx) == Have(s, rx) + msg.bytes;
      }
    } else if msg.Done? {
      DoneFindsEnd(file, s.live, rx.received);
    }
  }

  lemma PutSame(files: map<string, seq<byte>>, v: string)
    ensures PutFile(files, v, FileOf(files, v)) == files
  {
  }

  lemma InTransferOf(s: State)
    requires Safe(s) && (s.client.Receiving? || s.client.Holding?)
    ensures InTransfer(s.live, s.client.Holding?)
  {
    hide ConnsOk, InstallsOk, ProgressOk, RunOk;
  }

  /** What a flush leaves behind the count. */
  lemma FlushKeepsBehind(file: seq<byte>, part: D.File, buffered: seq<byte>, kept: nat, k: Track, at: nat)
    requires Behind(file, D.Contents(part) + buffered, k, at)
    ensures Behind(file, D.Contents(D.Flushed(part, buffered, kept)) + [], k.(lost := k.lost + Dropped(buffered, kept)), at)
  {
    var written := D.Contents(part) + D.Take(buffered, kept);
    assert written + [] == written;
    if Dropped(buffered, kept) == 0 {
      assert D.Take(buffered, kept) == buffered;
    }
  }

  lemma SpillKeepsHave(part: D.File, buffered: seq<byte>, n: nat)
    requires n <= |buffered|
    ensures D.Contents(D.Flushed(part, buffered, n)) + buffered[n..] == D.Contents(part) + buffered
  {
    var (head, tail) := (buffered[..n], buffered[n..]);
    assert buffered == head + tail && D.Take(buffered, n) == head;
    assert (D.Contents(part) + head) + tail == D.Contents(part) + (head + tail);
  }

  lemma PauseKeepsHonest(p: Packages, s: State, k: Track, kept: nat, sendOk: bool)
    requires Safe(s) && Honest(p, s, k) && ClientCan(s, ClickPause(kept, sendOk))
    ensures Honest(p, ClientStep(s, ClickPause(kept, sendOk)), NextTrack(k, s, OnClient(ClickPause(kept, sendOk))))
  {
    hide D.HexDigest, Flow, Safe, D.Flushed, Behind, Dropped;
    InTransferOf(s);
    var rx := s.client.rx;
    FlushKeepsBehind(p(rx.version), FileOf(s.parts, rx.version), rx.buffered, kept, k, rx.received);
    FlushedIsThere(FileOf(s.parts, rx.version), rx.buffered, kept);
    MorePausesKeepFlow(p(rx.version), s.live, s.live.(toServer := s.live.toServer + [Pause(rx.received)]), rx.received);
  }

  lemma SpillKeepsHonest(p: Packages, s: State, k: Track, n: nat)
    requires Safe(s) && Honest(p, s, k) && ClientCan(s, Spill(n))
    ensures Honest(p, ClientStep(s, Spill(n)), k)
  {
    hide D.HexDigest, Flow, Safe, D.Flushed, Behind;
    var rx := s.client.rx;
    SpillKeepsHave(FileOf(s.parts, rx.version), rx.buffered, n);
    FlushedIsThere(FileOf(s.parts, rx.version), rx.buffered, n);
  }

  lemma FlushedIsThere(part: D.File, buffered: seq<byte>, kept: nat)
    ensures D.Flushed(part, buffered, kept).Some?
  {
  }

  lemma MorePausesKeepFlow(file: seq<byte>, c: Conn, d: Conn, at: nat)
    requires Flow(file, c, at) && d == c.(toServer := d.toServer)
    requires c.toServer <= d.toServer
    requires c.server.AwaitDownload? ==> |c.toServer| > 0
    ensures Flow(file, d, at)
  {
  }

  lemma FlushingOf(s: State)
    requires Safe(s) && s.client.Flushing?
    ensures SameOffer(s.live, s.client.rx.version, s.client.rx.digest)
  {
    hide ConnsOk, InstallsOk, ProgressOk, RunOk;
  }

  /** The steps that end the attempt or a pause, and those after the receive loop. */
  lemma LaterKeepsHonest(p: Packages, s: State, k: Track, e: ClientEvent)
    requires Safe(s) && Honest(p, s, k) && ClientCan(s, e)
    requires !e.TakeReply? && !e.TakeFrame? && !e.ClickPause? && !e.Spill?
    ensures Honest(p, ClientStep(s, e), k)
  {
    hide D.HexDigest, Hex.EqualIgnoringCase, Flow, Safe, Behind;
    var t := ClientStep(s, e);
    match e {
      case EndHold(_) =>
        InTransferOf(s);
        var rx := s.client.rx;
        PutSame(s.parts, rx.version);
        if t.client.Receiving? {
          assert Have(t, rx) == Have(s, rx);
          MorePausesKeepFlow(p(rx.version), s.live, t.live, rx.received);
        }
      case EndFlush(kept, ok) =>
        FlushingOf(s);
      case _ =>
    }
  }

  lemma OtherKeepsHonest(p: Packages, s: State, k: Track, ev: Event)
    requires Honest(p, s, k) && HonestEvent(p, s, ev) && Can(s, ev)
    requires ev.Reload? || ev.StartRun? || ev.DropRow? || ev.Connect? || ev.GiveUp? || ev.Crash?
    ensures Honest(p, Next(s, ev), k)
  {
    hide D.HexDigest, Flow, Behind;
  }

  lemma TrackKept(k: Track, s: State, ev: Event)
    requires ev.OnClient? ==> !ev.c.TakeReply? && !ev.c.ClickPause?
    ensures NextTrack(k, s, ev) == k
  {
    hide Next, Can;
  }

  lemma TrackStops(k: Track, s: State, ev: Event)
    requires !Can(s, ev)
    ensures NextTrack(k, s, ev) == k
  {
  }

  lemma NextKeepsHonest(p: Packages, s: State, k: Track, ev: Event)
    requires Safe(s) && Honest(p, s, k) && HonestEvent(p, s, ev)
    ensures Honest(p, Next(s, ev), NextTrack(k, s, ev))
  {
    hide Safe, Honest, ServerStep, ServerCan, HonestServerEvent, ClientStep, NextTrack, Crashed, CurrentVersion, NewConn;
    if !ev.OnClient? || (!ev.c.TakeReply? && !ev.c.ClickPause?) {
      TrackKept(k, s, ev);
    }
    if !Can(s, ev) {
      TrackStops(k, s, ev);
    }
    if Can(s, ev) {
      match ev {
        case OnServer(i, e) => ServerKeepsHonest(p, s, k, i, e);
        case OnClient(e) =>
          match e {
            case TakeReply(_, _, _, _) => TakeReplyKeepsHonest(p, s, k, e);
            case TakeFrame(kept, short) => TakeFrameKeepsHonest(p, s, k, kept, short);
            case ClickPause(kept, sendOk) => PauseKeepsHonest(p, s, k, kept, sendOk);
            case Spill(n) => SpillKeepsHonest(p, s, k, n);
            case _ => LaterKeepsHonest(p, s, k, e);
          }
        case _ => OtherKeepsHonest(p, s, k, ev);
      }
    }
  }

  lemma StartIsHonest(p: Packages, s: State)
    requires HonestStart(p, s)
    ensures Honest(p, s, Track([], 0))
  {
    hide D.HexDigest;
  }

  /** In an honest run the invariants of this module hold in every state. */
  lemma {:induction false} RunsAreHonest(p: Packages, s: State, evs: seq<Event>)
    requires HonestStart(p, s) && HonestRun(p, s, evs)
    ensures Safe(After(s, evs)) && Honest(p, After(s, evs), TrackAfter(s, evs))
  {
    if |evs| == 0 {
      StartIsHonest(p, s);
      RunsAreSafe(s, []);
    } else {
      hide Next, Safe, Honest, HonestEvent, NextTrack;
      RunsAreSafe(s, evs);
      RunsAreHonest(p, s, evs[..|evs| - 1]);
      NextKeepsHonest(p, After(s, evs[..|evs| - 1]), TrackAfter(s, evs[..|evs| - 1]), evs[|evs| - 1]);
    }
  }

  // ---- What it means ----

  /** What is behind the count is the package exactly when nothing is lost and the start was right. */
  lemma BehindIsPrefixIff(file: seq<byte>, have: seq<byte>, k: Track, at: nat)
    requires Behind(file, have, k, at)
    ensures have == file[..at] <==> k.lost == 0 && IsPrefix(k.start, file)
  {
    var n := |k.start|;
    assert file[..n] + file[n..at] == file[..at];
    if have == file[..at] {
      assert have[..n] == k.start && file[..at][..n] == file[..n];
    }
  }

  /** The bytes in flight, and what there is of the package altogether, for an open download. */
  ghost predicate Conserved(package: seq<byte>, c: Conn, received: nat, have: seq<byte>, k: Track) {
    var end := received + |Payload(c.toClient)|;
    && end <= |package| && Payload(c.toClient) == package[received..end]
    && (S.Streaming(c.server) ==> end == c.server.stream.sent)
    && (c.server.Finishing? || c.server.AwaitResult? ==> end == |package|)
    && ((exists i | 0 <= i < |c.toClient| :: c.toClient[i].Done?) ==> end == |package|)
    && received == |have| + k.lost
    && (have + Payload(c.toClient) == package[..end] <==> k.lost == 0 && IsPrefix(k.start, package))
  }

  lemma FlowIsConserved(package: seq<byte>, c: Conn, received: nat, have: seq<byte>, k: Track)
    requires Flow(package, c, received) && Behind(package, have, k, received)
    ensures Conserved(package, c, received, have, k)
  {
    BehindIsPrefixIff(package, have, k, received);
    JoinedIff(package, have, Payload(c.toClient), received);
  }

  /**
   Conservation: while a download is open, the bytes in flight are the package from the client's count to the
   server's, and to the end once the server has left its loop or a TRANSFER_DONE is in flight. The count
   exceeds what the client has by what its pauses lost; and file, buffer and bytes in flight together are
   the first `sent` bytes of the package exactly when nothing is lost and the attempt started from a prefix.
   */
  lemma BytesAreConserved(p: Packages, s: State, evs: seq<Event>)
    requires HonestStart(p, s) && HonestRun(p, s, evs)
    requires After(s, evs).client.Receiving? || After(s, evs).client.Holding?
    ensures var t := After(s, evs);
      var rx := t.client.rx;
      Conserved(p(rx.version), t.live, rx.received, Have(t, rx), TrackAfter(s, evs))
  {
    hide After, TrackAfter, Safe, D.HexDigest, Flow, Behind, Conserved, HonestStart, HonestRun;
    RunsAreHonest(p, s, evs);
    var t := After(s, evs);
    var rx := t.client.rx;
    FlowIsConserved(p(rx.version), t.live, rx.received, Have(t, rx), TrackAfter(s, evs));
  }

  lemma JoinedIff(file: seq<byte>, have: seq<byte>, flight: seq<byte>, at: nat)
    requires at + |flight| <= |file| && flight == file[at..at + |flight|] && |have| <= at
    ensures have + flight == file[..at + |flight|] <==> have == file[..at]
  {
    var all := file[..at + |flight|];
    assert all == file[..at] + flight;
    if have + flight == all {
      assert |have| == at;
      assert (have + flight)[..at] == have && all[..at] == file[..at];
    }
  }

  /** The branch for too many bytes is never taken, whatever was lost before. */
  lemma NeverTooManyBytes(p: Packages, s: State, evs: seq<Event>)
    requires HonestStart(p, s) && HonestRun(p, s, evs) && After(s, evs).client.Receiving?
    requires |After(s, evs).live.toClient| > 0 && After(s, evs).live.toClient[0].Data?
    ensures var t := After(s, evs);
      t.client.rx.received + |t.live.toClient[0].bytes| <= t.client.rx.size
  {
    hide After, TrackAfter, Safe, Flow, Behind, HonestStart, HonestRun;
    RunsAreHonest(p, s, evs);
    var t := After(s, evs);
    InTransferOf(t);
    DataKeepsFlow(p(t.client.rx.version), t.live, t.client.rx.received);
  }

  // ---- What is lost, in terms of the events ----

  /** The `i`-th event is a pause whose flush did not write the whole buffer. */
  predicate ShortPauseAt(s: State, evs: seq<Event>, i: nat)
    requires i < |evs|
  {
    var t := After(s, evs[..i]);
    Can(t, evs[i]) && evs[i].OnClient? && evs[i].c.ClickPause? && evs[i].c.kept < |t.client.rx.buffered|
  }

  /** The `i`-th event opens the file for a new download. */
  predicate StartsAt(s: State, evs: seq<Event>, i: nat)
    requires i < |evs|
  {
    var t := After(s, evs[..i]);
    Can(t, evs[i]) && evs[i].OnClient? && evs[i].c.TakeReply? && Next(t, evs[i]).client.Receiving?
  }

  lemma NextLost(k: Track, s: State, evs: seq<Event>, i: nat)
    requires i < |evs|
    ensures var lost := NextTrack(k, After(s, evs[..i]), evs[i]).lost;
      if StartsAt(s, evs, i) then lost == 0
      else lost >= k.lost && (lost == k.lost <==> !ShortPauseAt(s, evs, i))
  {
    hide Next, After;
  }

  lemma SamePrefix(s: State, evs: seq<Event>, n: nat, i: nat)
    requires i < n <= |evs|
    ensures ShortPauseAt(s, evs[..n], i) <==> ShortPauseAt(s, evs, i)
    ensures StartsAt(s, evs[..n], i) <==> StartsAt(s, evs, i)
  {
    hide Next, After;
    assert evs[..n][..i] == evs[..i];
  }

  /** The `i`-th event is a short pause of a download that no later event has replaced by a new one. */
  predicate LossAt(s: State, evs: seq<Event>, i: nat)
    requires i < |evs|
  {
    ShortPauseAt(s, evs, i) && forall j | i < j < |evs| :: !StartsAt(s, evs, j)
  }

  predicate LossIn(s: State, evs: seq<Event>) {
    exists i: nat :: i < |evs| && LossAt(s, evs, i)
  }

  lemma LossInSnoc(s: State, evs: seq<Event>)
    requires |evs| > 0
    ensures var n := |evs| - 1;
      LossIn(s, evs) <==> ShortPauseAt(s, evs, n) || (LossIn(s, evs[..n]) && !StartsAt(s, evs, n))
  {
    hide ShortPauseAt, StartsAt, LossAt;
    var n := |evs| - 1;
    forall i: nat | i < n ensures LossAt(s, evs, i) <==> LossAt(s, evs[..n], i) && !StartsAt(s, evs, n) {
      LossSnoc(s, evs, i);
    }
    LossAtEnd(s, evs);
    if LossIn(s, evs[..n]) && !StartsAt(s, evs, n) {
      var i: nat :| i < n && LossAt(s, evs[..n], i);
      assert LossAt(s, evs, i);
    }
  }

  lemma LossAtEnd(s: State, evs: seq<Event>)
    requires |evs| > 0
    ensures LossAt(s, evs, |evs| - 1) <==> ShortPauseAt(s, evs, |evs| - 1)
  {
    hide ShortPauseAt, StartsAt;
  }

  /** Bytes are lost exactly when a pause since the last start of a download flushed short. */
  lemma {:induction false} LostIffShortPause(s: State, evs: seq<Event>)
    ensures TrackAfter(s, evs).lost > 0 <==> LossIn(s, evs)
  {
    hide Next, After, NextTrack, ShortPauseAt, StartsAt, LossAt;
    if |evs| > 0 {
      hide LossIn;
      var n := |evs| - 1;
      LostIffShortPause(s, evs[..n]);
      NextLost(TrackAfter(s, evs[..n]), s, evs, n);
      LossInSnoc(s, evs);
      ShortOrStart(s, evs, n);
    }
  }

  lemma ShortOrStart(s: State, evs: seq<Event>, i: nat)
    requires i < |evs|
    ensures !(ShortPauseAt(s, evs, i) && StartsAt(s, evs, i))
  {
  }

  lemma LossSnoc(s: State, evs: seq<Event>, i: nat)
    requires i < |evs| - 1
    ensures LossAt(s, evs, i) <==> LossAt(s, evs[..|evs| - 1], i) && !StartsAt(s, evs, |evs| - 1)
  {
    hide ShortPauseAt, StartsAt;
    var n := |evs| - 1;
    SamePrefix(s, evs, n, i);
    forall j: nat | i < j < n ensures StartsAt(s, evs[..n], j) <==> StartsAt(s, evs, j) {
      SamePrefix(s, evs, n, j);
    }
  }

  /**
   When the file that reaches the check is the package: exactly when no pause of this download flushed short, all of
   them having been resumed, and the download started from a prefix. It is shorter by what was lost.
   */
  lemma WholeFileIff(p: Packages, s: State, evs: seq<Event>)
    requires HonestStart(p, s) && HonestRun(p, s, evs) && After(s, evs).client.Verifying?
    ensures var (t, k) := (After(s, evs), TrackAfter(s, evs));
      var v := t.client.version;
      && v in t.parts && |t.parts[v]| + k.lost == |p(v)|
      && (t.parts[v] == p(v) <==> !LossIn(s, evs) && IsPrefix(k.start, p(v)))
  {
    hide After, TrackAfter, Safe, D.HexDigest, HonestStart, HonestRun, LossIn;
    RunsAreHonest(p, s, evs);
    LostIffShortPause(s, evs);
    var (t, k) := (After(s, evs), TrackAfter(s, evs));
    var v := t.client.version;
    BehindIsPrefixIff(p(v), t.parts[v], k, |p(v)|);
    assert p(v)[..|p(v)|] == p(v);
  }
}
