/**
 A download that goes on: after any end of an attempt, a new connection and the same offer, the stream carries the
 rest of the package and nothing else, and when it completes the installed file is the package.
 */
module TransferProgress {
  import opened Prelude
  import opened Messages
  import opened Transfer
  import opened TransferSteps
  import opened TransferSafety
  import opened TransferConservation
  import TransferResume
  import Simulation
  import S = PackageService
  import D = Downloader
  import Hex
  import SemVer

  /** The number of the next connection. */
  function NextConn(s: State): nat { |s.past| + 1 }

  /** What the server would have to stream from: the `.part` file, unless it is too long. */
  function Start(s: State): seq<byte> {
    Kept(BytesOf(s.parts, s.manifest.version), s.manifest.size)
  }

  /** A new connection, the offer, the request, and the file of this size opened by the server. */
  function Restart(n: nat, size: nat, stop: bool, fatal: bool): seq<Event> {
    [Connect, OnServer(n, TakeVersion)] + [OnClient(TakeReply(true, stop, true, fatal)), OnServer(n, TakeDownload(size))]
  }

  /** The state of a download in progress on the next connection. */
  function InProgress(s: State, received: nat, buffered: seq<byte>, server: S.Server, toClient: seq<ServerMsg>): State {
    var m := s.manifest;
    s.(past := s.past + [s.live], client := D.Receiving(D.Rx.Rx(m.version, m.size, m.digest, received, buffered)),
       parts := s.parts[m.version := Start(s)], live := Conn(s.current, server, toClient, [], Some(m), false))
  }

  /** Between two attempts, with an update to offer. */
  ghost predicate CanRestart(s: State) {
    Between(s.client) && SemVer.Below(s.current, s.manifest.version)
  }

  lemma BelowIsValid(a: string, b: string)
    requires SemVer.Below(a, b)
    ensures SemVer.Valid(b)
  {
    hide SemVer.Parse, SemVer.Denotes;
    var x: nat, y: nat, z: nat, u: nat, v: nat, w: nat :| SemVer.Denotes(a, x, y, z) && SemVer.Denotes(b, u, v, w);
    SemVer.DenotesIffParsed(b, u, v, w);
  }

  lemma AskAgain(s: State)
    requires CanRestart(s)
    ensures After(s, [Connect, OnServer(NextConn(s), TakeVersion)]) ==
      s.(past := s.past + [s.live], client := D.AwaitOffer,
         live := Conn(s.current, S.AwaitDownload(s.manifest), [Offer(s.manifest.version, s.manifest.size, s.manifest.digest)],
                      [], Some(s.manifest), false))
  {
    var s1 := s.(client := D.AwaitOffer, past := s.past + [s.live], live := NewConn(s.current));
    assert Next(s, Connect) == s1;
    AfterTwo(s, Connect, OnServer(NextConn(s), TakeVersion));
    hide After, SemVer.Below;
    UpdateDecision(s1, NextConn(s));
    hide ServerStep;
  }

  /** The server's place when it has opened the file at an offset. */
  function Opened(m: Manifest, offset: nat): S.Server {
    if offset < m.size then S.Polling(S.Stream(m, m.size, offset)) else S.Finishing(m)
  }

  /** The request is for what the `.part` file does not have, and the stream starts there. */
  lemma Restarts(s: State, stop: bool, fatal: bool)
    requires CanRestart(s)
    ensures After(s, Restart(NextConn(s), s.manifest.size, stop, fatal)) ==
      InProgress(s, |Start(s)|, [], Opened(s.manifest, |Start(s)|), [])
  {
    hide After, Next, SemVer.Below, SemVer.Valid;
    var (m, n) := (s.manifest, NextConn(s));
    var (take, open) := (OnClient(TakeReply(true, stop, true, fatal)), OnServer(n, TakeDownload(m.size)));
    AskAgain(s);
    BelowIsValid(s.current, m.version);
    var s2 := After(s, [Connect, OnServer(n, TakeVersion)]);
    OfferTaken(s2, stop, fatal);
    var s3 := Next(s2, take);
    assert s3.live.toServer == [DownloadReq(|Start(s)|)] && s3.live.toClient == [];
    OpensAt(s3, n, |Start(s)|);
    AfterTwo(s2, take, open);
    AfterConcat(s, [Connect, OnServer(n, TakeVersion)], [take, open]);
  }

  lemma OpensAt(s: State, i: nat, offset: nat)
    requires i == |s.past| && s.live.server.AwaitDownload? && s.live.toServer == [DownloadReq(offset)]
    requires offset <= s.live.server.manifest.size && !s.live.counted
    ensures var m := s.live.server.manifest;
      Next(s, OnServer(i, TakeDownload(m.size))) == s.(live := s.live.(server := Opened(m, offset), toServer := []))
  {
  }

  // ---- The client takes what is there ----

  /** So many frames taken, one after the other. */
  function TakeFrames(k: nat): (evs: seq<Event>)
    ensures |evs| == k && forall i | 0 <= i < k :: evs[i] == OnClient(TakeFrame(0, false))
  {
    seq(k, _ => OnClient(TakeFrame(0, false)))
  }

  ghost predicate AllData(frames: seq<ServerMsg>) {
    forall i | 0 <= i < |frames| :: frames[i].Data?
  }

  /** Frames that fit are all received. */
  lemma {:induction false} FramesTaken(s: State, frames: seq<ServerMsg>, rest: seq<ServerMsg>)
    requires s.client.Receiving? && AllData(frames) && s.live.toClient == frames + rest
    requires s.client.rx.received + |Payload(frames)| <= s.client.rx.size
    ensures var (rx, bytes) := (s.client.rx, Payload(frames));
      After(s, TakeFrames(|frames|)) ==
        s.(client := D.Receiving(rx.(received := rx.received + |bytes|, buffered := rx.buffered + bytes)),
           live := s.live.(toClient := rest))
    decreases |frames|
  {
    hide After, Next;
    var rx := s.client.rx;
    if |frames| == 0 {
      assert frames + rest == rest && rx.buffered + [] == rx.buffered;
      Simulation.NoEvents(s);
      assert TakeFrames(0) == [];
    } else {
      var (head, tail) := (frames[0], frames[1..]);
      assert frames + rest == [head] + (tail + rest) && Payload(frames) == head.bytes + Payload(tail);
      DataTaken(s, 0);
      var s1 := Next(s, OnClient(TakeFrame(0, false)));
      assert s1.live.toClient == tail + rest;
      FramesTaken(s1, tail, rest);
      AfterOne(s, OnClient(TakeFrame(0, false)));
      assert TakeFrames(|frames|) == [OnClient(TakeFrame(0, false))] + TakeFrames(|tail|);
      AfterConcat(s, [OnClient(TakeFrame(0, false))], TakeFrames(|tail|));
      assert (rx.buffered + head.bytes) + Payload(tail) == rx.buffered + (head.bytes + Payload(tail));
    }
  }

  /** TRANSFER_DONE, the flush, the check and the rename, when nothing goes wrong. */
  function Finish(reportOk: bool): seq<Event> {
    [OnClient(TakeFrame(0, false)), OnClient(EndFlush(0, true))] + [OnClient(Check(true, reportOk)), OnClient(Rename(true))]
  }

  /** With the whole package on disk and in the buffer, the file is installed. */
  lemma Finishes(s: State, package: seq<byte>, reportOk: bool)
    requires s.client.Receiving? && s.live.toClient == [Done(s.client.rx.digest)]
    requires s.client.rx.digest == D.HexDigest(package)
    requires BytesOf(s.parts, s.client.rx.version) + s.client.rx.buffered == package
    ensures var (v, t) := (s.client.rx.version, After(s, Finish(reportOk)));
      && t == s.(client := D.Reporting(v), parts := s.parts - {v}, finals := s.finals[v := package],
                 live := s.live.(toClient := []), installs := s.installs + [Install(|s.past|, v, package, s.client.rx.digest)])
  {
    hide After, D.HexDigest, Hex.EqualIgnoringCase;
    var rx := s.client.rx;
    var v := rx.version;
    TransferResume.SameTextIsEqual(rx.digest);
    DoneTaken(s, 0, false);
    var s1 := s.(client := D.Flushing(rx), live := s.live.(toClient := []));
    FlushesAll(s1, package);
    var s2 := s1.(client := D.Verifying(v, rx.digest), parts := s1.parts[v := package]);
    AfterTwo(s, OnClient(TakeFrame(0, false)), OnClient(EndFlush(0, true)));
    ChecksAndRenames(s2, package, reportOk);
    AfterTwo(s2, OnClient(Check(true, reportOk)), OnClient(Rename(true)));
    AfterConcat(s, [OnClient(TakeFrame(0, false)), OnClient(EndFlush(0, true))],
                [OnClient(Check(true, reportOk)), OnClient(Rename(true))]);
    assert s.parts[v := package] - {v} == s.parts - {v};
  }

  lemma FlushesAll(s: State, package: seq<byte>)
    requires s.client.Flushing? && BytesOf(s.parts, s.client.rx.version) + s.client.rx.buffered == package
    ensures var rx := s.client.rx;
      Next(s, OnClient(EndFlush(0, true))) ==
        s.(client := D.Verifying(rx.version, rx.digest), parts := s.parts[rx.version := package])
  {
    assert s.live.toServer + [] == s.live.toServer;
  }

  lemma ChecksAndRenames(s: State, package: seq<byte>, reportOk: bool)
    requires s.client.Verifying? && s.client.version in s.parts && s.parts[s.client.version] == package
    requires s.client.digest == D.HexDigest(package)
    ensures var v := s.client.version;
      Next(Next(s, OnClient(Check(true, reportOk))), OnClient(Rename(true))) ==
        s.(client := D.Reporting(v), parts := s.parts - {v}, finals := s.finals[v := package],
           installs := s.installs + [Install(|s.past|, v, package, s.client.digest)])
  {
    hide D.HexDigest, Hex.EqualIgnoringCase;
    TransferResume.SameTextIsEqual(s.client.digest);
    var s1 := s.(client := D.Renaming(s.client.version, s.client.digest));
    assert s.live.toServer + [] == s.live.toServer;
    PutBack(s.parts, s.client.version);
    assert Next(s, OnClient(Check(true, reportOk))) == s1;
  }

  // ---- The stream in between ----

  lemma {:induction false} StreamKeepsManifest(server: S.Server, turns: seq<S.Turn>, chunk: nat)
    requires server.Polling? && server.stream.sent <= server.stream.size
    ensures var final := S.StreamRun(server, turns, chunk).0;
      final.Finishing? ==> final.manifest == server.stream.manifest
    decreases |turns|
  {
    hide S.AfterPoll;
    if |turns| > 0 {
      var next := S.TurnStep(server.stream, turns[0], chunk).0;
      if next.Polling? {
        StreamKeepsManifest(next, turns[1..], chunk);
      }
    }
  }

  lemma {:induction false} NothingUnread(server: S.Server, turns: seq<S.Turn>, chunk: nat)
    requires server.Polling? ==> server.stream.sent <= server.stream.size
    requires Simulation.Sends(server, turns, chunk, [])
    ensures Simulation.Unread(server, turns, chunk, []) == []
    decreases |turns|
  {
    hide S.TurnStep, Simulation.Reads;
    if server.Polling? && |turns| > 0 {
      NothingUnread(S.TurnStep(server.stream, turns[0], chunk).0, turns[1..], chunk);
    }
  }

  lemma FramesAreData(server: S.Server, turns: seq<S.Turn>, chunk: nat)
    requires server.Polling? && server.stream.sent <= server.stream.size
    ensures AllData(S.StreamRun(server, turns, chunk).1)
  {
    hide S.StreamRun;
    var frames := S.StreamRun(server, turns, chunk).1;
    forall i | 0 <= i < |frames| ensures frames[i].Data? {
      S.FramesWellFormed(server, turns, chunk, i);
    }
  }

  /** What a script makes the server stream of the package, from the offset to the end, while nobody pauses it. */
  ghost predicate Streams(package: seq<byte>, server: S.Server, turns: seq<S.Turn>, chunk: nat)
    requires server.Polling? ==> server.stream.sent <= server.stream.size
  {
    && S.ReadsFile(package, server, turns, chunk) && Simulation.Sends(server, turns, chunk, [])
    && S.StreamRun(server, turns, chunk).0.Finishing?
  }

  function StreamingRun(n: nat, server: S.Server, turns: seq<S.Turn>, chunk: nat): seq<Event>
    requires server.Polling? ==> server.stream.sent <= server.stream.size
  {
    Simulation.AllOnServer(n, Simulation.StreamEvents(server, turns, chunk))
  }

  /** The frames of the stream are the rest of the package. */
  lemma StreamsTheRest(m: Manifest, offset: nat, package: seq<byte>, turns: seq<S.Turn>, chunk: nat)
    requires offset <= m.size == |package| && Streams(package, Opened(m, offset), turns, chunk)
    ensures var (final, frames) := S.StreamRun(Opened(m, offset), turns, chunk);
      final == S.Finishing(m) && AllData(frames) && Payload(frames) == package[offset..]
  {
    hide S.ReadsFile, Simulation.Sends, Payload;
    var server := Opened(m, offset);
    if offset < m.size {
      hide S.StreamRun;
      S.StreamCarriesFile(package, server, turns, chunk);
      StreamKeepsManifest(server, turns, chunk);
      FramesAreData(server, turns, chunk);
    } else {
      PayloadNone();
    }
  }

  /** Within the whole system: only the live connection changes, by the frames it has been sent. */
  lemma StreamingIsRun(r: State, m: Manifest, offset: nat, package: seq<byte>, turns: seq<S.Turn>, chunk: nat)
    requires offset <= m.size == |package| && Streams(package, Opened(m, offset), turns, chunk)
    requires r.live.server == Opened(m, offset) && r.live.toServer == [] && r.live.toClient == []
    ensures var t := After(r, StreamingRun(|r.past|, Opened(m, offset), turns, chunk));
      t == r.(live := r.live.(server := S.Finishing(m), toClient := S.StreamRun(Opened(m, offset), turns, chunk).1),
              served := t.served)
  {
    hide S.ReadsFile, Simulation.Sends, After, S.StreamRun, Simulation.StreamEvents, Payload, Simulation.Unread;
    var (server, n) := (Opened(m, offset), |r.past|);
    StreamsTheRest(m, offset, package, turns, chunk);
    assert ConnAt(r, n) == r.live;
    if offset < m.size {
      Simulation.StreamIsRun(r, n, turns, chunk);
      NothingUnread(server, turns, chunk);
      var t := After(r, StreamingRun(n, server, turns, chunk));
      assert t.past == r.past by {
        assert forall j: nat | j < |r.past| :: ConnAt(t, j) == t.past[j] && ConnAt(r, j) == r.past[j];
      }
      assert ConnAt(t, n) == t.live;
      var frames := S.StreamRun(server, turns, chunk).1;
      assert [] + frames == frames;
    } else {
      NoStream(r, m, turns, chunk);
    }
  }

  lemma NoStream(r: State, m: Manifest, turns: seq<S.Turn>, chunk: nat)
    ensures StreamingRun(|r.past|, S.Finishing(m), turns, chunk) == [] && After(r, []) == r
    ensures S.StreamRun(S.Finishing(m), turns, chunk) == (S.Finishing(m), [])
  {
  }

  lemma SendsDone(s: State)
    requires s.live.server.Finishing? && !s.live.counted
    ensures var m := s.live.server.manifest;
      Next(s, OnServer(|s.past|, SendDone)) ==
        s.(live := s.live.(server := S.AwaitResult(m), toClient := s.live.toClient + [Done(m.digest)]))
  {
  }

  // ---- The whole download ----

  /** From the open stream on: all frames, TRANSFER_DONE, and the end of the attempt. */
  function Rest(n: nat, server: S.Server, turns: seq<S.Turn>, chunk: nat, reportOk: bool): seq<Event>
    requires server.Polling? ==> server.stream.sent <= server.stream.size
  {
    (StreamingRun(n, server, turns, chunk) + [OnServer(n, SendDone)])
      + (TakeFrames(|S.StreamRun(server, turns, chunk).1|) + Finish(reportOk))
  }

  /** The package is what the manifest describes, and what the download starts from is the front of it. */
  ghost predicate Matches(m: Manifest, start: seq<byte>, package: seq<byte>) {
    m.size == |package| && m.digest == D.HexDigest(package) && IsPrefix(start, package)
  }

  /** The client and its open connection, just after the request. */
  ghost predicate JustOpened(r: State, m: Manifest, start: seq<byte>) {
    && |start| <= m.size
    && r.client == D.Receiving(D.Rx.Rx(m.version, m.size, m.digest, |start|, []))
    && m.version in r.parts && r.parts[m.version] == start
    && r.live.server == Opened(m, |start|) && r.live.toServer == [] && r.live.toClient == [] && !r.live.counted
  }

  lemma TakesAll(s: State, m: Manifest, start: seq<byte>, package: seq<byte>, frames: seq<ServerMsg>, reportOk: bool)
    requires Matches(m, start, package) && AllData(frames) && Payload(frames) == package[|start|..]
    requires s.client == D.Receiving(D.Rx.Rx(m.version, m.size, m.digest, |start|, []))
    requires m.version in s.parts && s.parts[m.version] == start && s.live.toClient == frames + [Done(m.digest)]
    ensures var t := After(s, TakeFrames(|frames|) + Finish(reportOk));
      && t.client == D.Reporting(m.version) && t.parts == s.parts - {m.version}
      && t.finals == s.finals[m.version := package]
      && t.installs == s.installs + [Install(|s.past|, m.version, package, m.digest)]
  {
    hide After, Payload, D.HexDigest, Finish, TakeFrames;
    FramesTaken(s, frames, [Done(m.digest)]);
    var s1 := After(s, TakeFrames(|frames|));
    assert [] + Payload(frames) == package[|start|..];
    assert start + package[|start|..] == package;
    Finishes(s1, package, reportOk);
    AfterConcat(s, TakeFrames(|frames|), Finish(reportOk));
  }

  lemma Completes(r: State, m: Manifest, start: seq<byte>, package: seq<byte>, turns: seq<S.Turn>, chunk: nat, reportOk: bool)
    requires Matches(m, start, package) && JustOpened(r, m, start) && Streams(package, Opened(m, |start|), turns, chunk)
    ensures var t := After(r, Rest(|r.past|, Opened(m, |start|), turns, chunk, reportOk));
      && t.client == D.Reporting(m.version) && t.parts == r.parts - {m.version}
      && t.finals == r.finals[m.version := package]
      && t.installs == r.installs + [Install(|r.past|, m.version, package, m.digest)]
  {
    hide After, Streams, D.HexDigest, Finish, TakeFrames, S.StreamRun, StreamingRun, Payload, Next, IsPrefix;
    var (n, server) := (|r.past|, Opened(m, |start|));
    var (run, frames) := (StreamingRun(n, server, turns, chunk), S.StreamRun(server, turns, chunk).1);
    StreamsTheRest(m, |start|, package, turns, chunk);
    StreamingIsRun(r, m, |start|, package, turns, chunk);
    var s1 := After(r, run);
    SendsDone(s1);
    AfterOne(s1, OnServer(n, SendDone));
    AfterConcat(r, run, [OnServer(n, SendDone)]);
    var s2 := After(r, run + [OnServer(n, SendDone)]);
    TakesAll(s2, m, start, package, frames, reportOk);
    AfterConcat(r, run + [OnServer(n, SendDone)], TakeFrames(|frames|) + Finish(reportOk));
  }

  /** A new connection and everything after it. */
  function Redownload(s: State, turns: seq<S.Turn>, chunk: nat, stop: bool, fatal: bool, reportOk: bool): seq<Event> {
    Restart(NextConn(s), s.manifest.size, stop, fatal)
      + Rest(NextConn(s), Opened(s.manifest, |Start(s)|), turns, chunk, reportOk)
  }

  /**
   Resuming works. Whatever ended the last attempt: with a `.part` file that is a front of the package, or with one
   that is too long, a new connection to the same offer streams exactly the bytes that are not there, and when nobody
   pauses it and nothing fails the installed file is the package.
   */
  lemma ResumedDownloadInstalls(s: State, package: seq<byte>, turns: seq<S.Turn>, chunk: nat,
                                stop: bool, fatal: bool, reportOk: bool)
    requires CanRestart(s) && Matches(s.manifest, Start(s), package)
    requires Streams(package, Opened(s.manifest, |Start(s)|), turns, chunk)
    ensures Payload(S.StreamRun(Opened(s.manifest, |Start(s)|), turns, chunk).1) == package[|Start(s)|..]
    ensures var (v, t) := (s.manifest.version, After(s, Redownload(s, turns, chunk, stop, fatal, reportOk)));
      && t.client == D.Reporting(v) && t.finals == s.finals[v := package] && t.parts == s.parts - {v}
      && t.installs == s.installs + [Install(NextConn(s), v, package, s.manifest.digest)]
  {
    hide After, Streams, D.HexDigest, S.StreamRun, Rest, Restart, SemVer.Below, Payload, Next, IsPrefix;
    var (m, start) := (s.manifest, Start(s));
    Restarts(s, stop, fatal);
    var r := InProgress(s, |start|, [], Opened(m, |start|), []);
    StreamsTheRest(m, |start|, package, turns, chunk);
    Completes(r, m, start, package, turns, chunk, reportOk);
    AfterConcat(s, Restart(NextConn(s), m.size, stop, fatal), Rest(NextConn(s), Opened(m, |start|), turns, chunk, reportOk));
    assert r.parts - {m.version} == s.parts - {m.version};
  }

  /** A state that a lossless run with an honest server reaches. */
  ghost predicate Reached(p: Packages, s: State, evs: seq<Event>, t: State) {
    && HonestStart(p, s) && HonestRun(p, s, evs)
    && TransferResume.PartsOk(p, s.parts) && TransferResume.LosslessRun(s, evs) && t == After(s, evs)
  }

  lemma ReachedMatches(p: Packages, s: State, evs: seq<Event>, t: State)
    requires Reached(p, s, evs, t)
    ensures var v := t.manifest.version;
      Matches(t.manifest, Start(t), p(v)) && Start(t) == BytesOf(t.parts, v)
  {
    hide HonestStart, HonestRun, TransferResume.LosslessRun, TransferResume.PartsOk, After, D.HexDigest, Safe;
    var v := t.manifest.version;
    RunsAreHonest(p, s, evs);
    if v in t.parts {
      TransferResume.PartsArePrefixes(p, s, evs, v);
    }
  }

  /**
   So in every such state between two attempts the download can be completed, from exactly the bytes that are on
   the disk.
   */
  lemma ReachedDownloadResumes(p: Packages, s: State, evs: seq<Event>, t: State, turns: seq<S.Turn>, chunk: nat,
                               stop: bool, fatal: bool, reportOk: bool)
    requires Reached(p, s, evs, t) && CanRestart(t)
    requires Streams(p(t.manifest.version), Opened(t.manifest, |Start(t)|), turns, chunk)
    ensures var (v, frames) := (t.manifest.version, S.StreamRun(Opened(t.manifest, |Start(t)|), turns, chunk).1);
      && Start(t) == BytesOf(t.parts, v) && Start(t) + Payload(frames) == p(v)
      && After(t, Redownload(t, turns, chunk, stop, fatal, reportOk)).finals == t.finals[v := p(v)]
  {
    hide After, Streams, D.HexDigest, S.StreamRun, SemVer.Below, Payload, Redownload, Reached, Start;
    ReachedMatches(p, s, evs, t);
    var v := t.manifest.version;
    ResumedDownloadInstalls(t, p(v), turns, chunk, stop, fatal, reportOk);
    assert Start(t) + p(v)[|Start(t)|..] == p(v);
  }

  // ---- Such a stream exists ----

  /** The script of a server that nobody disturbs, and whose reads are all full. */
  function ReadAll(package: seq<byte>, sent: nat, chunk: nat): seq<S.Turn>
    requires sent <= |package| && 0 < chunk
    decreases |package| - sent
  {
    if sent == |package| then []
    else
      [S.Turn.Turn(S.Nothing, S.Nothing, package[sent..], false, true)]
        + ReadAll(package, if |package| - sent < chunk then |package| else sent + chunk, chunk)
  }

  lemma {:induction false} ReadAllStreams(m: Manifest, package: seq<byte>, sent: nat, chunk: nat)
    requires sent <= m.size == |package| && 0 < chunk
    ensures Streams(package, Opened(m, sent), ReadAll(package, sent, chunk), chunk)
    decreases |package| - sent
  {
    if sent < |package| {
      var next: nat := if |package| - sent < chunk then |package| else sent + chunk;
      var turns := ReadAll(package, sent, chunk);
      ReadAllStreams(m, package, next, chunk);
      assert turns[1..] == ReadAll(package, next, chunk);
      assert S.TurnStep(Opened(m, sent).stream, turns[0], chunk).0 == Opened(m, next);
      assert Simulation.Reads(turns[0]) == [];
    }
  }

  /** Whatever has happened, nothing is lost for good: the update can still be installed. */
  lemma UpdateCanStillComplete(p: Packages, s: State, evs: seq<Event>, t: State, chunk: nat)
    requires Reached(p, s, evs, t) && CanRestart(t) && 0 < chunk
    ensures exists more :: After(t, more).finals == t.finals[t.manifest.version := p(t.manifest.version)]
  {
    hide After, Streams, D.HexDigest, SemVer.Below, Redownload, Reached, Start;
    ReachedMatches(p, s, evs, t);
    var package := p(t.manifest.version);
    var turns := ReadAll(package, |Start(t)|, chunk);
    ReadAllStreams(t.manifest, package, |Start(t)|, chunk);
    ReachedDownloadResumes(p, s, evs, t, turns, chunk, false, false, true);
    var more := Redownload(t, turns, chunk, false, false, true);
    assert After(t, more).finals == t.finals[t.manifest.version := package];
  }
}
