/**
 Runs in full detail. Two promises that the code does not keep, each with a run that breaks it: a pause may lose
 bytes when its flush fails, and an installed update need not be counted by the server, with the condition under
 which it is. And one run that meets all the assumptions, a whole download with a pause.
 */
module TransferWitnesses {
  import opened Prelude
  import opened Messages
  import opened Transfer
  import opened TransferSafety
  import opened TransferConservation
  import opened TransferResume
  import S = PackageService
  import D = Downloader
  import Hex
  import SemVer

  /** A server that offers version 1.0.0 to a client that has nothing. */
  function Fresh(m: Manifest): State {
    State(m, [], Conn("", S.Closed, [], [], None, false), D.Ended(D.Success), "", map[], map[], None, 0, [])
  }

  lemma FirstVersionIsNewer()
    ensures SemVer.Older("0.0.0", "1.0.0") && SemVer.Valid("1.0.0")
  {
    hide SemVer.Parse;
    SemVer.SmallVersions();
  }

  const ASK := [StartRun(true), Connect, OnServer(1, TakeVersion)]

  /** The state in which version 1.0.0 is offered. */
  function Offered(m: Manifest): State {
    Fresh(m).(
      past := [Fresh(m).live], current := "0.0.0", client := D.AwaitOffer,
      live := Conn("0.0.0", S.AwaitDownload(m), [Offer(m.version, m.size, m.digest)], [], Some(m), false))
  }

  lemma ReachOffered(m: Manifest)
    requires m.version == "1.0.0"
    ensures After(Fresh(m), ASK) == Offered(m)
  {
    hide SemVer.Parse, SemVer.CompareText, SemVer.Valid, After;
    FirstVersionIsNewer();
    AfterThree(Fresh(m), StartRun(true), Connect, OnServer(1, TakeVersion));
  }

  /** The state of a download of version 1.0.0: the client, its file, and the open connection. */
  function Downloading(m: Manifest, client: D.Client, server: S.Server, toClient: seq<ServerMsg>,
                       toServer: seq<ClientMsg>): State {
    Offered(m).(client := client, parts := map["1.0.0" := []],
                live := Conn("0.0.0", server, toClient, toServer, Some(m), false))
  }

  function Rx(m: Manifest, received: nat, buffered: seq<byte>): D.Rx {
    D.Rx.Rx("1.0.0", m.size, m.digest, received, buffered)
  }

  // ---- A pause that loses bytes ----

  const REQUEST: seq<Event> :=
    [OnClient(TakeReply(true, false, true, false)), OnServer(1, TakeDownload(1)), OnServer(1, FindNothing)]

  function Transmit(b: byte): seq<Event> {
    [OnServer(1, SendChunk([b], false)), OnClient(TakeFrame(0, false)), OnServer(1, SendDone)]
  }

  /** A pause whose flush writes `kept` bytes, its resume, and TRANSFER_DONE. */
  function PauseFor(kept: nat): seq<Event> {
    [OnClient(ClickPause(kept, true)), OnClient(EndHold(D.ResumeSent)), OnClient(TakeFrame(0, false))]
  }

  lemma ReachSending(m: Manifest)
    requires m.version == "1.0.0" && m.size == 1
    ensures After(Offered(m), REQUEST) ==
            Downloading(m, D.Receiving(Rx(m, 0, [])), S.Sending(S.Stream(m, 1, 0)), [], [])
  {
    FirstVersionIsNewer();
    hide SemVer.Valid, SemVer.Older, After;
    AfterThree(Offered(m), REQUEST[0], REQUEST[1], REQUEST[2]);
    var s1 := Next(Offered(m), REQUEST[0]);
    assert s1 == Downloading(m, D.Receiving(Rx(m, 0, [])), S.AwaitDownload(m), [], [DownloadReq(0)]);
  }

  lemma ReachDone(m: Manifest, b: byte)
    requires m.version == "1.0.0" && m.size == 1
    ensures After(Downloading(m, D.Receiving(Rx(m, 0, [])), S.Sending(S.Stream(m, 1, 0)), [], []), Transmit(b)) ==
            Downloading(m, D.Receiving(Rx(m, 1, [b])), S.AwaitResult(m), [Done(m.digest)], [])
  {
    hide After;
    var s := Downloading(m, D.Receiving(Rx(m, 0, [])), S.Sending(S.Stream(m, 1, 0)), [], []);
    AfterThree(s, Transmit(b)[0], Transmit(b)[1], Transmit(b)[2]);
    var s1 := Next(s, Transmit(b)[0]);
    assert s1 == Downloading(m, D.Receiving(Rx(m, 0, [])), S.Finishing(m), [Data([b], true)], []);
    var s2 := Next(s1, Transmit(b)[1]);
    assert s2.client.rx.buffered == [b];
    assert s2 == Downloading(m, D.Receiving(Rx(m, 1, [b])), S.Finishing(m), [], []);
  }

  /** The file after a pause that wrote the first `kept` bytes of the buffer. */
  function Paused(m: Manifest, client: D.Client, toClient: seq<ServerMsg>, toServer: seq<ClientMsg>, file: seq<byte>): State {
    Downloading(m, client, S.AwaitResult(m), toClient, toServer).(parts := map["1.0.0" := file])
  }

  lemma ReachFlushing(m: Manifest, buffered: seq<byte>, kept: nat)
    requires m.version == "1.0.0" && |buffered| == m.size
    ensures After(Downloading(m, D.Receiving(Rx(m, m.size, buffered)), S.AwaitResult(m), [Done(m.digest)], []), PauseFor(kept)) ==
            Paused(m, D.Flushing(Rx(m, m.size, [])), [], [Pause(m.size), Resume], D.Take(buffered, kept))
  {
    SameTextIsEqual(m.digest);
    hide After, Hex.EqualIgnoringCase;
    var s := Downloading(m, D.Receiving(Rx(m, m.size, buffered)), S.AwaitResult(m), [Done(m.digest)], []);
    var (pause, file) := (PauseFor(kept), D.Take(buffered, kept));
    AfterThree(s, pause[0], pause[1], pause[2]);
    assert [] + file == file;
    var s1 := Next(s, pause[0]);
    assert s1 == Paused(m, D.Holding(Rx(m, m.size, [])), [Done(m.digest)], [Pause(m.size)], file);
    var s2 := Next(s1, pause[1]);
    assert s2 == Paused(m, D.Receiving(Rx(m, m.size, [])), [Done(m.digest)], [Pause(m.size), Resume], file);
  }

  const FLUSH: seq<Event> := [OnClient(EndFlush(0, true))]

  lemma ReachVerifying(m: Manifest, file: seq<byte>)
    ensures After(Paused(m, D.Flushing(Rx(m, m.size, [])), [], [Pause(m.size), Resume], file), FLUSH) ==
            Paused(m, D.Verifying("1.0.0", m.digest), [], [Pause(m.size), Resume], file)
  {
    var s := Paused(m, D.Flushing(Rx(m, m.size, [])), [], [Pause(m.size), Resume], file);
    assert FLUSH[..0] == [] && file + [] == file;
    assert After(s, FLUSH) == Next(After(s, []), FLUSH[0]);
  }

  /** A download of one byte with one pause, whose flush writes `kept` bytes. */
  function PausedDownload(b: byte, kept: nat): seq<Event> {
    ASK + REQUEST + Transmit(b) + PauseFor(kept) + FLUSH
  }

  /** It reaches the check with what that flush wrote, and with nothing else. */
  lemma ReachCheck(b: byte, kept: nat)
    ensures var m := Manifest("1.0.0", 1, D.HexDigest([b]));
      After(Fresh(m), PausedDownload(b, kept)) ==
      Paused(m, D.Verifying("1.0.0", m.digest), [], [Pause(1), Resume], D.Take([b], kept))
  {
    var m := Manifest("1.0.0", 1, D.HexDigest([b]));
    ReachOffered(m);
    ReachSending(m);
    ReachDone(m, b);
    ReachFlushing(m, [b], kept);
    ReachVerifying(m, D.Take([b], kept));
    hide D.HexDigest, After, D.Take;
    AfterConcat(Fresh(m), ASK, REQUEST);
    AfterConcat(Fresh(m), ASK + REQUEST, Transmit(b));
    AfterConcat(Fresh(m), ASK + REQUEST + Transmit(b), PauseFor(kept));
    AfterConcat(Fresh(m), ASK + REQUEST + Transmit(b) + PauseFor(kept), FLUSH);
  }

  /**
   A package of one byte, an honest server, and one pause whose flush writes nothing: the client takes TRANSFER_DONE
   with a full count, and the file that it then checks is empty.
   */
  lemma FlushFailureLosesBytes(b: byte)
    ensures var m := Manifest("1.0.0", 1, D.HexDigest([b]));
      var evs := PausedDownload(b, 0);
      var t := After(Fresh(m), evs);
      && HonestStart(OneByte(b), Fresh(m)) && HonestRun(OneByte(b), Fresh(m), evs)
      && t.client == D.Verifying("1.0.0", m.digest) && t.parts == map["1.0.0" := []]
  {
    hide D.HexDigest, After, HonestRun, HonestStart, PausedDownload;
    ReachCheck(b, 0);
    PausedDownloadIsHonest(b, 0);
  }

  // ---- An update that is installed but not counted ----

  const EMPTY_TRANSFER: seq<Event> :=
    [OnClient(TakeReply(true, false, true, false)), OnServer(1, TakeDownload(0)), OnServer(1, SendDone)]
  const INSTALL: seq<Event> :=
    [OnClient(EndFlush(0, true)), OnClient(Check(true, true)), OnClient(Rename(true))]
  const REPORT: seq<Event> :=
    [OnClient(Report(true)), OnServer(1, TakeResult), OnClient(TakeBye)]

  lemma ReachEmptyDone(m: Manifest)
    requires m.version == "1.0.0" && m.size == 0
    ensures After(Offered(m), EMPTY_TRANSFER) ==
            Downloading(m, D.Receiving(Rx(m, 0, [])), S.AwaitResult(m), [Done(m.digest)], [])
  {
    FirstVersionIsNewer();
    hide SemVer.Valid, SemVer.Older, After;
    AfterThree(Offered(m), EMPTY_TRANSFER[0], EMPTY_TRANSFER[1], EMPTY_TRANSFER[2]);
    var s1 := Next(Offered(m), EMPTY_TRANSFER[0]);
    assert s1 == Downloading(m, D.Receiving(Rx(m, 0, [])), S.AwaitDownload(m), [], [DownloadReq(0)]);
  }

  /** The state after the rename, with PAUSE and RESUME still unread. */
  function Renamed(m: Manifest): State {
    Downloading(m, D.Reporting("1.0.0"), S.AwaitResult(m), [], [Pause(0), Resume])
      .(parts := map[], finals := map["1.0.0" := []], installs := [Install(1, "1.0.0", [], m.digest)])
  }

  lemma ReachRenamed(m: Manifest)
    requires m.version == "1.0.0" && m.size == 0 && m.digest == D.HexDigest([])
    ensures After(Paused(m, D.Flushing(Rx(m, 0, [])), [], [Pause(0), Resume], []), INSTALL) == Renamed(m)
  {
    SameTextIsEqual(m.digest);
    hide After, Hex.EqualIgnoringCase, D.HexDigest;
    var s := Downloading(m, D.Flushing(Rx(m, 0, [])), S.AwaitResult(m), [], [Pause(0), Resume]);
    AfterThree(s, INSTALL[0], INSTALL[1], INSTALL[2]);
    var s1 := Next(s, INSTALL[0]);
    assert s1 == Downloading(m, D.Verifying("1.0.0", m.digest), S.AwaitResult(m), [], [Pause(0), Resume]);
    var s2 := Next(s1, INSTALL[1]);
    assert s2 == Downloading(m, D.Renaming("1.0.0", m.digest), S.AwaitResult(m), [], [Pause(0), Resume]);
  }

  lemma ReportIsNotRead(m: Manifest)
    ensures var t := After(Renamed(m), REPORT);
      && t.client == D.WritingRow("1.0.0") && t.live.server.Closed? && t.served == 0
      && t.finals == map["1.0.0" := []]
  {
    hide After;
    AfterThree(Renamed(m), REPORT[0], REPORT[1], REPORT[2]);
    var s1 := Next(Renamed(m), REPORT[0]);
    assert s1.live.toServer[0] == Pause(0) && s1.client == D.AwaitBye("1.0.0");
    var s2 := Next(s1, REPORT[1]);
    assert s2.live.server.Closed? && s2.served == 0;
  }

  /**
   A pause clicked after the server's last chunk, here of an empty package: the file is installed and the
   client goes on to record it, but the session has ended as an error and is not counted.
   */
  lemma InstalledButNotCounted()
    ensures var m := Manifest("1.0.0", 0, D.HexDigest([]));
      var t := After(Fresh(m), ASK + EMPTY_TRANSFER + PauseFor(0) + INSTALL + REPORT);
      && t.client == D.WritingRow("1.0.0") && t.finals == map["1.0.0" := []]
      && t.live.server.Closed? && t.served == 0
  {
    var m := Manifest("1.0.0", 0, D.HexDigest([]));
    ReachOffered(m);
    ReachEmptyDone(m);
    ReachFlushing(m, [], 0);
    ReachRenamed(m);
    ReportIsNotRead(m);
    hide D.HexDigest, After;
    AfterConcat(Fresh(m), ASK, EMPTY_TRANSFER);
    AfterConcat(Fresh(m), ASK + EMPTY_TRANSFER, PauseFor(0));
    AfterConcat(Fresh(m), ASK + EMPTY_TRANSFER + PauseFor(0), INSTALL);
    AfterConcat(Fresh(m), ASK + EMPTY_TRANSFER + PauseFor(0) + INSTALL, REPORT);
  }

  // The same with the usual timing: the thread reads the PAUSE as soon as it arrives.

  const LATE_PAUSE: seq<Event> :=
    [OnClient(ClickPause(0, true)), OnServer(1, TakeResult), OnClient(EndHold(D.ResumeSent))]
  const CHECKED: seq<Event> :=
    [OnClient(TakeFrame(0, false)), OnClient(EndFlush(0, true)), OnClient(Check(true, true))]
  const REPORTED: seq<Event> := [OnClient(Rename(true)), OnClient(Report(true)), OnClient(TakeBye)]

  /** A state after the thread has read the PAUSE and closed. */
  function ClosedEarly(m: Manifest, client: D.Client, toClient: seq<ServerMsg>): State {
    Downloading(m, client, S.Closed, toClient, [Resume])
  }

  lemma ReachClosedEarly(m: Manifest)
    requires m.version == "1.0.0" && m.size == 0
    ensures After(Downloading(m, D.Receiving(Rx(m, 0, [])), S.AwaitResult(m), [Done(m.digest)], []), LATE_PAUSE) ==
            ClosedEarly(m, D.Receiving(Rx(m, 0, [])), [Done(m.digest)])
  {
    hide After;
    var s := Downloading(m, D.Receiving(Rx(m, 0, [])), S.AwaitResult(m), [Done(m.digest)], []);
    AfterThree(s, LATE_PAUSE[0], LATE_PAUSE[1], LATE_PAUSE[2]);
    var s1 := Next(s, LATE_PAUSE[0]);
    assert s1 == Downloading(m, D.Holding(Rx(m, 0, [])), S.AwaitResult(m), [Done(m.digest)], [Pause(0)]);
    var s2 := Next(s1, LATE_PAUSE[1]);
    assert s2 == Downloading(m, D.Holding(Rx(m, 0, [])), S.Closed, [Done(m.digest)], []);
  }

  lemma ReachCheckedLate(m: Manifest)
    requires m.version == "1.0.0" && m.size == 0 && m.digest == D.HexDigest([])
    ensures After(ClosedEarly(m, D.Receiving(Rx(m, 0, [])), [Done(m.digest)]), CHECKED) ==
            ClosedEarly(m, D.Renaming("1.0.0", m.digest), [])
  {
    SameTextIsEqual(m.digest);
    hide After, Hex.EqualIgnoringCase, D.HexDigest;
    var s := ClosedEarly(m, D.Receiving(Rx(m, 0, [])), [Done(m.digest)]);
    AfterThree(s, CHECKED[0], CHECKED[1], CHECKED[2]);
    var s1 := Next(s, CHECKED[0]);
    assert s1 == ClosedEarly(m, D.Flushing(Rx(m, 0, [])), []);
    var s2 := Next(s1, CHECKED[1]);
    assert s2 == ClosedEarly(m, D.Verifying("1.0.0", m.digest), []);
  }

  lemma ReportedToNobody(m: Manifest)
    ensures var t := After(ClosedEarly(m, D.Renaming("1.0.0", m.digest), []), REPORTED);
      && t.client == D.WritingRow("1.0.0") && t.finals == map["1.0.0" := []] && t.live.toServer == [Resume, Result(true)]
      && t.live.server.Closed? && !t.live.counted && t.served == 0
  {
    hide After;
    AfterThree(ClosedEarly(m, D.Renaming("1.0.0", m.digest), []), REPORTED[0], REPORTED[1], REPORTED[2]);
  }

  /** The thread closes at the PAUSE; the client resumes, installs and reports, and no PAUSE is unread. */
  lemma LatePauseEndsTheSession()
    ensures var m := Manifest("1.0.0", 0, D.HexDigest([]));
      var t := After(Fresh(m), ASK + EMPTY_TRANSFER + LATE_PAUSE + CHECKED + REPORTED);
      && t.client == D.WritingRow("1.0.0") && t.finals == map["1.0.0" := []] && t.live.toServer == [Resume, Result(true)]
      && t.live.server.Closed? && !t.live.counted && t.served == 0
  {
    var m := Manifest("1.0.0", 0, D.HexDigest([]));
    ReachOffered(m);
    ReachEmptyDone(m);
    ReachClosedEarly(m);
    ReachCheckedLate(m);
    ReportedToNobody(m);
    hide D.HexDigest, After;
    AfterConcat(Fresh(m), ASK, EMPTY_TRANSFER);
    AfterConcat(Fresh(m), ASK + EMPTY_TRANSFER, LATE_PAUSE);
    AfterConcat(Fresh(m), ASK + EMPTY_TRANSFER + LATE_PAUSE, CHECKED);
    AfterConcat(Fresh(m), ASK + EMPTY_TRANSFER + LATE_PAUSE + CHECKED, REPORTED);
  }

  /**
   As long as the thread still waits, with the RESULT on its way: its next look counts the update exactly when no
   PAUSE of the client is unread.
   */
  lemma NextLookCountsIff(s: State, evs: seq<Event>, i: nat)
    requires Initial(s) && i <= |After(s, evs).past|
    requires var c := ConnAt(After(s, evs), i); c.server.AwaitResult? && !c.counted && Result(true) in c.toServer
    ensures var t := After(s, evs);
      && Can(t, OnServer(i, TakeResult))
      && (Next(t, OnServer(i, TakeResult)).served == t.served + 1 <==>
            forall j | 0 <= j < |ConnAt(t, i).toServer| :: !ConnAt(t, i).toServer[j].Pause?)
      && Next(t, OnServer(i, TakeResult)).served <= t.served + 1
  {
    hide After, Alternates, ConnOk;
    RunsAreSafe(s, evs);
    var t := After(s, evs);
    assert ConnsOk(t);
    ResultStandsAlone(ConnAt(t, i));
  }

  /** The RESULT is read next exactly when there is no PAUSE in the queue. */
  lemma ResultStandsAlone(c: Conn)
    requires ConnOk(c) && c.server.AwaitResult? && Result(true) in c.toServer
    ensures c.toServer[0] == Result(true) <==> forall j | 0 <= j < |c.toServer| :: !c.toServer[j].Pause?
    ensures c.toServer[0].Result? ==> c.toServer[0] == Result(true)
  {
    hide MessageOk, SemVer.Older;
    assert c.toServer[0].Pause? || (c.toServer[0].Result? && |c.toServer| == 1);
  }

  // ---- The conservation results speak of runs that exist ----

  lemma HonestThree(p: Packages, s: State, e1: Event, e2: Event, e3: Event)
    requires HonestEvent(p, s, e1) && HonestEvent(p, Next(s, e1), e2) && HonestEvent(p, Next(Next(s, e1), e2), e3)
    ensures HonestRun(p, s, [e1, e2, e3])
  {
    hide Next, HonestEvent;
    assert [e1, e2, e3][..2] == [e1, e2] && [e1, e2][..1] == [e1] && [e1][..0] == [];
    assert After(s, [e1]) == Next(After(s, []), e1);
    assert After(s, [e1, e2]) == Next(After(s, [e1]), e2);
    assert HonestRun(p, s, []) && HonestRun(p, s, [e1]) && HonestRun(p, s, [e1, e2]);
  }

  lemma {:induction false} HonestConcat(p: Packages, s: State, xs: seq<Event>, ys: seq<Event>)
    requires HonestRun(p, s, xs) && HonestRun(p, After(s, xs), ys)
    ensures HonestRun(p, s, xs + ys)
  {
    hide Next, HonestEvent;
    if |ys| == 0 {
      assert xs + ys == xs;
    } else {
      var init := ys[..|ys| - 1];
      HonestConcat(p, s, xs, init);
      AfterConcat(s, xs, init);
      assert (xs + ys)[..|xs + ys| - 1] == xs + init;
    }
  }

  /** In this world every package is the one byte `b`. */
  function OneByte(b: byte): Packages {
    (v: string) => [b]
  }

  lemma AskIsHonest(m: Manifest, b: byte)
    requires m == Manifest("1.0.0", 1, D.HexDigest([b]))
    ensures HonestStart(OneByte(b), Fresh(m)) && HonestRun(OneByte(b), Fresh(m), ASK)
  {
    hide HonestRun, Next, D.HexDigest;
    HonestThree(OneByte(b), Fresh(m), StartRun(true), Connect, OnServer(1, TakeVersion));
  }

  lemma RequestIsHonest(m: Manifest, b: byte)
    requires m == Manifest("1.0.0", 1, D.HexDigest([b]))
    ensures HonestRun(OneByte(b), Offered(m), REQUEST)
  {
    FirstVersionIsNewer();
    hide HonestRun, D.HexDigest, SemVer.Valid, SemVer.Older;
    var s1 := Next(Offered(m), REQUEST[0]);
    assert s1 == Downloading(m, D.Receiving(Rx(m, 0, [])), S.AwaitDownload(m), [], [DownloadReq(0)]);
    HonestThree(OneByte(b), Offered(m), REQUEST[0], REQUEST[1], REQUEST[2]);
  }

  lemma TransmitIsHonest(m: Manifest, b: byte)
    requires m == Manifest("1.0.0", 1, D.HexDigest([b]))
    ensures HonestRun(OneByte(b), Downloading(m, D.Receiving(Rx(m, 0, [])), S.Sending(S.Stream(m, 1, 0)), [], []), Transmit(b))
  {
    hide HonestRun, D.HexDigest;
    var s := Downloading(m, D.Receiving(Rx(m, 0, [])), S.Sending(S.Stream(m, 1, 0)), [], []);
    assert TrueRead([b], 0, [b]);
    HonestThree(OneByte(b), s, Transmit(b)[0], Transmit(b)[1], Transmit(b)[2]);
  }

  lemma PauseIsHonest(p: Packages, s: State, kept: nat)
    ensures HonestRun(p, s, PauseFor(kept))
  {
    hide HonestRun, Next;
    HonestThree(p, s, PauseFor(kept)[0], PauseFor(kept)[1], PauseFor(kept)[2]);
  }

  lemma FlushIsHonest(p: Packages, s: State)
    ensures HonestRun(p, s, FLUSH)
  {
    hide Next;
    assert FLUSH[..0] == [];
  }

  lemma PausedDownloadIsHonest(b: byte, kept: nat)
    ensures var m := Manifest("1.0.0", 1, D.HexDigest([b]));
      HonestStart(OneByte(b), Fresh(m)) && HonestRun(OneByte(b), Fresh(m), PausedDownload(b, kept))
  {
    var m := Manifest("1.0.0", 1, D.HexDigest([b]));
    AskIsHonest(m, b);
    RequestIsHonest(m, b);
    TransmitIsHonest(m, b);
    ReachOffered(m);
    ReachSending(m);
    hide D.HexDigest, After, HonestRun, HonestStart;
    var (e1, e2) := (ASK + REQUEST, ASK + REQUEST + Transmit(b));
    var e3 := e2 + PauseFor(kept);
    PauseIsHonest(OneByte(b), After(Fresh(m), e2), kept);
    FlushIsHonest(OneByte(b), After(Fresh(m), e3));
    AfterConcat(Fresh(m), ASK, REQUEST);
    HonestConcat(OneByte(b), Fresh(m), ASK, REQUEST);
    HonestConcat(OneByte(b), Fresh(m), e1, Transmit(b));
    HonestConcat(OneByte(b), Fresh(m), e2, PauseFor(kept));
    HonestConcat(OneByte(b), Fresh(m), e3, FLUSH);
  }

  predicate Resumes(ev: Event) { ev == OnClient(EndHold(D.ResumeSent)) }

  lemma {:induction false} LosslessIfNeverResumed(s: State, evs: seq<Event>)
    requires forall i | 0 <= i < |evs| :: !Resumes(evs[i])
    ensures LosslessRun(s, evs)
  {
    hide Next, After;
    if |evs| > 0 {
      LosslessIfNeverResumed(s, evs[..|evs| - 1]);
    }
  }

  lemma {:induction false} LosslessConcat(s: State, xs: seq<Event>, ys: seq<Event>)
    requires LosslessRun(s, xs) && LosslessRun(After(s, xs), ys)
    ensures LosslessRun(s, xs + ys)
  {
    hide Next, LosslessEvent;
    if |ys| == 0 {
      assert xs + ys == xs;
    } else {
      var init := ys[..|ys| - 1];
      LosslessConcat(s, xs, init);
      AfterConcat(s, xs, init);
      assert (xs + ys)[..|xs + ys| - 1] == xs + init;
    }
  }

  lemma FullPauseIsLossless(m: Manifest, b: byte)
    requires m.version == "1.0.0" && m.size == 1
    ensures LosslessRun(Downloading(m, D.Receiving(Rx(m, 1, [b])), S.AwaitResult(m), [Done(m.digest)], []), PauseFor(1))
  {
    var s := Downloading(m, D.Receiving(Rx(m, 1, [b])), S.AwaitResult(m), [Done(m.digest)], []);
    var pause := PauseFor(1);
    var s1 := Next(s, pause[0]);
    assert [] + [b] == [b];
    assert s1 == Paused(m, D.Holding(Rx(m, 1, [])), [Done(m.digest)], [Pause(1)], [b]);
    hide Next;
    assert pause[..2] == [pause[0], pause[1]] && pause[..2][..1] == [pause[0]] && [pause[0]][..0] == [];
    assert After(s, [pause[0]]) == Next(After(s, []), pause[0]);
    assert LosslessRun(s, []) && LosslessRun(s, [pause[0]]) && LosslessRun(s, pause[..2]);
  }

  lemma NoResumeYet(b: byte)
    ensures forall i | 0 <= i < |ASK + REQUEST + Transmit(b)| :: !Resumes((ASK + REQUEST + Transmit(b))[i])
  {
    assert forall i | 0 <= i < 3 :: !Resumes(ASK[i]) && !Resumes(REQUEST[i]) && !Resumes(Transmit(b)[i]);
  }

  lemma PausedDownloadIsLossless(b: byte)
    ensures LosslessRun(Fresh(Manifest("1.0.0", 1, D.HexDigest([b]))), PausedDownload(b, 1))
  {
    var m := Manifest("1.0.0", 1, D.HexDigest([b]));
    NoResumeYet(b);
    ReachOffered(m);
    ReachSending(m);
    ReachDone(m, b);
    FullPauseIsLossless(m, b);
    hide D.HexDigest, After, LosslessRun, Fresh, Offered, Downloading, Resumes;
    var e2 := ASK + REQUEST + Transmit(b);
    var e3 := e2 + PauseFor(1);
    LosslessIfNeverResumed(Fresh(m), e2);
    AfterConcat(Fresh(m), ASK, REQUEST);
    AfterConcat(Fresh(m), ASK + REQUEST, Transmit(b));
    LosslessConcat(Fresh(m), e2, PauseFor(1));
    FlushIsLossless(After(Fresh(m), e3));
    LosslessConcat(Fresh(m), e3, FLUSH);
  }

  lemma FlushIsLossless(s: State)
    ensures LosslessRun(s, FLUSH)
  {
    hide LosslessRun;
    LosslessIfNeverResumed(s, FLUSH);
  }

  /** The assumptions of the resume results can be met, by a download with a pause that is resumed. */
  lemma HonestRunsExist(b: byte)
    ensures var m := Manifest("1.0.0", 1, D.HexDigest([b]));
      var evs := PausedDownload(b, 1);
      var t := After(Fresh(m), evs);
      && HonestStart(OneByte(b), Fresh(m)) && PartsOk(OneByte(b), Fresh(m).parts)
      && HonestRun(OneByte(b), Fresh(m), evs) && LosslessRun(Fresh(m), evs)
      && t.client == D.Verifying("1.0.0", m.digest) && t.parts == map["1.0.0" := [b]]
  {
    hide D.HexDigest, After, HonestRun, HonestStart, LosslessRun, PausedDownload;
    ReachCheck(b, 1);
    PausedDownloadIsHonest(b, 1);
    PausedDownloadIsLossless(b);
  }
}
