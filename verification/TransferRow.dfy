/**
 The client's row of the version table over whole runs: it goes up as long as each check has seen the row that its
 write replaces. A check that missed the row works from 0.0.0, and can lower it.
 */
module TransferRow {
  import opened Prelude
  import opened Messages
  import opened Transfer
  import opened TransferSafety
  import S = PackageService
  import D = Downloader
  import Hex
  import SemVer

  // ---- One change ----

  lemma OnlyWritesChangeRow(s: State, ev: Event)
    requires Next(s, ev).row != s.row
    ensures ev == DropRow || (ev == OnClient(WriteRow(true)) && s.client.WritingRow?)
  {
    hide ServerStep, ServerCan, D.OnOffer, D.OnFrame, D.OnHash;
  }

  /** The version that the running check works from is the row that its write would replace. */
  predicate Informed(s: State) {
    s.current == CurrentVersion(s.row)
  }

  /**
   A step of the client that changes the row: it writes the version of this session's offer, which it has just
   renamed into place and which is newer than the version that its check works from; and the check is over.
   So the row goes up when the check is informed, and otherwise exactly when the offer is newer than the row.
   */
  lemma RowChange(s: State, ev: Event)
    requires Safe(s) && Next(s, ev).row != s.row && ev != DropRow
    ensures var t := Next(s, ev);
      && t.row.Some? && s.live.offered.Some? && t.row.value == s.live.offered.value.version
      && JustInstalled(t, t.row.value) && Idle(t.client)
      && SemVer.Older(s.current, t.row.value)
      && (Informed(s) ==> SemVer.Older(CurrentVersion(s.row), t.row.value))
  {
    hide SemVer.Older, ControlOk, MessageOk, InstallsOk, ConnsOk;
    OnlyWritesChangeRow(s, ev);
    LiveIsSafe(s);
  }

  // ---- Whole runs ----

  /** The check that starts here sees the client's row, and no other client drops it. */
  predicate Sees(ev: Event) {
    ev != DropRow && ev != StartRun(false)
  }

  lemma StaysInformed(s: State, ev: Event)
    requires Idle(s.client) || Informed(s)
    requires Sees(ev)
    ensures Idle(Next(s, ev).client) || Informed(Next(s, ev))
  {
    hide ServerStep, ServerCan, ClientStep, ClientCan, Idle;
    if ev.OnClient? && Can(s, ev) {
      ClientKeepsRow(s, ev.c);
    } else if ev.OnServer? && Can(s, ev) {
      ServerStepShape(s, ev.conn, ev.e);
    } else {
      OthersStayInformed(s, ev);
    }
  }

  lemma ClientKeepsRow(s: State, e: ClientEvent)
    requires ClientCan(s, e)
    ensures var t := ClientStep(s, e);
      !Idle(s.client) && t.current == s.current && (t.row == s.row || Idle(t.client))
  {
    hide D.OnOffer, D.OnFrame, D.OnHash;
  }

  lemma OthersStayInformed(s: State, ev: Event)
    requires Idle(s.client) || Informed(s)
    requires Sees(ev) && ((!ev.OnClient? && !ev.OnServer?) || !Can(s, ev))
    ensures Idle(Next(s, ev).client) || Informed(Next(s, ev))
  {
    hide ServerStep, ServerCan, ClientStep, ClientCan;
  }

  lemma {:induction false} RunsStayInformed(s: State, evs: seq<Event>)
    requires Initial(s) && forall k | 0 <= k < |evs| :: Sees(evs[k])
    ensures Idle(After(s, evs).client) || Informed(After(s, evs))
  {
    hide Next, Informed;
    if |evs| > 0 {
      RunsStayInformed(s, evs[..|evs| - 1]);
      StaysInformed(After(s, evs[..|evs| - 1]), evs[|evs| - 1]);
    }
  }

  lemma WriterIsNotIdle(s: State)
    requires s.client.WritingRow?
    ensures !Idle(s.client)
  {
  }

  /**
   Installed versions only go up: over any run in which each check has seen its row and no other client has dropped
   it, the row at any two moments is unchanged or strictly newer.
   */
  lemma {:induction false} RowOnlyGoesUp(s: State, evs: seq<Event>, i: nat, j: nat)
    requires Initial(s) && i <= j <= |evs| && forall k | 0 <= k < j :: Sees(evs[k])
    ensures var (a, b) := (After(s, evs[..i]).row, After(s, evs[..j]).row);
      a == b || (b.Some? && SemVer.Older(CurrentVersion(a), b.value))
    decreases j
  {
    hide Next, SemVer.Older, Safe, Informed, Idle;
    if i < j {
      RowOnlyGoesUp(s, evs, i, j - 1);
      assert evs[..j][..j - 1] == evs[..j - 1];
      var before := After(s, evs[..j - 1]);
      RunsAreSafe(s, evs[..j - 1]);
      if Next(before, evs[j - 1]).row != before.row {
        assert Sees(evs[j - 1]);
        RunsStayInformed(s, evs[..j - 1]);
        OnlyWritesChangeRow(before, evs[j - 1]);
        WriterIsNotIdle(before);
        RowChange(before, evs[j - 1]);
        var a := After(s, evs[..i]).row;
        if a != before.row {
          SemVer.OlderIsTransitive(CurrentVersion(a), before.row.value, Next(before, evs[j - 1]).row.value);
        }
      }
    }
  }

  // ---- Once per check ----

  lemma IdleStays(s: State, ev: Event)
    requires Idle(s.client) && !ev.StartRun?
    ensures Idle(Next(s, ev).client) && (ev != DropRow ==> Next(s, ev).row == s.row)
  {
    hide ServerStep, ServerCan;
  }

  lemma {:induction false} IdleUntilStart(s: State, evs: seq<Event>, i: nat, j: nat)
    requires i <= j <= |evs| && Idle(After(s, evs[..i]).client)
    requires forall k | i <= k < j :: !evs[k].StartRun?
    ensures Idle(After(s, evs[..j]).client)
    decreases j
  {
    hide Next;
    if i < j {
      IdleUntilStart(s, evs, i, j - 1);
      assert evs[..j][..j - 1] == evs[..j - 1];
      IdleStays(After(s, evs[..j - 1]), evs[j - 1]);
    }
  }

  /** The `i`-th event is a step of the client that changes its row. */
  predicate RowChangesAt(s: State, evs: seq<Event>, i: nat)
    requires i < |evs|
  {
    evs[i] != DropRow && After(s, evs[..i + 1]).row != After(s, evs[..i]).row
  }

  /** One check for updates changes the row at most once: between two changes a new check starts. */
  lemma RowChangesOncePerRun(s: State, evs: seq<Event>, i: nat, j: nat)
    requires Initial(s) && i < j < |evs| && RowChangesAt(s, evs, i) && RowChangesAt(s, evs, j)
    ensures exists k :: i < k < j && evs[k].StartRun?
  {
    hide Next, Safe;
    assert evs[..i + 1][..i] == evs[..i];
    assert evs[..j + 1][..j] == evs[..j];
    RunsAreSafe(s, evs[..i]);
    RowChange(After(s, evs[..i]), evs[i]);
    if forall k | i + 1 <= k < j :: !evs[k].StartRun? {
      IdleUntilStart(s, evs, i + 1, j);
      var before := After(s, evs[..j]);
      if !evs[j].StartRun? {
        IdleStays(before, evs[j]);
      } else {
        StartKeepsRow(before, evs[j].seen);
      }
      assert false;
    }
  }

  lemma StartKeepsRow(s: State, seen: bool)
    ensures Next(s, StartRun(seen)).row == s.row
  {
  }

  // ---- When the row can fall ----

  /** The oldest version that a server can offer at all. */
  const OLDEST_OFFER := "0.0.1"

  lemma OldestOffer()
    ensures SemVer.Parse(OLDEST_OFFER) == Some(SemVer.Version(0, 0, 1)) && SemVer.Older("0.0.0", OLDEST_OFFER)
  {
    hide SemVer.Parse, SemVer.IsPart, SemVer.Valid;
    SemVer.SmallVersions();
    SemVer.OneDigitParts();
    SemVer.ParseOfParts("0", "0", "1");
    assert "0" + "." + "0" + "." + "1" == "0.0.1";
  }

  /** What is newer than some version is no older than that. */
  lemma NewerThanSome(a: string, v: string, r: string)
    requires SemVer.Older(a, v) && SemVer.Older(v, r)
    ensures SemVer.Older(OLDEST_OFFER, r)
  {
    hide SemVer.Parse;
    OldestOffer();
  }

  /** A step of the client can only lower a row that is newer than 0.0.1. */
  lemma FallNeedsNewerRow(s: State, evs: seq<Event>, ev: Event)
    requires Initial(s) && ev != DropRow
    requires var (before, after) := (After(s, evs).row, Next(After(s, evs), ev).row);
      before.Some? && after.Some? && SemVer.Older(after.value, before.value)
    ensures SemVer.Older(OLDEST_OFFER, After(s, evs).row.value)
  {
    hide Next, After, Safe, SemVer.Older;
    RunsAreSafe(s, evs);
    var t := After(s, evs);
    SemVerIrreflexive(t.row.value);
    RowChange(t, ev);
    NewerThanSome(t.current, Next(t, ev).row.value, t.row.value);
  }

  lemma SemVerIrreflexive(a: string)
    ensures !SemVer.Older(a, a)
  {
  }

  /** A server whose package is empty and whose version is 0.0.1, and a client whose row says `r`. */
  function OldManifest(): Manifest {
    Manifest(OLDEST_OFFER, 0, D.HexDigest([]))
  }

  function Start(r: string): State {
    State(OldManifest(), [], Conn("", S.Closed, [], [], None, false), D.Ended(D.Success), "", map[], map[], Some(r), 0, [])
  }

  /** A later state of the check: the client, its file, and the open connection. */
  function During(r: string, client: D.Client, parts: map<string, seq<byte>>, server: S.Server, toClient: seq<ServerMsg>): State {
    Start(r).(past := [Start(r).live], current := "0.0.0", client := client, parts := parts,
              live := Conn("0.0.0", server, toClient, [], Some(OldManifest()), false))
  }

  const ASK_BLIND: seq<Event> := [StartRun(false), Connect, OnServer(1, TakeVersion)]
  const TRANSFER: seq<Event> :=
    [OnClient(TakeReply(true, false, true, false)), OnServer(1, TakeDownload(0)), OnServer(1, SendDone)]
  const CHECK: seq<Event> :=
    [OnClient(TakeFrame(0, false)), OnClient(EndFlush(0, true)), OnClient(Check(true, true))]
  const RENAME: seq<Event> := [OnClient(Rename(true)), OnClient(Report(true)), OnClient(TakeBye)]
  const WRITE: seq<Event> := [OnClient(WriteRow(true))]

  /** A check whose read of the table did not get to the row. */
  function BlindCheck(): seq<Event> {
    ASK_BLIND + TRANSFER + CHECK + RENAME + WRITE
  }

  lemma AskedBlind(r: string)
    ensures var m := OldManifest();
      After(Start(r), ASK_BLIND) == During(r, D.AwaitOffer, map[], S.AwaitDownload(m), [Offer(m.version, 0, m.digest)])
  {
    hide SemVer.Parse, SemVer.CompareText, SemVer.Valid, After, D.HexDigest;
    OldestOffer();
    AfterThree(Start(r), StartRun(false), Connect, OnServer(1, TakeVersion));
  }

  lemma Transferred(r: string)
    ensures var m := OldManifest();
      var rx := D.Rx.Rx(m.version, 0, m.digest, 0, []);
      After(During(r, D.AwaitOffer, map[], S.AwaitDownload(m), [Offer(m.version, 0, m.digest)]), TRANSFER) ==
        During(r, D.Receiving(rx), map[m.version := []], S.AwaitResult(m), [Done(m.digest)])
  {
    OldestOffer();
    hide SemVer.Parse, After, D.HexDigest;
    var m := OldManifest();
    var rx := D.Rx.Rx(m.version, 0, m.digest, 0, []);
    var s := During(r, D.AwaitOffer, map[], S.AwaitDownload(m), [Offer(m.version, 0, m.digest)]);
    AfterThree(s, TRANSFER[0], TRANSFER[1], TRANSFER[2]);
    var s1 := Next(s, TRANSFER[0]);
    assert s1.live.toServer == [DownloadReq(0)];
    var s2 := Next(s1, TRANSFER[1]);
    assert s2 == During(r, D.Receiving(rx), map[m.version := []], S.Finishing(m), []);
  }

  lemma SameText(a: string)
    ensures Hex.EqualIgnoringCase(a, a)
  {
  }

  lemma Checked(r: string)
    ensures var m := OldManifest();
      var rx := D.Rx.Rx(m.version, 0, m.digest, 0, []);
      After(During(r, D.Receiving(rx), map[m.version := []], S.AwaitResult(m), [Done(m.digest)]), CHECK) ==
        During(r, D.Renaming(m.version, m.digest), map[m.version := []], S.AwaitResult(m), [])
  {
    var m := OldManifest();
    SameText(m.digest);
    hide After, D.HexDigest, Hex.EqualIgnoringCase;
    var rx := D.Rx.Rx(m.version, 0, m.digest, 0, []);
    var s := During(r, D.Receiving(rx), map[m.version := []], S.AwaitResult(m), [Done(m.digest)]);
    AfterThree(s, CHECK[0], CHECK[1], CHECK[2]);
    var s1 := Next(s, CHECK[0]);
    assert s1 == During(r, D.Flushing(rx), map[m.version := []], S.AwaitResult(m), []);
    var s2 := Next(s1, CHECK[1]);
    assert s2 == During(r, D.Verifying(m.version, m.digest), map[m.version := []], S.AwaitResult(m), []);
  }

  lemma Written(r: string)
    ensures var m := OldManifest();
      var s := During(r, D.Renaming(m.version, m.digest), map[m.version := []], S.AwaitResult(m), []);
      After(After(s, RENAME), WRITE).row == Some(m.version)
  {
    hide After, D.HexDigest;
    var m := OldManifest();
    var s := During(r, D.Renaming(m.version, m.digest), map[m.version := []], S.AwaitResult(m), []);
    AfterThree(s, RENAME[0], RENAME[1], RENAME[2]);
    AfterOne(After(s, RENAME), WRITE[0]);
  }

  /**
   When a row can fall, for all rows: a check that missed the row can lower it exactly when the row is newer than
   0.0.1. The version 0.0.1 itself does it.
   */
  lemma RowFallsIff(r: string)
    ensures Initial(Start(r)) && Start(r).row == Some(r)
    ensures After(Start(r), BlindCheck()).row == Some(OLDEST_OFFER)
    ensures (exists s, evs, ev :: Falls(s, evs, ev, r)) <==> SemVer.Older(OLDEST_OFFER, r)
  {
    hide After, SemVer.Older, Initial, During;
    BlindCheckWrites(r);
    StartIsInitial(r);
    if SemVer.Older(OLDEST_OFFER, r) {
      BlindCheckFalls(r);
    }
    forall s, evs, ev | Falls(s, evs, ev, r) ensures SemVer.Older(OLDEST_OFFER, r) {
      FallNeedsNewerRow(s, evs, ev);
    }
  }

  /** In some run a step of the client lowers the row `r`. */
  ghost predicate Falls(s: State, evs: seq<Event>, ev: Event, r: string) {
    && Initial(s) && ev != DropRow && After(s, evs).row == Some(r)
    && var row := Next(After(s, evs), ev).row; row.Some? && SemVer.Older(row.value, r)
  }

  lemma StartIsInitial(r: string)
    ensures Initial(Start(r))
  {
  }

  lemma BlindCheckWrites(r: string)
    ensures After(Start(r), BlindCheck()).row == Some(OLDEST_OFFER)
    ensures After(Start(r), ASK_BLIND + TRANSFER + CHECK + RENAME).row == Some(r)
  {
    hide After, During;
    AskedBlind(r);
    Transferred(r);
    Checked(r);
    Written(r);
    NotYetWritten(r);
    AfterConcat(Start(r), ASK_BLIND, TRANSFER);
    AfterConcat(Start(r), ASK_BLIND + TRANSFER, CHECK);
    AfterConcat(Start(r), ASK_BLIND + TRANSFER + CHECK, RENAME);
    AfterConcat(Start(r), ASK_BLIND + TRANSFER + CHECK + RENAME, WRITE);
  }

  lemma NotYetWritten(r: string)
    ensures var m := OldManifest();
      After(During(r, D.Renaming(m.version, m.digest), map[m.version := []], S.AwaitResult(m), []), RENAME).row == Some(r)
  {
    hide After, D.HexDigest;
    var m := OldManifest();
    AfterThree(During(r, D.Renaming(m.version, m.digest), map[m.version := []], S.AwaitResult(m), []), RENAME[0], RENAME[1], RENAME[2]);
  }

  const UP_TO_WRITE: seq<Event> := ASK_BLIND + TRANSFER + CHECK + RENAME

  lemma LastStep(s: State, evs: seq<Event>, ev: Event)
    ensures After(s, evs + [ev]) == Next(After(s, evs), ev)
  {
    hide Next;
    assert (evs + [ev])[..|evs|] == evs;
  }

  lemma BlindCheckFalls(r: string)
    requires SemVer.Older(OLDEST_OFFER, r)
    ensures exists s, evs, ev :: Falls(s, evs, ev, r)
  {
    BlindCheckWrites(r);
    StartIsInitial(r);
    hide After, SemVer.Older, Initial, Start, Next, ASK_BLIND, TRANSFER, CHECK, RENAME;
    LastStep(Start(r), UP_TO_WRITE, WRITE[0]);
    assert Falls(Start(r), UP_TO_WRITE, WRITE[0], r);
  }
}
