/** What the invariants of the transfer system mean for whole runs, in any environment. */
module TransferResults {
  import opened Prelude
  import opened Messages
  import opened Transfer
  import opened TransferSafety
  import S = PackageService
  import D = Downloader
  import Hex
  import SemVer

  /**
   The pause handshake: when a server thread finds a control message while streaming it is PAUSE, and
   while holding it is RESUME, so neither the unexpected-control nor the failed-resume branch is
   taken, on any connection and with any number of frames in flight.
   */
  lemma PauseHandshake(s: State, evs: seq<Event>, i: nat)
    requires Initial(s) && i <= |After(s, evs).past|
    requires ServerCan(ConnAt(After(s, evs), i), TakeControl)
    ensures var c := ConnAt(After(s, evs), i);
      && (c.server.Polling? ==> c.toServer[0].Pause?)
      && (c.server.Holding? ==> c.toServer[0].Resume?)
      && !S.OnControl(c.server, c.toServer[0]).Closed?
  {
    hide After;
    RunsAreSafe(s, evs);
    assert ConnOk(ConnAt(After(s, evs), i));
    TakeControlKeepsConn(ConnAt(After(s, evs), i), After(s, evs).manifest);
  }

  /** The manifests, digests and versions that one session sees are those of a single snapshot. */
  lemma OneManifestPerSession(s: State, evs: seq<Event>, i: nat)
    requires Initial(s) && i <= |After(s, evs).past|
    ensures var t := After(s, evs);
      var c := ConnAt(t, i);
      && (SnapshotOf(c.server).Some? ==> c.offered == SnapshotOf(c.server))
      && (forall j | 0 <= j < |c.toClient| && c.toClient[j].Done? ::
            c.offered.Some? && c.toClient[j].digest == c.offered.value.digest)
      && (t.client.Receiving? ==> SameOffer(t.live, t.client.rx.version, t.client.rx.digest))
      && (t.client.Verifying? ==> SameOffer(t.live, t.client.version, t.client.digest))
  {
    hide After, Alternates, HasResult, SemVer.Older;
    RunsAreSafe(s, evs);
    var c := ConnAt(After(s, evs), i);
    assert ConnOk(c);
    forall j | 0 <= j < |c.toClient| && c.toClient[j].Done?
      ensures c.offered.Some? && c.toClient[j].digest == c.offered.value.digest
    {
      assert MessageOk(c, c.toClient[j]);
    }
  }

  /** The installed files after a history of renames. */
  function FinalsAfter(finals: map<string, seq<byte>>, installs: seq<Install>): map<string, seq<byte>> {
    if |installs| == 0 then finals
    else
      var last := installs[|installs| - 1];
      FinalsAfter(finals, installs[..|installs| - 1])[last.version := last.content]
  }

  lemma OnlyRenameInstalls(s: State, ev: Event)
    requires Next(s, ev).finals != s.finals || Next(s, ev).installs != s.installs
    ensures ev == OnClient(Rename(true)) && Can(s, ev)
  {
    hide ServerStep, ServerCan, D.OnOffer, D.OnFrame, D.OnHash;
  }

  lemma NextFinals(s: State, ev: Event, finals: map<string, seq<byte>>)
    requires s.finals == FinalsAfter(finals, s.installs)
    ensures Next(s, ev).finals == FinalsAfter(finals, Next(s, ev).installs)
  {
    var t := Next(s, ev);
    if t.finals != s.finals || t.installs != s.installs {
      OnlyRenameInstalls(s, ev);
      assert t.installs[..|t.installs| - 1] == s.installs;
    } else {
      hide Next;
    }
  }

  /** Nothing but a rename of a verified file ever changes an installed file. */
  lemma {:induction false} FinalsAreInstalls(s: State, evs: seq<Event>)
    requires Initial(s)
    ensures After(s, evs).finals == FinalsAfter(s.finals, After(s, evs).installs)
  {
    hide Next;
    if |evs| > 0 {
      FinalsAreInstalls(s, evs[..|evs| - 1]);
      NextFinals(After(s, evs[..|evs| - 1]), evs[|evs| - 1], s.finals);
    }
  }

  /**
   Install safety, even when the manifest is reloaded or a package is replaced under the same version:
   the bytes of every file renamed into place hash to the digest offered in that session.
   */
  lemma InstalledFilesMatchTheirOffer(s: State, evs: seq<Event>, k: nat)
    requires Initial(s) && k < |After(s, evs).installs|
    ensures var t := After(s, evs);
      var x := t.installs[k];
      && x.conn <= |t.past| && ConnAt(t, x.conn).offered.Some?
      && x.version == ConnAt(t, x.conn).offered.value.version
      && Hex.EqualIgnoringCase(D.HexDigest(x.content), ConnAt(t, x.conn).offered.value.digest)
  {
    hide After, D.HexDigest, Hex.EqualIgnoringCase;
    RunsAreSafe(s, evs);
    assert InstallOk(After(s, evs), After(s, evs).installs[k]);
  }

  // ---- The server's count ----

  /** The number of the first `n` connections whose update was counted. */
  function CountedBefore(s: State, n: nat): nat
    requires n <= |s.past| + 1
  {
    if n == 0 then 0 else CountedBefore(s, n - 1) + if ConnAt(s, n - 1).counted then 1 else 0
  }

  lemma {:induction false} CountedSame(s: State, t: State, n: nat)
    requires n <= |s.past| + 1 && n <= |t.past| + 1
    requires forall i: nat | i < n :: ConnAt(t, i).counted == ConnAt(s, i).counted
    ensures CountedBefore(t, n) == CountedBefore(s, n)
  {
    if n > 0 {
      CountedSame(s, t, n - 1);
    }
  }

  lemma {:induction false} CountedOneMore(s: State, t: State, n: nat, i: nat)
    requires n <= |s.past| + 1 && n <= |t.past| + 1 && i < n
    requires forall j: nat | j < n && j != i :: ConnAt(t, j).counted == ConnAt(s, j).counted
    requires ConnAt(s, i).counted ==> ConnAt(t, i).counted
    ensures CountedBefore(t, n) == CountedBefore(s, n) + if ConnAt(t, i).counted && !ConnAt(s, i).counted then 1 else 0
  {
    if i == n - 1 {
      CountedSame(s, t, i);
    } else {
      CountedOneMore(s, t, n - 1, i);
    }
  }

  predicate ServedOk(s: State) {
    s.served == CountedBefore(s, |s.past| + 1)
  }

  lemma CountedIsKept(c: Conn, e: ServerEvent, manifest: Manifest)
    requires ServerCan(c, e)
    ensures c.counted ==> ServerStep(c, e, manifest).counted
  {
    hide SemVer.CompareText;
  }

  lemma ClientKeepsCounts(s: State, e: ClientEvent)
    requires ClientCan(s, e)
    ensures var t := ClientStep(s, e);
      t.past == s.past && t.live.counted == s.live.counted && t.served == s.served
  {
    hide D.OnOffer, D.OnFrame, D.OnHash;
  }

  lemma NextKeepsServed(s: State, ev: Event)
    requires ServedOk(s)
    ensures ServedOk(Next(s, ev))
  {
    hide ServerStep, ServerCan, ClientStep, ClientCan;
    var t := Next(s, ev);
    if Can(s, ev) {
      match ev {
        case OnServer(i, e) =>
          ServerStepShape(s, i, e);
          CountedIsKept(ConnAt(s, i), e, s.manifest);
          CountedOneMore(s, t, |s.past| + 1, i);
        case OnClient(e) =>
          ClientKeepsCounts(s, e);
          CountedSame(s, t, |s.past| + 1);
        case Connect =>
          CountedSame(s, t, |s.past| + 1);
        case _ =>
          CountedSame(s, t, |s.past| + 1);
      }
    }
  }

  lemma {:induction false} RunsKeepServed(s: State, evs: seq<Event>)
    requires Initial(s)
    ensures ServedOk(After(s, evs))
  {
    hide Next;
    if |evs| == 0 {
      assert CountedBefore(s, 1) == CountedBefore(s, 0) + 0;
    } else {
      RunsKeepServed(s, evs[..|evs| - 1]);
      NextKeepsServed(After(s, evs[..|evs| - 1]), evs[|evs| - 1]);
    }
  }

  lemma InstallsAscend(s: State, j: nat, k: nat)
    requires InstallsOk(s) && j <= k < |s.installs|
    ensures j == k || s.installs[j].conn < s.installs[k].conn
  {
  }

  /** Of the connections before `n`, no more are counted than there are renames in them. */
  lemma {:induction false} CountedNeedInstalls(s: State, n: nat, m: nat)
    requires InstallsOk(s) && n <= |s.past| + 1 && m <= |s.installs|
    requires forall k | 0 <= k < |s.installs| :: s.installs[k].conn < n <==> k < m
    ensures CountedBefore(s, n) <= m
  {
    hide InstallOk;
    if n > 0 {
      var c := n - 1;
      assert ReportOk(s, c);
      if InstalledIn(s, c) {
        var k :| 0 <= k < |s.installs| && s.installs[k].conn == c;
        InstallsAscend(s, k, m - 1);
        CountedNeedInstalls(s, c, m - 1);
      } else {
        CountedNeedInstalls(s, c, m);
      }
    }
  }

  /** The server counts an update as served only after that client's rename, and each at most once. */
  lemma ServedOnlyAfterInstall(s: State, evs: seq<Event>)
    requires Initial(s)
    ensures var t := After(s, evs);
      && t.served == CountedBefore(t, |t.past| + 1) <= |t.installs|
      && (forall i: nat | i <= |t.past| && ConnAt(t, i).counted :: InstalledIn(t, i))
  {
    hide After;
    RunsAreSafe(s, evs);
    RunsKeepServed(s, evs);
    var t := After(s, evs);
    forall k | 0 <= k < |t.installs| ensures t.installs[k].conn < |t.past| + 1 {
      assert InstallOk(t, t.installs[k]);
    }
    CountedNeedInstalls(t, |t.past| + 1, |t.installs|);
    forall i: nat | i <= |t.past| && ConnAt(t, i).counted ensures InstalledIn(t, i) {
      assert ReportOk(t, i);
    }
  }
}
