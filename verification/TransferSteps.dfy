/** What single steps of the transfer do, said about the state before and the state after. */
module TransferSteps {
  import opened Prelude
  import opened Messages
  import opened Transfer
  import S = PackageService
  import D = Downloader
  import Hex
  import SemVer

  /** The bytes of a file, none when there is no file. */
  function BytesOf(files: map<string, seq<byte>>, v: string): seq<byte> {
    if v in files then files[v] else []
  }

  /** What an offer of this size keeps of the `.part` file. */
  function Kept(part: seq<byte>, size: nat): seq<byte> {
    if |part| <= size then part else []
  }

  // ---- The update decision ----

  /**
   The answer to VERSION_REQ: the offer exactly when the numbers of the manifest's version are above those of the
   client's, UP_TO_DATE and BYE exactly when both texts are versions and they are not, and an error otherwise.
   */
  lemma UpdateDecision(s: State, i: nat)
    requires i <= |s.past| && ConnAt(s, i).server.AwaitVersion?
    requires |ConnAt(s, i).toServer| > 0 && ConnAt(s, i).toServer[0].VersionReq?
    ensures var (c, m) := (ConnAt(s, i), s.manifest);
      var (d, current) := (ConnAt(Next(s, OnServer(i, TakeVersion)), i), c.toServer[0].current);
      d.toServer == c.toServer[1..] &&
      if SemVer.Below(current, m.version) then
        && d.server == S.AwaitDownload(m) && d.offered == Some(m)
        && d.toClient == c.toClient + [Offer(m.version, m.size, m.digest)]
      else
        && d.server == S.Closed && d.offered == c.offered
        && d.toClient == c.toClient +
             (if SemVer.IsVersion(current) && SemVer.IsVersion(m.version) then [UpToDate(m.version), Bye] else [Fault])
  {
    hide SemVer.CompareText, SemVer.Older, SemVer.Below, SemVer.IsVersion;
    var (current, v) := (ConnAt(s, i).toServer[0].current, s.manifest.version);
    SemVer.ComparedByNumbers(current, v);
    SignOf(current, v);
  }

  lemma SignOf(a: string, b: string)
    ensures SemVer.Older(a, b) <==> SemVer.CompareText(a, b).Some? && SemVer.CompareText(a, b).value < 0
  {
    hide SemVer.Parse;
  }

  // ---- The download request ----

  /**
   An offer is taken: the download goes on behind the `.part` file, when that is no longer than the package, and
   starts again from nothing when it is; the request carries the number of bytes that are there.
   */
  lemma OfferTaken(s: State, stop: bool, fatal: bool)
    requires s.client.AwaitOffer? && |s.live.toClient| > 0 && s.live.toClient[0].Offer?
    requires SemVer.Valid(s.live.toClient[0].version)
    ensures var m := s.live.toClient[0];
      var kept := Kept(BytesOf(s.parts, m.version), m.size);
      Next(s, OnClient(TakeReply(true, stop, true, fatal))) ==
        s.(client := D.Receiving(D.Rx.Rx(m.version, m.size, m.digest, |kept|, [])),
           parts := s.parts[m.version := kept],
           live := s.live.(toClient := s.live.toClient[1..], toServer := s.live.toServer + [DownloadReq(|kept|)]))
  {
    hide SemVer.Valid;
  }

  /** Otherwise the attempt is over: a version that is none, a request that is not sent, a file that does not open. */
  lemma OfferNotTaken(s: State, sendOk: bool, stop: bool, openOk: bool, fatal: bool)
    requires s.client.AwaitOffer? && |s.live.toClient| > 0 && s.live.toClient[0].Offer?
    requires !(SemVer.Valid(s.live.toClient[0].version) && sendOk && openOk)
    ensures var m := s.live.toClient[0];
      var (t, part) := (Next(s, OnClient(TakeReply(sendOk, stop, openOk, fatal))), BytesOf(s.parts, m.version));
      && t.client == D.Ended(if SemVer.Valid(m.version) && !sendOk then (if stop then D.Paused else D.Reconnect) else D.Fatal)
      && t.parts == (if SemVer.Valid(m.version) && |part| > m.size then s.parts - {m.version} else s.parts)
      && t.live.toServer == s.live.toServer +
           (if SemVer.Valid(m.version) && sendOk then [DownloadReq(|Kept(part, m.size)|)] else [])
  {
    hide SemVer.Valid;
  }

  /** The server streams from the offset asked for; it refuses one behind the announced size or the end of the file. */
  lemma RequestTaken(s: State, i: nat, size: nat)
    requires i <= |s.past| && ConnAt(s, i).server.AwaitDownload?
    requires |ConnAt(s, i).toServer| > 0 && ConnAt(s, i).toServer[0].DownloadReq?
    ensures var c := ConnAt(s, i);
      var (m, offset) := (c.server.manifest, c.toServer[0].offset);
      ConnAt(Next(s, OnServer(i, TakeDownload(size))), i) ==
        c.(toServer := c.toServer[1..],
           toClient := if offset > m.size then c.toClient + [Fault] else c.toClient,
           server := if offset > m.size || offset > size then S.Closed
                     else if offset == size then S.Finishing(m)
                     else S.Polling(S.Stream(m, size, offset)))
  {
  }

  // ---- The end of an attempt ----

  /** A failed receive or a stop: the file has gained the first `kept` bytes of the buffer, all of them if it could. */
  lemma Interrupted(s: State, kept: nat, stop: bool)
    requires s.client.Receiving?
    ensures var rx := s.client.rx;
      var n := if kept < |rx.buffered| then kept else |rx.buffered|;
      Next(s, OnClient(Quit(kept, stop))) ==
        s.(client := D.Ended(if stop then D.Paused else D.Reconnect),
           parts := s.parts[rx.version := BytesOf(s.parts, rx.version) + rx.buffered[..n]])
  {
    assert s.live.toServer + [] == s.live.toServer;
    assert s.client.rx.buffered[..|s.client.rx.buffered|] == s.client.rx.buffered;
  }

  /** A DATA frame that fits is counted and buffered. */
  lemma DataTaken(s: State, kept: nat)
    requires s.client.Receiving? && |s.live.toClient| > 0 && s.live.toClient[0].Data?
    requires s.client.rx.received + |s.live.toClient[0].bytes| <= s.client.rx.size
    ensures var (rx, bytes) := (s.client.rx, s.live.toClient[0].bytes);
      Next(s, OnClient(TakeFrame(kept, false))) ==
        s.(client := D.Receiving(rx.(received := rx.received + |bytes|, buffered := rx.buffered + bytes)),
           live := s.live.(toClient := s.live.toClient[1..]))
  {
    assert s.live.toServer + [] == s.live.toServer;
    PutBack(s.parts, s.client.rx.version);
  }

  /** Nothing that is received can make the file longer than it was announced: it is removed instead. */
  lemma TooMuchData(s: State, kept: nat, short: bool)
    requires s.client.Receiving? && |s.live.toClient| > 0 && s.live.toClient[0].Data?
    requires s.client.rx.received + |s.live.toClient[0].bytes| > s.client.rx.size
    ensures var t := Next(s, OnClient(TakeFrame(kept, short)));
      t.client == D.Ended(D.Fatal) && t.parts == s.parts - {s.client.rx.version}
  {
  }

  /** TRANSFER_DONE with the digest of the offer, in either letter case, ends the loop; with another the file is removed. */
  lemma DoneTaken(s: State, kept: nat, short: bool)
    requires s.client.Receiving? && |s.live.toClient| > 0 && s.live.toClient[0].Done?
    ensures var (rx, digest) := (s.client.rx, s.live.toClient[0].digest);
      var (t, left) := (Next(s, OnClient(TakeFrame(kept, short))), s.live.(toClient := s.live.toClient[1..]));
      && (Hex.EqualIgnoringCase(digest, rx.digest) ==> t == s.(client := D.Flushing(rx), live := left))
      && (!Hex.EqualIgnoringCase(digest, rx.digest) ==>
            t == s.(client := D.Ended(D.Retry), parts := s.parts - {rx.version}, live := left))
  {
    hide Hex.EqualIgnoringCase;
    assert s.live.toServer + [] == s.live.toServer;
    PutBack(s.parts, s.client.rx.version);
  }

  // ---- Other answers, and the version row ----

  /** Without an offer the attempt is over: well, when the client is up to date; fatally or not, after an error. */
  lemma OtherAnswers(s: State, sendOk: bool, stop: bool, openOk: bool, fatal: bool)
    requires s.client.AwaitOffer? && |s.live.toClient| > 0 && !s.live.toClient[0].Offer?
    ensures var (msg, t) := (s.live.toClient[0], Next(s, OnClient(TakeReply(sendOk, stop, openOk, fatal))));
      && t == s.(client := t.client, live := s.live.(toClient := s.live.toClient[1..]))
      && t.client == D.Ended(if msg.UpToDate? then D.Success
                             else if msg.Fault? then (if fatal then D.Fatal else D.Retry)
                             else (if stop then D.Paused else D.Reconnect))
  {
  }

  /** A check works from the row it has seen, and from 0.0.0 without one. */
  lemma CheckStarts(s: State, seen: bool)
    requires Idle(s.client)
    ensures Next(s, StartRun(seen)) ==
      s.(client := D.Ended(D.Retry), current := if seen && s.row.Some? then s.row.value else "0.0.0")
  {
  }

  /** The last step of an update writes its version into the row; a write that fails is fatal and leaves the row. */
  lemma RowWritten(s: State, ok: bool)
    requires s.client.WritingRow?
    ensures Next(s, OnClient(WriteRow(ok))) ==
      s.(client := D.Ended(if ok then D.Success else D.Fatal), row := if ok then Some(s.client.version) else s.row)
  {
  }

  // ---- Pause and resume ----

  /**
   A pause puts the first `kept` bytes of the buffer into the file and forgets the others; when the PAUSE cannot be
   sent the attempt is over.
   */
  lemma PauseTaken(s: State, kept: nat, sendOk: bool)
    requires s.client.Receiving?
    ensures var rx := s.client.rx;
      var n := if kept < |rx.buffered| then kept else |rx.buffered|;
      Next(s, OnClient(ClickPause(kept, sendOk))) ==
        s.(client := if sendOk then D.Client.Holding(rx.(buffered := [])) else D.Ended(D.Reconnect),
           parts := s.parts[rx.version := BytesOf(s.parts, rx.version) + rx.buffered[..n]],
           live := s.live.(toServer := s.live.toServer + if sendOk then [Pause(rx.received)] else []))
  {
    assert s.client.rx.buffered[..|s.client.rx.buffered|] == s.client.rx.buffered;
  }

  /** Only a RESUME that was sent goes on with the download; the file stays as it is. */
  lemma HoldEnds(s: State, end: D.HoldEnd)
    requires s.client.Holding?
    ensures Next(s, OnClient(EndHold(end))) ==
      s.(client := if end == D.ResumeSent then D.Receiving(s.client.rx)
                   else D.Ended(if end == D.ResumeFailed then D.ResumeReconnect else D.Paused),
         live := s.live.(toServer := s.live.toServer + if end == D.ResumeSent then [Resume] else []))
  {
    PutBack(s.parts, s.client.rx.version);
  }

  lemma PutBack(files: map<string, seq<byte>>, v: string)
    ensures PutFile(files, v, FileOf(files, v)) == files
  {
  }
}
