/**
 The loops of the two programs are runs of the transfer system: what `pkg_stream_file` and `receive_update` do
 in one call is what a sequence of steps of the state machine does.
 */
module Simulation {
  import opened Prelude
  import opened Messages
  import opened Transfer
  import S = PackageService
  import D = Downloader
  import Hex

  // ---- The receive loop ----

  /** Whether the turn gets as far as taking a message. */
  predicate Takes(t: D.Turn) {
    !t.pauseClicked && !t.stop && t.recv.Some?
  }

  function TurnEvents(t: D.Turn): seq<Event> {
    if t.pauseClicked then
      [OnClient(ClickPause(t.kept, t.pauseSent))] + if t.pauseSent then [OnClient(EndHold(t.hold))] else []
    else if t.stop then [OnClient(Quit(t.kept, true))]
    else if t.recv.None? then [OnClient(Quit(t.kept, t.stopAfterRecv))]
    else [OnClient(TakeFrame(t.kept, t.short))]
  }

  function ReceiveEvents(c: D.Client, part: D.File, turns: seq<D.Turn>): seq<Event>
    decreases |turns|
  {
    if !c.Receiving? then []
    else if |turns| == 0 then [OnClient(Quit(|c.rx.buffered|, false))]
    else
      var step := D.TurnStep(c.rx, part, turns[0]);
      TurnEvents(turns[0]) + ReceiveEvents(step.client, step.part, turns[1..])
  }

  /** The messages of the script are those that wait in the queue. */
  predicate Delivers(c: D.Client, part: D.File, turns: seq<D.Turn>, queue: seq<ServerMsg>)
    decreases |turns|
  {
    c.Receiving? && |turns| > 0 ==>
      var step := D.TurnStep(c.rx, part, turns[0]);
      if Takes(turns[0]) then
        |queue| > 0 && turns[0].recv.value == queue[0] && Delivers(step.client, step.part, turns[1..], queue[1..])
      else Delivers(step.client, step.part, turns[1..], queue)
  }

  /** What the loop leaves in the queue. */
  function Left(c: D.Client, part: D.File, turns: seq<D.Turn>, queue: seq<ServerMsg>): seq<ServerMsg>
    requires Delivers(c, part, turns, queue)
    decreases |turns|
  {
    if !c.Receiving? || |turns| == 0 then queue
    else
      var step := D.TurnStep(c.rx, part, turns[0]);
      Left(step.client, step.part, turns[1..], if Takes(turns[0]) then queue[1..] else queue)
  }

  /** A state in which the client has made a step on the file of version `v`, with `queue` left to read. */
  function Stepped(s: State, v: string, step: D.Step, queue: seq<ServerMsg>): State {
    s.(client := step.client, parts := PutFile(s.parts, v, step.part),
       live := s.live.(toServer := s.live.toServer + step.sent, toClient := queue))
  }

  lemma PutTwice(files: map<string, seq<byte>>, v: string, f: D.File, g: D.File)
    ensures PutFile(PutFile(files, v, f), v, g) == PutFile(files, v, g)
    ensures FileOf(PutFile(files, v, f), v) == f
  {
  }

  /** One turn of the loop. */
  lemma TurnIsRun(s: State, t: D.Turn)
    requires s.client.Receiving?
    requires Takes(t) ==> |s.live.toClient| > 0 && t.recv.value == s.live.toClient[0]
    ensures var v := s.client.rx.version;
      var step := D.TurnStep(s.client.rx, FileOf(s.parts, v), t);
      && After(s, TurnEvents(t)) == Stepped(s, v, step, if Takes(t) then s.live.toClient[1..] else s.live.toClient)
      && (step.client.Receiving? ==> step.client.rx.version == v)
  {
    hide After, TurnEvents, D.TurnStep, Stepped;
    if t.pauseClicked && t.pauseSent {
      PauseIsRun(s, t);
    } else if Takes(t) {
      FrameIsRun(s, t);
    } else {
      LastTurnIsRun(s, t);
    }
  }

  lemma FrameIsRun(s: State, t: D.Turn)
    requires s.client.Receiving? && Takes(t) && |s.live.toClient| > 0 && t.recv.value == s.live.toClient[0]
    ensures var v := s.client.rx.version;
      var step := D.TurnStep(s.client.rx, FileOf(s.parts, v), t);
      && After(s, TurnEvents(t)) == Stepped(s, v, step, s.live.toClient[1..])
      && (step.client.Receiving? ==> step.client.rx.version == v)
  {
    hide After, PutFile, FileOf, Hex.EqualIgnoringCase;
    AfterOne(s, OnClient(TakeFrame(t.kept, t.short)));
  }

  /** A stop, a failed receive or a failed pause: the attempt ends. */
  lemma LastTurnIsRun(s: State, t: D.Turn)
    requires s.client.Receiving? && !Takes(t) && !(t.pauseClicked && t.pauseSent)
    ensures var v := s.client.rx.version;
      var step := D.TurnStep(s.client.rx, FileOf(s.parts, v), t);
      After(s, TurnEvents(t)) == Stepped(s, v, step, s.live.toClient) && step.client.Ended?
  {
    hide After, PutFile, FileOf, D.Flushed;
    assert TurnEvents(t) == [TurnEvents(t)[0]];
    AfterOne(s, TurnEvents(t)[0]);
    assert s.live.toServer + [] == s.live.toServer;
  }

  lemma PauseIsRun(s: State, t: D.Turn)
    requires s.client.Receiving? && t.pauseClicked && t.pauseSent
    ensures var v := s.client.rx.version;
      var step := D.TurnStep(s.client.rx, FileOf(s.parts, v), t);
      && After(s, TurnEvents(t)) == Stepped(s, v, step, s.live.toClient)
      && (step.client.Receiving? ==> step.client.rx.version == v)
  {
    hide After, D.Flushed;
    var v := s.client.rx.version;
    var pause := D.OnPause(s.client.rx, FileOf(s.parts, v), t.kept, true);
    var s1 := Next(s, OnClient(ClickPause(t.kept, true)));
    assert TurnEvents(t) == [OnClient(ClickPause(t.kept, true)), OnClient(EndHold(t.hold))];
    AfterTwo(s, OnClient(ClickPause(t.kept, true)), OnClient(EndHold(t.hold)));
    PutTwice(s.parts, v, pause.part, pause.part);
    var hold := D.OnHold(pause.client.rx, pause.part, t.hold);
    assert (s.live.toServer + pause.sent) + hold.sent == s.live.toServer + (pause.sent + hold.sent);
  }

  /**
   The receive loop is a run: after its events the client, its file and its messages are those of `ReceiveRun`, the
   function that `Download.Receive` computes, the queue has lost the messages that were taken, and nothing else
   has changed.
   */
  lemma {:induction false} ReceiveIsRun(s: State, turns: seq<D.Turn>)
    requires s.client.Receiving?
    requires Delivers(s.client, FileOf(s.parts, s.client.rx.version), turns, s.live.toClient)
    ensures var v := s.client.rx.version;
      var run := D.ReceiveRun(s.client, FileOf(s.parts, v), turns);
      After(s, ReceiveEvents(s.client, FileOf(s.parts, v), turns)) ==
        Stepped(s, v, run, Left(s.client, FileOf(s.parts, v), turns, s.live.toClient))
    decreases |turns|
  {
    hide After, D.TurnStep, TurnEvents;
    var (v, part) := (s.client.rx.version, FileOf(s.parts, s.client.rx.version));
    if |turns| == 0 {
      LostConnection(s);
    } else {
      var step := D.TurnStep(s.client.rx, part, turns[0]);
      TurnIsRun(s, turns[0]);
      var s1 := After(s, TurnEvents(turns[0]));
      var more := ReceiveEvents(step.client, step.part, turns[1..]);
      AfterConcat(s, TurnEvents(turns[0]), more);
      PutTwice(s.parts, v, step.part, D.ReceiveRun(step.client, step.part, turns[1..]).part);
      if step.client.Receiving? {
        ReceiveIsRun(s1, turns[1..]);
        Joined(s.live.toServer, step.sent, D.ReceiveRun(step.client, step.part, turns[1..]).sent);
      } else {
        LoopIsOver(s1, step, turns[1..]);
        assert step.sent + [] == step.sent;
      }
    }
  }

  lemma Joined<T>(a: seq<T>, b: seq<T>, c: seq<T>)
    ensures (a + b) + c == a + (b + c)
  {
  }

  lemma LoopIsOver(s: State, step: D.Step, turns: seq<D.Turn>)
    requires !step.client.Receiving?
    ensures After(s, ReceiveEvents(step.client, step.part, turns)) == s
    ensures D.ReceiveRun(step.client, step.part, turns) == D.Step.Step(step.client, step.part, [])
  {
  }

  lemma LostConnection(s: State)
    requires s.client.Receiving?
    ensures var v := s.client.rx.version;
      var run := D.ReceiveRun(s.client, FileOf(s.parts, v), []);
      After(s, ReceiveEvents(s.client, FileOf(s.parts, v), [])) == Stepped(s, v, run, s.live.toClient)
  {
    hide After, D.Flushed;
    AfterOne(s, OnClient(Quit(|s.client.rx.buffered|, false)));
    assert s.live.toServer + [] == s.live.toServer;
  }

  // ---- After the loop ----

  /** The steps from the rename on, if the check has passed. */
  function RenameEvents(passed: bool, t: D.Tail): seq<Event> {
    if !passed then []
    else if !t.renameOk then [OnClient(Rename(false))]
    else [OnClient(Rename(true)), OnClient(Report(t.reportSent)), OnClient(TakeBye), OnClient(WriteRow(t.rowOk))]
  }

  function InstallEvents(rx: D.Rx, part: D.File, t: D.Tail): seq<Event> {
    if !t.flushOk then [OnClient(EndFlush(t.kept, false))]
    else
      var f := D.OnFlush(rx, part, t.kept, true);
      var h := D.OnHash(rx.version, rx.digest, f.part, t.readOk, t.reportSent);
      [OnClient(EndFlush(t.kept, true)), OnClient(Check(t.readOk, t.reportSent))] + RenameEvents(h.client.Renaming?, t)
  }

  /** What an installation leaves for version `v`, with the renames it made, and nothing else. */
  ghost predicate Installed(s: State, t: State, v: string, out: D.Outcome, renamed: seq<Install>) {
    && t.client == D.Ended(out.result) && t.parts == PutFile(s.parts, v, out.part)
    && FileOf(t.finals, v) == out.final && t.row == out.row
    && (forall w | w != v :: FileOf(t.finals, w) == FileOf(s.finals, w))
    && t.live == s.live.(toServer := s.live.toServer + out.sent)
    && t.installs == s.installs + renamed
    && t.past == s.past && t.manifest == s.manifest && t.served == s.served && t.current == s.current
  }

  /** The state when the check has passed. */
  lemma CheckedIsRun(s: State, t: D.Tail)
    requires s.client.Flushing? && t.flushOk
    ensures var rx := s.client.rx;
      var f := D.OnFlush(rx, FileOf(s.parts, rx.version), t.kept, true);
      var h := D.OnHash(rx.version, rx.digest, f.part, t.readOk, t.reportSent);
      After(s, [OnClient(EndFlush(t.kept, true)), OnClient(Check(t.readOk, t.reportSent))]) ==
        Stepped(s, rx.version, h, s.live.toClient)
  {
    hide After, D.HexDigest, Hex.EqualIgnoringCase;
    var rx := s.client.rx;
    var f := D.OnFlush(rx, FileOf(s.parts, rx.version), t.kept, true);
    AfterTwo(s, OnClient(EndFlush(t.kept, true)), OnClient(Check(t.readOk, t.reportSent)));
    var h := D.OnHash(rx.version, rx.digest, f.part, t.readOk, t.reportSent);
    PutTwice(s.parts, rx.version, f.part, h.part);
    assert s.live.toServer + [] == s.live.toServer;
  }

  /** What is left to do after the check, as an outcome. */
  function RenameRun(c: D.Client, part: D.File, final: D.File, row: Option<string>, t: D.Tail): D.Outcome
    requires c.Renaming? || c.Ended?
  {
    if c.Ended? then D.Outcome.Outcome(c.result, part, final, row, [])
    else if !t.renameOk then D.Outcome.Outcome(D.Fatal, part, final, row, [])
    else
      D.Outcome.Outcome(if t.rowOk then D.Success else D.Fatal, None, part, if t.rowOk then Some(c.version) else row,
                        if t.reportSent then [Result(true)] else [])
  }

  /** The rename, if there is one. */
  function Renames(c: D.Client, part: D.File, conn: nat, t: D.Tail): seq<Install> {
    if c.Renaming? && t.renameOk then [Install(conn, c.version, D.Contents(part), c.digest)] else []
  }

  lemma RenameIsRun(s: State, v: string, t: D.Tail)
    requires (s.client.Renaming? && s.client.version == v && v in s.parts) || s.client.Ended?
    ensures Installed(s, After(s, RenameEvents(s.client.Renaming?, t)), v,
                      RenameRun(s.client, FileOf(s.parts, v), FileOf(s.finals, v), s.row, t),
                      Renames(s.client, FileOf(s.parts, v), |s.past|, t))
  {
    hide After;
    assert s.live.toServer + [] == s.live.toServer && s.installs + [] == s.installs;
    PutSame(s.parts, v);
    if s.client.Ended? {
      NoEvents(s);
    } else if !t.renameOk {
      AfterOne(s, OnClient(Rename(false)));
    } else {
      hide PutFile;
      RenamedIsRun(s, t);
    }
  }

  lemma PutSame(files: map<string, seq<byte>>, v: string)
    ensures PutFile(files, v, FileOf(files, v)) == files
  {
  }

  lemma RenamedIsRun(s: State, t: D.Tail)
    requires s.client.Renaming? && s.client.version in s.parts && t.renameOk
    ensures var v := s.client.version;
      Installed(s, After(s, RenameEvents(true, t)), v, RenameRun(s.client, FileOf(s.parts, v), FileOf(s.finals, v), s.row, t),
                Renames(s.client, FileOf(s.parts, v), |s.past|, t))
  {
    hide After;
    var (e1, e2) := (OnClient(Rename(true)), OnClient(Report(t.reportSent)));
    var (e3, e4) := (OnClient(TakeBye), OnClient(WriteRow(t.rowOk)));
    AfterTwo(s, e1, e2);
    AfterTwo(After(s, [e1, e2]), e3, e4);
    AfterConcat(s, [e1, e2], [e3, e4]);
    assert [e1, e2] + [e3, e4] == [e1, e2, e3, e4];
  }

  /** The steps before the rename put in front. */
  lemma InstalledFrom(s: State, step: D.Step, t: State, v: string, out: D.Outcome, renamed: seq<Install>)
    requires Installed(Stepped(s, v, step, s.live.toClient), t, v, out, renamed)
    ensures Installed(s, t, v, out.(sent := step.sent + out.sent), renamed)
  {
    PutTwice(s.parts, v, step.part, out.part);
    Joined(s.live.toServer, step.sent, out.sent);
    hide PutFile, FileOf;
  }

  lemma FailedFlushIsRun(s: State, t: D.Tail)
    requires s.client.Flushing? && !t.flushOk
    ensures var rx := s.client.rx;
      var part := FileOf(s.parts, rx.version);
      Installed(s, After(s, InstallEvents(rx, part, t)), rx.version, D.InstallRun(rx, part, FileOf(s.finals, rx.version), s.row, t), [])
  {
    hide After, D.Flushed;
    assert s.installs + [] == s.installs;
    assert InstallEvents(s.client.rx, FileOf(s.parts, s.client.rx.version), t) == [OnClient(EndFlush(t.kept, false))];
    AfterOne(s, OnClient(EndFlush(t.kept, false)));
    assert s.live.toServer + [] == s.live.toServer;
  }

  /** The rename that an installation makes: of what was written, if flush, check and rename went well. */
  function InstallRenames(rx: D.Rx, part: D.File, conn: nat, t: D.Tail): seq<Install> {
    var whole := D.Contents(part) + rx.buffered;
    if t.flushOk && t.readOk && Hex.EqualIgnoringCase(D.HexDigest(whole), rx.digest) && t.renameOk then
      [Install(conn, rx.version, whole, rx.digest)]
    else []
  }

  lemma RenamesIs(rx: D.Rx, part: D.File, conn: nat, t: D.Tail)
    requires t.flushOk
    ensures var f := D.OnFlush(rx, part, t.kept, true);
      var h := D.OnHash(rx.version, rx.digest, f.part, t.readOk, t.reportSent);
      InstallRenames(rx, part, conn, t) == Renames(h.client, h.part, conn, t)
  {
    hide D.HexDigest, Hex.EqualIgnoringCase;
  }

  /** The end of an attempt is a run: its events leave what `InstallRun`, and so `Download.Install`, leaves. */
  lemma InstallIsRun(s: State, t: D.Tail)
    requires s.client.Flushing?
    ensures var rx := s.client.rx;
      var part := FileOf(s.parts, rx.version);
      Installed(s, After(s, InstallEvents(rx, part, t)), rx.version, D.InstallRun(rx, part, FileOf(s.finals, rx.version), s.row, t),
                InstallRenames(rx, part, |s.past|, t))
  {
    var rx := s.client.rx;
    var v := rx.version;
    var part := FileOf(s.parts, v);
    if !t.flushOk {
      FailedFlushIsRun(s, t);
    } else {
      CheckedIsRun(s, t);
      var f := D.OnFlush(rx, part, t.kept, true);
      var h := D.OnHash(v, rx.digest, f.part, t.readOk, t.reportSent);
      PassedIsThere(rx, part, t);
      PutTwice(s.parts, v, h.part, None);
      InstallRunIs(rx, part, FileOf(s.finals, v), s.row, t);
      RenamesIs(rx, part, |s.past|, t);
      hide After, PutFile, FileOf, Installed, RenameRun, RenameEvents, Renames, InstallRenames, D.InstallRun, D.OnHash, D.OnFlush;
      var s1 := Stepped(s, v, h, s.live.toClient);
      var check := [OnClient(EndFlush(t.kept, true)), OnClient(Check(t.readOk, t.reportSent))];
      AfterConcat(s, check, RenameEvents(h.client.Renaming?, t));
      RenameIsRun(s1, v, t);
      InstalledFrom(s, h, After(s1, RenameEvents(h.client.Renaming?, t)), v, RenameRun(h.client, h.part, FileOf(s.finals, v), s.row, t),
                    Renames(h.client, h.part, |s.past|, t));
    }
  }

  lemma PassedIsThere(rx: D.Rx, part: D.File, t: D.Tail)
    ensures var f := D.OnFlush(rx, part, t.kept, true);
      var h := D.OnHash(rx.version, rx.digest, f.part, t.readOk, t.reportSent);
      h.client.Ended? || (h.client.Renaming? && h.client.version == rx.version && h.part.Some?)
  {
    hide D.HexDigest, Hex.EqualIgnoringCase;
  }

  lemma InstallRunIs(rx: D.Rx, part: D.File, final: D.File, row: Option<string>, t: D.Tail)
    requires t.flushOk
    ensures var f := D.OnFlush(rx, part, t.kept, true);
      var h := D.OnHash(rx.version, rx.digest, f.part, t.readOk, t.reportSent);
      && (h.client.Ended? || h.client.Renaming?)
      && var out := RenameRun(h.client, h.part, final, row, t);
         D.InstallRun(rx, part, final, row, t) == out.(sent := h.sent + out.sent)
  {
    hide D.HexDigest, Hex.EqualIgnoringCase;
  }

  // ---- The streaming loop ----

  /** A list of steps of one server thread. */
  function ConnRun(c: Conn, es: seq<ServerEvent>, manifest: Manifest): Conn
    decreases |es|
  {
    if |es| == 0 then c
    else ConnRun(if ServerCan(c, es[0]) then ServerStep(c, es[0], manifest) else c, es[1..], manifest)
  }

  function AllOnServer(i: nat, es: seq<ServerEvent>): (evs: seq<Event>)
    ensures |evs| == |es| && forall j | 0 <= j < |es| :: evs[j] == OnServer(i, es[j])
  {
    seq(|es|, j requires 0 <= j < |es| => OnServer(i, es[j]))
  }

  /** Within the whole system these steps change that connection, and no other. */
  lemma {:induction false} ConnRunIsRun(s: State, i: nat, es: seq<ServerEvent>)
    requires i <= |s.past|
    ensures var t := After(s, AllOnServer(i, es));
      && |t.past| == |s.past| && ConnAt(t, i) == ConnRun(ConnAt(s, i), es, s.manifest)
      && t == s.(past := t.past, live := t.live, served := t.served)
      && forall j: nat | j <= |s.past| && j != i :: ConnAt(t, j) == ConnAt(s, j)
    decreases |es|
  {
    hide ServerCan, ServerStep, After;
    if |es| == 0 {
      assert AllOnServer(i, es) == [];
      NoEvents(s);
    } else {
      OneServerStep(s, i, es[0]);
      AfterOne(s, OnServer(i, es[0]));
      ConnRunIsRun(Next(s, OnServer(i, es[0])), i, es[1..]);
      assert AllOnServer(i, es) == [OnServer(i, es[0])] + AllOnServer(i, es[1..]);
      AfterConcat(s, [OnServer(i, es[0])], AllOnServer(i, es[1..]));
    }
  }

  lemma NoEvents(s: State)
    ensures After(s, []) == s
  {
  }

  lemma OneServerStep(s: State, i: nat, e: ServerEvent)
    requires i <= |s.past|
    ensures var t := Next(s, OnServer(i, e));
      && |t.past| == |s.past|
      && ConnAt(t, i) == (if ServerCan(ConnAt(s, i), e) then ServerStep(ConnAt(s, i), e, s.manifest) else ConnAt(s, i))
      && t == s.(past := t.past, live := t.live, served := t.served)
      && forall j: nat | j <= |s.past| && j != i :: ConnAt(t, j) == ConnAt(s, j)
  {
    hide ServerStep, ServerCan;
  }

  /** The chunk that a turn reads. */
  function Chunk(st: S.Stream, t: S.Turn, chunk: nat): seq<byte>
    requires st.sent <= st.size
  {
    var want := S.Want(st, chunk);
    if |t.data| < want then t.data else t.data[..want]
  }

  function SendEvents(st: S.Stream, t: S.Turn, chunk: nat): seq<ServerEvent>
    requires st.sent <= st.size
  {
    var data := Chunk(st, t, chunk);
    if |data| == 0 || !t.sendOk then [Drop] else [SendChunk(data, |data| < S.Want(st, chunk) && t.readError)]
  }

  /** The looks at the control messages. */
  function PollEvents(t: S.Turn): seq<ServerEvent> {
    match t.poll
    case Nothing => [FindNothing]
    case Failed => [Drop]
    case Got(msg) => if !msg.Pause? then [TakeControl] else [TakeControl, if t.hold.Got? then TakeControl else Drop]
  }

  function StreamTurnEvents(st: S.Stream, t: S.Turn, chunk: nat): seq<ServerEvent>
    requires st.sent <= st.size
  {
    PollEvents(t) + if S.AfterPoll(st, t).Sending? then SendEvents(st, t, chunk) else []
  }

  function StreamEvents(s: S.Server, turns: seq<S.Turn>, chunk: nat): seq<ServerEvent>
    requires s.Polling? ==> s.stream.sent <= s.stream.size
    decreases |turns|
  {
    if !s.Polling? then []
    else if |turns| == 0 then [Drop]
    else
      StreamTurnEvents(s.stream, turns[0], chunk) +
      StreamEvents(S.TurnStep(s.stream, turns[0], chunk).0, turns[1..], chunk)
  }

  /** The control messages that a turn reads. */
  function Reads(t: S.Turn): seq<ClientMsg> {
    if !t.poll.Got? then []
    else [t.poll.msg] + if t.poll.msg.Pause? && t.hold.Got? then [t.hold.msg] else []
  }

  /** The control messages of the script are those that wait in the queue. */
  predicate Sends(s: S.Server, turns: seq<S.Turn>, chunk: nat, queue: seq<ClientMsg>)
    requires s.Polling? ==> s.stream.sent <= s.stream.size
    decreases |turns|
  {
    s.Polling? && |turns| > 0 ==>
      && Reads(turns[0]) <= queue
      && Sends(S.TurnStep(s.stream, turns[0], chunk).0, turns[1..], chunk, queue[|Reads(turns[0])|..])
  }

  /** What the loop leaves in the queue. */
  function Unread(s: S.Server, turns: seq<S.Turn>, chunk: nat, queue: seq<ClientMsg>): seq<ClientMsg>
    requires s.Polling? ==> s.stream.sent <= s.stream.size
    requires Sends(s, turns, chunk, queue)
    decreases |turns|
  {
    if !s.Polling? || |turns| == 0 then queue
    else Unread(S.TurnStep(s.stream, turns[0], chunk).0, turns[1..], chunk, queue[|Reads(turns[0])|..])
  }

  lemma {:induction false} ConnRunConcat(c: Conn, xs: seq<ServerEvent>, ys: seq<ServerEvent>, m: Manifest)
    ensures ConnRun(c, xs + ys, m) == ConnRun(ConnRun(c, xs, m), ys, m)
    decreases |xs|
  {
    hide ServerCan, ServerStep;
    if |xs| == 0 {
      assert xs + ys == ys;
    } else {
      assert (xs + ys)[1..] == xs[1..] + ys;
      ConnRunConcat(if ServerCan(c, xs[0]) then ServerStep(c, xs[0], m) else c, xs[1..], ys, m);
    }
  }

  lemma ConnRunOne(c: Conn, e: ServerEvent, m: Manifest)
    ensures ConnRun(c, [e], m) == if ServerCan(c, e) then ServerStep(c, e, m) else c
  {
    hide ServerCan, ServerStep;
    assert [e][1..] == [];
  }

  lemma PollIsRun(c: Conn, t: S.Turn, m: Manifest)
    requires c.server.Polling? && Reads(t) <= c.toServer
    ensures ConnRun(c, PollEvents(t), m) ==
      c.(server := S.AfterPoll(c.server.stream, t), toServer := c.toServer[|Reads(t)|..])
  {
    hide ConnRun;
    var es := PollEvents(t);
    if |es| == 1 {
      assert es == [es[0]];
      ConnRunOne(c, es[0], m);
      assert t.poll.Got? ==> Reads(t)[0] == c.toServer[0];
    } else {
      assert es == [es[0]] + [es[1]];
      ConnRunConcat(c, [es[0]], [es[1]], m);
      ConnRunOne(c, TakeControl, m);
      assert Reads(t)[0] == c.toServer[0];
      assert t.hold.Got? ==> Reads(t)[1] == c.toServer[1];
      ConnRunOne(Took(c).(server := S.Holding(c.server.stream)), es[1], m);
    }
  }

  lemma SendIsRun(c: Conn, t: S.Turn, chunk: nat, m: Manifest)
    requires c.server.Sending? && c.server.stream.sent <= c.server.stream.size
    requires S.AfterPoll(c.server.stream, t) == S.Sending(c.server.stream)
    ensures var (next, frames) := S.TurnStep(c.server.stream, t, chunk);
      ConnRun(c, SendEvents(c.server.stream, t, chunk), m) == Reply(c, next, frames)
  {
    hide ConnRun, S.AfterPoll;
    var es := SendEvents(c.server.stream, t, chunk);
    assert es == [es[0]];
    ConnRunOne(c, es[0], m);
    assert c.toClient + [] == c.toClient;
  }

  lemma AfterPollSends(st: S.Stream, t: S.Turn)
    ensures S.AfterPoll(st, t).Sending? ==> S.AfterPoll(st, t) == S.Sending(st)
    ensures !S.AfterPoll(st, t).Sending? ==> S.AfterPoll(st, t).Closed?
  {
  }

  lemma StreamTurnIsRun(c: Conn, t: S.Turn, chunk: nat, m: Manifest)
    requires c.server.Polling? && c.server.stream.sent <= c.server.stream.size && Reads(t) <= c.toServer
    ensures var (next, frames) := S.TurnStep(c.server.stream, t, chunk);
      ConnRun(c, StreamTurnEvents(c.server.stream, t, chunk), m) ==
        Reply(c, next, frames).(toServer := c.toServer[|Reads(t)|..])
  {
    hide ConnRun, S.AfterPoll, SendEvents, PollEvents;
    var st := c.server.stream;
    AfterPollSends(st, t);
    PollIsRun(c, t, m);
    var polled := c.(server := S.AfterPoll(st, t), toServer := c.toServer[|Reads(t)|..]);
    if S.AfterPoll(st, t).Sending? {
      ConnRunConcat(c, PollEvents(t), SendEvents(st, t, chunk), m);
      SendIsRun(polled, t, chunk, m);
    } else {
      assert PollEvents(t) + [] == PollEvents(t) && c.toClient + [] == c.toClient;
    }
  }

  /** The streaming loop is a run: after its events the thread and the frames it sent are those of `StreamRun`. */
  lemma {:induction false} StreamLoopIsRun(c: Conn, turns: seq<S.Turn>, chunk: nat, m: Manifest)
    requires c.server.Polling? && c.server.stream.sent <= c.server.stream.size
    requires Sends(c.server, turns, chunk, c.toServer)
    ensures var (final, frames) := S.StreamRun(c.server, turns, chunk);
      ConnRun(c, StreamEvents(c.server, turns, chunk), m) ==
        Reply(c, final, frames).(toServer := Unread(c.server, turns, chunk, c.toServer))
    decreases |turns|
  {
    hide ConnRun, S.TurnStep, StreamTurnEvents, Reads;
    if |turns| == 0 {
      ConnRunOne(c, Drop, m);
      assert c.toClient + [] == c.toClient;
    } else {
      var (next, frames) := S.TurnStep(c.server.stream, turns[0], chunk);
      StreamTurnIsRun(c, turns[0], chunk, m);
      var c1 := Reply(c, next, frames).(toServer := c.toServer[|Reads(turns[0])|..]);
      ConnRunConcat(c, StreamTurnEvents(c.server.stream, turns[0], chunk), StreamEvents(next, turns[1..], chunk), m);
      Joined(c.toClient, frames, S.StreamRun(next, turns[1..], chunk).1);
      if next.Polling? {
        StreamLoopIsRun(c1, turns[1..], chunk, m);
      } else {
        StreamIsOver(c1, turns[1..], chunk, m);
      }
    }
  }

  lemma StreamIsOver(c: Conn, turns: seq<S.Turn>, chunk: nat, m: Manifest)
    requires !c.server.Polling?
    ensures ConnRun(c, StreamEvents(c.server, turns, chunk), m) == c && S.StreamRun(c.server, turns, chunk) == (c.server, [])
    ensures c.toClient + [] == c.toClient
  {
  }

  /** So within the whole system, on any connection, the loop of `PkgStreamFile` is a run of steps of its thread. */
  lemma StreamIsRun(s: State, i: nat, turns: seq<S.Turn>, chunk: nat)
    requires i <= |s.past|
    requires var c := ConnAt(s, i); c.server.Polling? && c.server.stream.sent <= c.server.stream.size
    requires Sends(ConnAt(s, i).server, turns, chunk, ConnAt(s, i).toServer)
    ensures var c := ConnAt(s, i);
      var (final, frames) := S.StreamRun(c.server, turns, chunk);
      var t := After(s, AllOnServer(i, StreamEvents(c.server, turns, chunk)));
      && |t.past| == |s.past|
      && ConnAt(t, i) == Reply(c, final, frames).(toServer := Unread(c.server, turns, chunk, c.toServer))
      && t == s.(past := t.past, live := t.live, served := t.served)
      && forall j: nat | j <= |s.past| && j != i :: ConnAt(t, j) == ConnAt(s, j)
  {
    hide ConnRun, S.StreamRun, StreamEvents, After, Sends, Unread;
    StreamLoopIsRun(ConnAt(s, i), turns, chunk, s.manifest);
    ConnRunIsRun(s, i, StreamEvents(ConnAt(s, i).server, turns, chunk));
  }
}
