/**
 The receiving half of a transfer: `receive_update`, `wait_for_gui_resume_on_connection` and
 `save_interrupted_download` of src/client/downloader.c.
 */
module Downloader {
  import opened Prelude
  import opened Messages
  import Hex
  import Sha256Spec
  import SemVer

  /** `attempt_result_t`. */
  datatype AttemptResult = Success | Retry | Reconnect | ResumeReconnect | Fatal | Paused

  /** A file on disk, or its absence. */
  type File = Option<seq<byte>>

  function Contents(f: File): seq<byte> {
    if f.Some? then f.value else []
  }

  /** The first `n` elements, or all of them. */
  function Take<T>(s: seq<T>, n: nat): (t: seq<T>)
    ensures t <= s
  {
    if n < |s| then s[..n] else s
  }

  /** What `sha256_file_hex` writes for a file with these bytes. */
  function HexDigest(bytes: seq<byte>): string {
    Hex.ToHex(Sha256Spec.Sha256(bytes))
  }

  /** A download in progress: the offer, the count `received`, and the bytes still in the stdio buffer. */
  datatype Rx = Rx(version: string, size: nat, digest: string, received: nat, buffered: seq<byte>)

  /** Where one attempt of the client stands. */
  datatype Client =
    | Ended(result: AttemptResult)
    | AwaitOffer
    | Receiving(rx: Rx)
    | Holding(rx: Rx)
    | Flushing(rx: Rx)
    | Verifying(version: string, digest: string)
    | Renaming(version: string, digest: string)
    | Reporting(version: string)
    | AwaitBye(version: string)
    | WritingRow(version: string)

  /** The effect of one step: the new place, the `.part` file, and what was sent. */
  datatype Step = Step(client: Client, part: File, sent: seq<ClientMsg>)

  /** The offset comes from the size of the `.part` file; an oversized one is removed. */
  function OnOffer(version: string, size: nat, digest: string, part: File, sendOk: bool, stop: bool, openOk: bool): Step {
    if !SemVer.Valid(version) then Step(Ended(Fatal), part, [])
    else
      var oversized := |Contents(part)| > size;
      var offset := if oversized then 0 else |Contents(part)|;
      var kept := if oversized then None else part;
      if !sendOk then Step(Ended(if stop then Paused else Reconnect), kept, [])
      else if !openOk then Step(Ended(Fatal), kept, [DownloadReq(offset)])
      else Step(Receiving(Rx(version, size, digest, offset, [])),
                if offset > 0 then kept else Some([]), [DownloadReq(offset)])
  }

  /** The file once `kept` more bytes of the buffer have reached it. */
  function Flushed(part: File, buffered: seq<byte>, kept: nat): File {
    Some(Contents(part) + Take(buffered, kept))
  }

  /**
   A click on Pause: the buffer is flushed without a look at the result, so only `kept` bytes of it
   need to have reached the file.
   */
  function OnPause(rx: Rx, part: File, kept: nat, sendOk: bool): Step {
    Step(if sendOk then Client.Holding(rx.(buffered := [])) else Ended(Reconnect),
         Flushed(part, rx.buffered, kept), if sendOk then [Pause(rx.received)] else [])
  }

  /** How `wait_for_gui_resume_on_connection` ends. */
  datatype HoldEnd = ResumeSent | ResumeFailed | TimedOut | Stopped

  function OnHold(rx: Rx, part: File, end: HoldEnd): Step {
    match end
    case ResumeSent => Step(Receiving(rx), part, [Resume])
    case ResumeFailed => Step(Ended(ResumeReconnect), part, [])
    case TimedOut => Step(Ended(Paused), part, [])
    case Stopped => Step(Ended(Paused), part, [])
  }

  /** A failed receive or a stop request; closing the file writes `kept` bytes of the buffer. */
  function OnQuit(rx: Rx, part: File, kept: nat, stop: bool): Step {
    Step(Ended(if stop then Paused else Reconnect), Flushed(part, rx.buffered, kept), [])
  }

  /** A frame: data, the end of the transfer, or anything else. `short` is a short `fwrite`. */
  function OnFrame(rx: Rx, part: File, msg: ServerMsg, kept: nat, short: bool): Step {
    if msg.Data? then
      if rx.received + |msg.bytes| > rx.size then Step(Ended(Fatal), None, [])
      else if short && |msg.bytes| > 0 then Step(Ended(Retry), Flushed(part, rx.buffered + msg.bytes, kept), [])
      else Step(Receiving(rx.(received := rx.received + |msg.bytes|, buffered := rx.buffered + msg.bytes)), part, [])
    else if msg.Done? then
      if !Hex.EqualIgnoringCase(msg.digest, rx.digest) then Step(Ended(Retry), None, [])
      else Step(Flushing(rx), part, [])
    else Step(Ended(Retry), Flushed(part, rx.buffered, kept), [])
  }

  /** The checked flush after TRANSFER_DONE. */
  function OnFlush(rx: Rx, part: File, kept: nat, ok: bool): Step {
    if ok then Step(Verifying(rx.version, rx.digest), Some(Contents(part) + rx.buffered), [])
    else Step(Ended(Retry), Flushed(part, rx.buffered, kept), [])
  }

  /** The whole-file check. */
  function OnHash(version: string, digest: string, part: File, readOk: bool, sendOk: bool): Step {
    if readOk && part.Some? && Hex.EqualIgnoringCase(HexDigest(part.value), digest) then
      Step(Renaming(version, digest), part, [])
    else Step(Ended(Retry), None, if sendOk then [Result(false)] else [])
  }

  /** What the user, the connection and the disk do during one turn of the receive loop. */
  datatype Turn = Turn(pauseClicked: bool, pauseSent: bool, hold: HoldEnd, stop: bool,
                       recv: Option<ServerMsg>, stopAfterRecv: bool, short: bool, kept: nat)

  /** One turn of the loop, as the protocol steps it consists of. */
  function TurnStep(rx: Rx, part: File, t: Turn): Step {
    if t.pauseClicked then
      var s := OnPause(rx, part, t.kept, t.pauseSent);
      if s.client.Holding? then
        var h := OnHold(s.client.rx, s.part, t.hold);
        h.(sent := s.sent + h.sent)
      else s
    else if t.stop then OnQuit(rx, part, t.kept, true)
    else if t.recv.None? then OnQuit(rx, part, t.kept, t.stopAfterRecv)
    else OnFrame(rx, part, t.recv.value, t.kept, t.short)
  }

  /** The whole loop. When the script of turns is used up, the connection has failed. */
  function ReceiveRun(c: Client, part: File, turns: seq<Turn>): Step
    decreases |turns|
  {
    if !c.Receiving? then Step(c, part, [])
    else if |turns| == 0 then OnQuit(c.rx, part, |c.rx.buffered|, false)
    else
      var s := TurnStep(c.rx, part, turns[0]);
      var rest := ReceiveRun(s.client, s.part, turns[1..]);
      rest.(sent := s.sent + rest.sent)
  }

  lemma ReceiveRunStops(c: Client, part: File, turns: seq<Turn>)
    requires !c.Receiving?
    ensures ReceiveRun(c, part, turns) == Step(c, part, [])
  {
  }

  lemma ReceiveRunTurns(c: Client, part: File, turns: seq<Turn>, k: nat)
    requires c.Receiving? && k <= |turns|
    ensures k == |turns| ==> ReceiveRun(c, part, turns[k..]) == OnQuit(c.rx, part, |c.rx.buffered|, false)
    ensures k < |turns| ==>
      var s := TurnStep(c.rx, part, turns[k]);
      var rest := ReceiveRun(s.client, s.part, turns[k + 1..]);
      ReceiveRun(c, part, turns[k..]) == rest.(sent := s.sent + rest.sent)
  {
    if k < |turns| {
      assert turns[k..][1..] == turns[k + 1..];
    }
  }

  /** What the disk does after the transfer, and whether the row of the version table gets written. */
  datatype Tail = Tail(flushOk: bool, kept: nat, readOk: bool, reportSent: bool, renameOk: bool, rowOk: bool)

  /** How the part of an attempt after the receive loop ends. */
  datatype Outcome = Outcome(result: AttemptResult, part: File, final: File, row: Option<string>, sent: seq<ClientMsg>)

  /** From the checked flush to the row of the version table, as the protocol steps it consists of. */
  function InstallRun(rx: Rx, part: File, final: File, row: Option<string>, t: Tail): Outcome {
    var f := OnFlush(rx, part, t.kept, t.flushOk);
    if f.client.Ended? then Outcome(f.client.result, f.part, final, row, f.sent)
    else
      var h := OnHash(rx.version, rx.digest, f.part, t.readOk, t.reportSent);
      if h.client.Ended? then Outcome(h.client.result, h.part, final, row, h.sent)
      else if !t.renameOk then Outcome(Fatal, h.part, final, row, [])
      else
        Outcome(if t.rowOk then Success else Fatal, None, h.part, if t.rowOk then Some(rx.version) else row,
                if t.reportSent then [Result(true)] else [])
  }

  class Download {
    const version: string
    const size: nat
    const digest: string
    var received: nat
    var buffered: seq<byte>
    var part: File
    var final: File
    var row: Option<string>
    var paused: bool
    var resumeRetry: bool

    /** Computes the resume offset and opens the file, to append or to truncate. */
    constructor (version: string, size: nat, digest: string, part: File, final: File, row: Option<string>)
      requires SemVer.Valid(version)
      ensures this.version == version && this.size == size && this.digest == digest
      ensures received == (if |Contents(part)| <= size then |Contents(part)| else 0) && buffered == []
      ensures this.part == Some(if |Contents(part)| <= size then Contents(part) else [])
      ensures OnOffer(version, size, digest, part, true, false, true) ==
              Step(Receiving(State()), this.part, [DownloadReq(received)])
      ensures this.final == final && this.row == row && !paused && !resumeRetry
    {
      this.version, this.size, this.digest := version, size, digest;
      this.final, this.row := final, row;
      var offset := |Contents(part)|;
      var file := part;
      if offset > size {
        file := None;
        offset := 0;
      }
      this.part := if offset > 0 then file else Some([]);
      received, buffered := offset, [];
      paused, resumeRetry := false, false;
    }

    function State(): Rx
      reads this
    {
      Rx(version, size, digest, received, buffered)
    }

    /** `fflush` or `fclose`, which moves the buffer, or the part of it that still fits, to the file. */
    method Flush(kept: nat)
      modifies this`part, this`buffered
      ensures part == Flushed(old(part), old(buffered), kept) && buffered == []
    {
      part := Flushed(part, buffered, kept);
      buffered := [];
    }

    /** `save_interrupted_download`. */
    method SaveInterrupted(kept: nat, result: AttemptResult)
      modifies this`part, this`buffered, this`paused, this`resumeRetry
      ensures part == Flushed(old(part), old(buffered), kept)
      ensures paused == (old(paused) || result == Paused)
      ensures resumeRetry == (old(resumeRetry) || result == Reconnect)
    {
      Flush(kept);
      if result == Paused {
        paused := true;
      } else if result == Reconnect {
        resumeRetry := true;
      }
    }

    /** The receive loop. No result means that TRANSFER_DONE was accepted. */
    method Receive(turns: seq<Turn>) returns (result: Option<AttemptResult>, sent: seq<ClientMsg>)
      modifies this`received, this`buffered, this`part, this`paused, this`resumeRetry
      ensures var run := ReceiveRun(Receiving(old(State())), old(part), turns);
        && part == run.part && sent == run.sent
        && (if result.Some? then run.client == Ended(result.value) else run.client == Flushing(State()))
      ensures paused == (old(paused) || result == Some(Paused))
      ensures resumeRetry == (old(resumeRetry) || result == Some(Reconnect) || result == Some(ResumeReconnect))
    {
      hide ReceiveRun, TurnStep;
      result, sent := None, [];
      var turn := 0;
      var done := false;
      ghost var goal := ReceiveRun(Receiving(State()), part, turns);
      assert turns[0..] == turns;
      while !done && result.None?
        invariant turn <= |turns|
        invariant ReceiveRun(Place(done, result), part, turns[turn..]).(sent := []) == goal.(sent := [])
        invariant goal.sent == sent + ReceiveRun(Place(done, result), part, turns[turn..]).sent
        invariant paused == (old(paused) || result == Some(Paused))
        invariant resumeRetry == (old(resumeRetry) || result == Some(Reconnect) || result == Some(ResumeReconnect))
        decreases |turns| - turn, !done && result.None?
      {
        ReceiveRunTurns(Receiving(State()), part, turns, turn);
        var more;
        if turn == |turns| {
          SaveInterrupted(|buffered|, Reconnect);
          result, more := Some(Reconnect), [];
        } else {
          done, result, more := OneTurn(turns[turn]);
          turn := turn + 1;
        }
        if done || result.Some? {
          ReceiveRunStops(Place(done, result), part, turns[turn..]);
        }
        sent := sent + more;
      }
      ReceiveRunStops(Place(done, result), part, turns[turn..]);
    }

    /** Where the attempt stands, by the local variables of the loop. */
    function Place(done: bool, result: Option<AttemptResult>): Client
      reads this
    {
      if result.Some? then Ended(result.value) else if done then Flushing(State()) else Receiving(State())
    }

    method OneTurn(t: Turn) returns (done: bool, result: Option<AttemptResult>, sent: seq<ClientMsg>)
      modifies this`received, this`buffered, this`part, this`paused, this`resumeRetry
      ensures TurnStep(old(State()), old(part), t) == Step(Place(done, result), part, sent)
      ensures paused == (old(paused) || result == Some(Paused))
      ensures resumeRetry == (old(resumeRetry) || result == Some(Reconnect) || result == Some(ResumeReconnect))
    {
      done, sent := false, [];
      if t.pauseClicked {
        result, sent := PauseAndWait(t);
      } else if t.stop {
        SaveInterrupted(t.kept, Paused);
        result := Some(Paused);
      } else if t.recv.None? {
        result := Some(if t.stopAfterRecv then Paused else Reconnect);
        SaveInterrupted(t.kept, result.value);
      } else {
        done, result := TakeFrame(t.recv.value, t);
      }
    }

    method PauseAndWait(t: Turn) returns (result: Option<AttemptResult>, sent: seq<ClientMsg>)
      requires t.pauseClicked
      modifies this`buffered, this`part, this`paused, this`resumeRetry
      ensures var step := TurnStep(old(State()), old(part), t);
        && part == step.part && sent == step.sent
        && (if result.Some? then step.client == Ended(result.value) else step.client == Receiving(State()))
      ensures paused == (old(paused) || result == Some(Paused))
      ensures resumeRetry == (old(resumeRetry) || result == Some(Reconnect) || result == Some(ResumeReconnect))
    {
      Flush(t.kept);
      sent := [];
      if !t.pauseSent {
        resumeRetry := true;
        return Some(Reconnect), sent;
      }
      sent := [Pause(received)];
      match t.hold {
        case ResumeSent =>
          sent := sent + [Resume];
          result := None;
        case ResumeFailed =>
          resumeRetry := true;
          result := Some(ResumeReconnect);
        case TimedOut =>
          paused := true;
          result := Some(Paused);
        case Stopped =>
          paused := true;
          result := Some(Paused);
      }
    }

    method TakeFrame(msg: ServerMsg, t: Turn) returns (done: bool, result: Option<AttemptResult>)
      modifies this`received, this`buffered, this`part
      ensures var step := OnFrame(old(State()), old(part), msg, t.kept, t.short);
        && part == step.part && step.sent == []
        && step.client == (if result.Some? then Ended(result.value)
                           else if done then Flushing(State()) else Receiving(State()))
      ensures result.Some? ==> result.value == Fatal || result.value == Retry
    {
      done, result := false, None;
      if msg.Data? {
        var n := |msg.bytes|;
        if received + n > size {
          part := None;
          return false, Some(Fatal);
        }
        buffered := buffered + msg.bytes;
        if n > 0 && t.short {
          Flush(t.kept);
          return false, Some(Retry);
        }
        received := received + n;
      } else if msg.Done? {
        if !Hex.EqualIgnoringCase(msg.digest, digest) {
          part := None;
          return false, Some(Retry);
        }
        done := true;
      } else {
        Flush(t.kept);
        result := Some(Retry);
      }
    }

    /** From the checked flush to the row of the version table. */
    method Install(t: Tail) returns (result: AttemptResult, sent: seq<ClientMsg>)
      modifies this`buffered, this`part, this`final, this`row, this`resumeRetry
      ensures var whole := old(Contents(part) + buffered);
        var verified := Hex.EqualIgnoringCase(HexDigest(whole), digest);
        var renamed := t.flushOk && t.readOk && verified && t.renameOk;
        && final == (if renamed then Some(whole) else old(final))
        && (renamed ==> part == None)
        && (result == Success <==> renamed && t.rowOk)
        && (renamed && !t.rowOk ==> result == Fatal)
        && (t.flushOk && !(t.readOk && verified) ==> part == None && result == Retry)
        && (!t.flushOk ==> part == Flushed(old(part), old(buffered), t.kept) && result == Retry)
        && (t.flushOk && t.readOk && verified && !t.renameOk ==> part == Some(whole) && result == Fatal)
        && (Result(true) in sent ==> renamed)
      ensures row == if result == Success then Some(version) else old(row)
      ensures Outcome(result, part, final, row, sent) == InstallRun(old(State()), old(part), old(final), old(row), t)
      ensures resumeRetry == (old(resumeRetry) && result != Success)
    {
      hide HexDigest, Hex.EqualIgnoringCase;
      sent := [];
      if !t.flushOk {
        Flush(t.kept);
        return Retry, sent;
      }
      Flush(|buffered|);
      if !t.readOk || !Hex.EqualIgnoringCase(HexDigest(Contents(part)), digest) {
        if t.reportSent {
          sent := [Result(false)];
        }
        part := None;
        return Retry, sent;
      }
      if !t.renameOk {
        return Fatal, sent;
      }
      final := part;
      part := None;
      if t.reportSent {
        sent := [Result(true)];
      }
      if !t.rowOk {
        return Fatal, sent;
      }
      row := Some(version);
      resumeRetry := false;
      result := Success;
    }
  }
}
