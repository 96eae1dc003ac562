/**
 The sending half of a transfer: `pkg_stream_file` and `handle_pause_if_requested` of
 src/server/package_service.c, between the session steps of src/server/worker.c.
 */
module PackageService {
  import opened Prelude
  import opened Messages

  /** One open stream: the snapshot, the size that `stat` reported, and the bytes read so far. */
  datatype Stream = Stream(manifest: Manifest, size: nat, sent: nat)

  /**
   Where a session thread stands. `Polling` is the head of the streaming loop, `Holding` waits for
   RESUME, `Sending` is past the pause check, `Finishing` is past the loop.
   */
  datatype Server =
    | AwaitVersion
    | AwaitDownload(manifest: Manifest)
    | Polling(stream: Stream)
    | Holding(stream: Stream)
    | Sending(stream: Stream)
    | Finishing(manifest: Manifest)
    | AwaitResult(manifest: Manifest)
    | Closed

  predicate Streaming(s: Server) { s.Polling? || s.Holding? || s.Sending? }

  /** Entering `pkg_stream_file`. */
  function Open(m: Manifest, size: nat, offset: nat): Server {
    if offset > size then Closed
    else Advance(Stream(m, size, offset))
  }

  /** The loop guard. */
  function Advance(st: Stream): Server {
    if st.sent < st.size then Polling(st) else Finishing(st.manifest)
  }

  /** A control message read while streaming or holding. */
  function OnControl(s: Server, msg: ClientMsg): Server
    requires s.Polling? || s.Holding?
  {
    if s.Polling? && msg.Pause? then Holding(s.stream)
    else if s.Holding? && msg.Resume? then Sending(s.stream)
    else Closed
  }

  function Want(st: Stream, chunk: nat): nat
    requires st.sent <= st.size
  {
    if st.size - st.sent < chunk then st.size - st.sent else chunk
  }

  /** A chunk that was read and sent; a short read with an error ends the stream after sending. */
  function OnChunk(st: Stream, data: seq<byte>, readError: bool): (next: (Server, ServerMsg)) {
    var after := st.(sent := st.sent + |data|);
    (if readError then Closed else Advance(after), Data(data, after.sent == st.size))
  }

  /** What `recv_control_if_ready` returns. */
  datatype Ready = Nothing | Failed | Got(msg: ClientMsg)

  /** What the outside world does during one turn of the loop. */
  datatype Turn = Turn(poll: Ready, hold: Ready, data: seq<byte>, readError: bool, sendOk: bool)

  /** `handle_pause_if_requested`: the server state in which the turn goes on, or `Closed`. */
  function AfterPoll(st: Stream, t: Turn): Server {
    match t.poll
    case Nothing => Sending(st)
    case Failed => Closed
    case Got(msg) =>
      var s := OnControl(Polling(st), msg);
      if s.Holding? then (if t.hold.Got? then OnControl(s, t.hold.msg) else Closed) else s
  }

  /** One turn of the streaming loop, as the protocol steps it consists of. */
  function TurnStep(st: Stream, t: Turn, chunk: nat): (next: (Server, seq<ServerMsg>))
    requires st.sent <= st.size
    ensures next.0.Polling? ==> st.sent < next.0.stream.sent < next.0.stream.size == st.size
  {
    var want := Want(st, chunk);
    var data := if |t.data| < want then t.data else t.data[..want];
    if !AfterPoll(st, t).Sending? || |data| == 0 || !t.sendOk then (Closed, [])
    else
      var (s, frame) := OnChunk(st, data, |data| < want && t.readError);
      (s, [frame])
  }

  /** The whole loop. When the script of turns is used up, the connection or the disk has failed. */
  function StreamRun(s: Server, turns: seq<Turn>, chunk: nat): (final: (Server, seq<ServerMsg>))
    requires s.Polling? ==> s.stream.sent <= s.stream.size
    decreases |turns|
  {
    if !s.Polling? then (s, [])
    else if |turns| == 0 then (Closed, [])
    else
      var (next, frames) := TurnStep(s.stream, turns[0], chunk);
      var rest := StreamRun(next, turns[1..], chunk);
      (rest.0, frames + rest.1)
  }

  /** `handle_pause_if_requested`. */
  method HandlePauseIfRequested(st: Stream, t: Turn) returns (rc: int)
    ensures rc == 0 <==> t.poll.Nothing? || (t.poll.Got? && t.poll.msg.Pause? && t.hold.Got? && t.hold.msg.Resume?)
    ensures rc == 0 <==> AfterPoll(st, t).Sending?
  {
    match t.poll
    case Nothing => return 0;
    case Failed => return -1;
    case Got(msg) =>
      if !msg.Pause? {
        return -1;
      }
      match t.hold {
        case Nothing => return -1;
        case Failed => return -1;
        case Got(answer) =>
          if !answer.Resume? {
            return -1;
          }
          return 0;
      }
  }

  lemma StreamRunStops(s: Server, turns: seq<Turn>, chunk: nat)
    requires !s.Polling?
    ensures StreamRun(s, turns, chunk) == (s, [])
  {
  }

  lemma StreamRunTurns(s: Server, turns: seq<Turn>, chunk: nat, k: nat)
    requires s.Polling? && s.stream.sent <= s.stream.size && k < |turns|
    ensures var (next, frames) := TurnStep(s.stream, turns[k], chunk);
      var rest := StreamRun(next, turns[k + 1..], chunk);
      StreamRun(s, turns[k..], chunk) == (rest.0, frames + rest.1)
  {
    assert turns[k..][1..] == turns[k + 1..];
  }

  /** `pkg_stream_file`: it sends what the protocol steps say, and counts the bytes it sent. */
  method PkgStreamFile(m: Manifest, size: nat, offset: nat, chunk: nat, turns: seq<Turn>)
    returns (rc: int, frames: seq<ServerMsg>, bytesSent: nat)
    ensures offset > size || !(MIN_CHUNK_SIZE <= chunk <= MAX_CHUNK_SIZE) ==> rc == -1 && frames == []
    ensures offset <= size && MIN_CHUNK_SIZE <= chunk <= MAX_CHUNK_SIZE ==>
      var final := StreamRun(Open(m, size, offset), turns, chunk);
      frames == final.1 && (rc == 0 <==> final.0 == Finishing(m))
    ensures bytesSent == |Payload(frames)|
  {
    hide StreamRun, Payload, AfterPoll;
    frames, bytesSent := [], 0;
    PayloadNone();
    if offset > size || chunk < MIN_CHUNK_SIZE || chunk > MAX_CHUNK_SIZE {
      return -1, [], 0;
    }
    var sent := offset;
    rc := 0;
    var turn := 0;
    ghost var goal := StreamRun(Open(m, size, offset), turns, chunk);
    ghost var at := Open(m, size, offset);
    assert turns[0..] == turns;
    while rc == 0 && sent < size
      invariant offset <= sent <= size && turn <= |turns|
      invariant rc == 0 || rc == -1
      invariant at == if rc == 0 then Advance(Stream(m, size, sent)) else Closed
      invariant var rest := StreamRun(at, turns[turn..], chunk);
        goal.0 == rest.0 && goal.1 == frames + rest.1
      invariant bytesSent == |Payload(frames)|
      decreases |turns| - turn, rc
    {
      if turn == |turns| {
        StreamRunEnds(at, turns[turn..], chunk);
        at := Closed;
        StreamRunStops(at, turns[turn..], chunk);
        rc := -1;
      } else {
        var t := turns[turn];
        ghost var (next, out) := TurnStep(at.stream, t, chunk);
        StreamRunTurns(at, turns, chunk, turn);
        at := next;
        turn := turn + 1;
        rc := HandlePauseIfRequested(Stream(m, size, sent), t);
        if rc != 0 {
          rc := -1;
        } else {
          var remaining := size - sent;
          var want := if remaining < chunk then remaining else chunk;
          var data := if |t.data| < want then t.data else t.data[..want];
          var n := |data|;
          if n == 0 || !t.sendOk {
            rc := -1;
          } else {
            sent := sent + n;
            var frame := Data(data, sent == size);
            assert out == [frame];
            PayloadSnoc(frames, frame);
            frames := frames + [frame];
            bytesSent := bytesSent + n;
            if n < want && t.readError {
              rc := -1;
            }
          }
        }
      }
    }
    StreamRunStops(at, turns[turn..], chunk);
  }

  lemma StreamRunEnds(s: Server, turns: seq<Turn>, chunk: nat)
    requires s.Polling? && s.stream.sent <= s.stream.size && |turns| == 0
    ensures StreamRun(s, turns, chunk) == (Closed, [])
  {
  }

  /** The script reads the file `file` truthfully from the position of the stream onwards. */
  ghost predicate ReadsFile(file: seq<byte>, s: Server, turns: seq<Turn>, chunk: nat)
    requires s.Polling? ==> s.stream.sent <= s.stream.size
    decreases |turns|
  {
    s.Polling? && |turns| > 0 ==>
      && s.stream.size == |file|
      && IsPrefix(turns[0].data, file[s.stream.sent..])
      && ReadsFile(file, TurnStep(s.stream, turns[0], chunk).0, turns[1..], chunk)
  }

  /** Every read is as long as it was asked to be. */
  ghost predicate FullReads(s: Server, turns: seq<Turn>, chunk: nat)
    requires s.Polling? ==> s.stream.sent <= s.stream.size
    decreases |turns|
  {
    s.Polling? && |turns| > 0 ==>
      && |turns[0].data| >= Want(s.stream, chunk)
      && FullReads(TurnStep(s.stream, turns[0], chunk).0, turns[1..], chunk)
  }

  /** The frames carry the file from the offset, without gap or overlap; a finished stream carries all of it. */
  lemma {:induction false} StreamCarriesFile(file: seq<byte>, s: Server, turns: seq<Turn>, chunk: nat)
    requires s.Polling? && s.stream.sent <= s.stream.size == |file|
    requires ReadsFile(file, s, turns, chunk)
    ensures var (final, frames) := StreamRun(s, turns, chunk);
      && IsPrefix(Payload(frames), file[s.stream.sent..])
      && (final.Finishing? ==> Payload(frames) == file[s.stream.sent..])
    decreases |turns|
  {
    hide Payload, AfterPoll, OnChunk, Want;
    PayloadNone();
    if |turns| > 0 {
      var (next, frames) := TurnStep(s.stream, turns[0], chunk);
      var rest := StreamRun(next, turns[1..], chunk);
      PayloadAppend(frames, rest.1);
      if |frames| > 0 {
        TurnCarriesFile(file, s.stream, turns[0], chunk);
        var data := Payload(frames);
        var tail := file[s.stream.sent + |data|..];
        if next.Polling? {
          StreamCarriesFile(file, next, turns[1..], chunk);
        }
        PrefixJoin(data, Payload(rest.1), tail);
      }
    }
  }

  lemma PrefixJoin<T>(head: seq<T>, s: seq<T>, t: seq<T>)
    requires IsPrefix(s, t)
    ensures IsPrefix(head + s, head + t)
  {
  }

  lemma TurnCarriesFile(file: seq<byte>, st: Stream, t: Turn, chunk: nat)
    requires st.sent <= st.size == |file| && IsPrefix(t.data, file[st.sent..])
    requires |TurnStep(st, t, chunk).1| > 0
    ensures var (next, frames) := TurnStep(st, t, chunk);
      var data := Payload(frames);
      && st.sent + |data| <= st.size && data == file[st.sent..st.sent + |data|]
      && file[st.sent..] == data + file[st.sent + |data|..]
      && (next.Polling? ==> next.stream == st.(sent := st.sent + |data|))
      && (next.Finishing? ==> st.sent + |data| == st.size)
  {
    var (next, frames) := TurnStep(st, t, chunk);
    PayloadOne(frames[0]);
    assert frames == [frames[0]];
    var data := frames[0].bytes;
    assert data == t.data[..|data|];
    assert data == file[st.sent..][..|data|] == file[st.sent..st.sent + |data|];
  }

  /** Only a frame that completes the file has the LAST flag, and no frame is empty or above the chunk size. */
  lemma {:induction false} FramesWellFormed(s: Server, turns: seq<Turn>, chunk: nat, i: nat)
    requires s.Polling? && s.stream.sent <= s.stream.size
    requires i < |StreamRun(s, turns, chunk).1|
    ensures var frames := StreamRun(s, turns, chunk).1;
      && frames[i].Data? && 0 < |frames[i].bytes| <= chunk
      && (frames[i].last <==> s.stream.sent + |Payload(frames[..i + 1])| == s.stream.size)
      && (frames[i].last ==> i == |frames| - 1)
    decreases |turns|
  {
    var (next, first) := TurnStep(s.stream, turns[0], chunk);
    var rest := StreamRun(next, turns[1..], chunk);
    var frames := first + rest.1;
    assert first == [frames[0]];
    if i == 0 {
      assert frames[..1] == [frames[0]];
      PayloadOne(frames[0]);
    } else {
      FramesWellFormed(next, turns[1..], chunk, i - 1);
      assert frames[..i + 1] == [frames[0]] + rest.1[..i];
      PayloadAppend([frames[0]], rest.1[..i]);
      PayloadOne(frames[0]);
    }
  }

  /** With full reads a finished stream is exactly ceil((size - offset) / chunk) frames. */
  lemma {:induction false} FrameCount(s: Server, turns: seq<Turn>, chunk: nat)
    requires s.Polling? && s.stream.sent < s.stream.size && 0 < chunk
    requires FullReads(s, turns, chunk) && StreamRun(s, turns, chunk).0.Finishing?
    ensures |StreamRun(s, turns, chunk).1| == (s.stream.size - s.stream.sent + chunk - 1) / chunk
    decreases |turns|
  {
    var st := s.stream;
    var left := st.size - st.sent;
    var (next, first) := TurnStep(st, turns[0], chunk);
    assert |first| == 1;
    if left > chunk {
      assert next.stream.sent == st.sent + chunk;
      FrameCount(next, turns[1..], chunk);
      CeilStep(left, chunk);
    } else {
      assert next.Finishing?;
      CeilOne(left, chunk);
    }
  }

  lemma QuotientIs(x: int, d: int, q: int, r: int)
    requires 0 <= r < d && x == d * q + r
    ensures x / d == q
  {
    var q', r' := x / d, x % d;
    assert x == d * q' + r';
    assert q' > q ==> d * q' >= d * (q + 1);
    assert q' < q ==> d * q >= d * (q' + 1);
  }

  lemma CeilStep(left: nat, chunk: nat)
    requires 0 < chunk < left
    ensures (left + chunk - 1) / chunk == 1 + (left - chunk + chunk - 1) / chunk
  {
    var q, r := (left - 1) / chunk, (left - 1) % chunk;
    assert left - 1 == chunk * q + r;
    assert left + chunk - 1 == chunk * (q + 1) + r;
    QuotientIs(left + chunk - 1, chunk, q + 1, r);
  }

  lemma CeilOne(left: nat, chunk: nat)
    requires 0 < left <= chunk
    ensures (left + chunk - 1) / chunk == 1
  {
    QuotientIs(left + chunk - 1, chunk, 1, left - 1);
  }
}
