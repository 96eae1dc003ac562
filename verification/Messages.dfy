/** The messages of one update session, after framing and payload parsing. */
module Messages {
  import opened Prelude

  const MIN_CHUNK_SIZE := 4096
  const MAX_CHUNK_SIZE := 0x10_0000

  /** The fields of the server's manifest snapshot that a session uses. */
  datatype Manifest = Manifest(version: string, size: nat, digest: string)

  /** Server to client. `Fault` is MSG_ERROR. */
  datatype ServerMsg =
    | Offer(version: string, size: nat, digest: string)
    | UpToDate(latest: string)
    | Data(bytes: seq<byte>, last: bool)
    | Done(digest: string)
    | Fault
    | Bye

  /** Client to server. */
  datatype ClientMsg =
    | VersionReq(current: string)
    | DownloadReq(offset: nat)
    | Pause(offset: nat)
    | Resume
    | Result(ok: bool)

  /** The package bytes that a list of frames carries. */
  function Payload(frames: seq<ServerMsg>): (bytes: seq<byte>) {
    if |frames| == 0 then []
    else (if frames[0].Data? then frames[0].bytes else []) + Payload(frames[1..])
  }

  lemma {:induction false} PayloadAppend(xs: seq<ServerMsg>, ys: seq<ServerMsg>)
    ensures Payload(xs + ys) == Payload(xs) + Payload(ys)
  {
    if |xs| == 0 {
      assert xs + ys == ys;
    } else {
      PayloadAppend(xs[1..], ys);
      assert (xs + ys)[1..] == xs[1..] + ys;
      var (x, rest, tail) := (if xs[0].Data? then xs[0].bytes else [], Payload(xs[1..]), Payload(ys));
      assert x + (rest + tail) == (x + rest) + tail;
    }
  }

  lemma PayloadSnoc(xs: seq<ServerMsg>, y: ServerMsg)
    ensures Payload(xs + [y]) == Payload(xs) + (if y.Data? then y.bytes else [])
  {
    PayloadAppend(xs, [y]);
    assert Payload([y][1..]) == [];
  }

  lemma PayloadNone()
    ensures Payload([]) == []
  {
  }

  lemma PayloadOne(x: ServerMsg)
    ensures Payload([x]) == if x.Data? then x.bytes else []
  {
    assert Payload([x][1..]) == [];
  }
}
