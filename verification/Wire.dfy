/**
 Frames on a byte stream that the transport cuts as it likes: src/common/protocol.c over
 src/common/netutil.c.
 */
module Wire {
  import opened Prelude

  const MSG_DATA: byte := 8
  const MAX_CONTROL_PAYLOAD := 1024
  const FRAME_HEADER_SIZE := 12
  /** The longest single read or write. */
  const MAX_IO := 0x3fffffff

  datatype Frame = Frame(kind: byte, flags: byte, payload: seq<byte>)

  // ---- The format ----

  /** The low 32 bits of `v`, most significant byte first. */
  function PutU32(v: nat): (b: seq<byte>)
    ensures |b| == 4
  {
    [(v / 0x100_0000 % 256) as byte, (v / 0x1_0000 % 256) as byte, (v / 0x100 % 256) as byte, (v % 256) as byte]
  }

  function GetU32(b: seq<byte>): (v: nat)
    requires |b| == 4
    ensures v < 0x1_0000_0000
  {
    b[0] as nat * 0x100_0000 + b[1] as nat * 0x1_0000 + b[2] as nat * 0x100 + b[3] as nat
  }

  lemma GetOfPut(v: nat)
    requires v < 0x1_0000_0000
    ensures GetU32(PutU32(v)) == v
  {
    var (v1, v2, v3) := (v / 0x100, v / 0x1_0000, v / 0x100_0000);
    assert v2 == v1 / 0x100 && v3 == v2 / 0x100 && v3 < 0x100;
    assert v == v1 * 0x100 + v % 0x100 && v1 == v2 * 0x100 + v1 % 0x100 && v2 == v3 * 0x100 + v2 % 0x100;
  }

  lemma LowDigit(high: nat, low: nat)
    requires low < 0x100
    ensures (high * 0x100 + low) / 0x100 == high && (high * 0x100 + low) % 0x100 == low
  {
  }

  lemma PutOfGet(b: seq<byte>)
    requires |b| == 4
    ensures PutU32(GetU32(b)) == b
  {
    var (b0, b1, b2, b3) := (b[0] as nat, b[1] as nat, b[2] as nat, b[3] as nat);
    var w1 := b0 * 0x100 + b1;
    var w2 := w1 * 0x100 + b2;
    assert GetU32(b) == w2 * 0x100 + b3;
    PutDigits(b0, b1, b2, b3);
  }

  lemma PutDigits(b0: nat, b1: nat, b2: nat, b3: nat)
    requires b0 < 0x100 && b1 < 0x100 && b2 < 0x100 && b3 < 0x100
    ensures PutU32(((b0 * 0x100 + b1) * 0x100 + b2) * 0x100 + b3) == [b0 as byte, b1 as byte, b2 as byte, b3 as byte]
  {
    var w1 := b0 * 0x100 + b1;
    var w2 := w1 * 0x100 + b2;
    var w3 := w2 * 0x100 + b3;
    LowDigit(w2, b3);
    LowDigit(w1, b2);
    LowDigit(b0, b1);
    assert w3 / 0x1_0000 == w3 / 0x100 / 0x100 && w3 / 0x100_0000 == w3 / 0x100 / 0x100 / 0x100;
  }

  function Header(f: Frame): (h: seq<byte>)
    ensures |h| == FRAME_HEADER_SIZE
  {
    [0x55, 0x50, 0x44, 0x54, 1, f.kind, f.flags, 0] + PutU32(|f.payload|)
  }

  function Encode(f: Frame): seq<byte> {
    Header(f) + f.payload
  }

  /** The magic bytes, the protocol version and the reserved byte. */
  predicate GoodHeader(h: seq<byte>)
    requires |h| == FRAME_HEADER_SIZE
  {
    h[0] == 0x55 && h[1] == 0x50 && h[2] == 0x44 && h[3] == 0x54 && h[4] == 1 && h[7] == 0
  }

  /** The limits of one call of `proto_recv`: the buffer, and what a DATA frame may carry. */
  predicate Allowed(kind: byte, len: nat, cap: nat, dataCap: nat) {
    len <= cap && (if kind == MSG_DATA then len <= dataCap else len <= MAX_CONTROL_PAYLOAD)
  }

  predicate WithinCaps(f: Frame, cap: nat, dataCap: nat) {
    |f.payload| < 0x1_0000_0000 && Allowed(f.kind, |f.payload|, cap, dataCap)
  }

  lemma HeaderFields(f: Frame)
    requires |f.payload| < 0x1_0000_0000
    ensures var h := Header(f);
      GoodHeader(h) && h[5] == f.kind && h[6] == f.flags && GetU32(h[8..]) == |f.payload|
  {
    assert Header(f)[8..] == PutU32(|f.payload|);
    GetOfPut(|f.payload|);
  }

  /** A good header is the header of the frame it announces. */
  lemma HeaderIsUnique(h: seq<byte>, payload: seq<byte>)
    requires |h| == FRAME_HEADER_SIZE && GoodHeader(h) && |payload| == GetU32(h[8..])
    ensures Header(Frame(h[5], h[6], payload)) == h
  {
    PutOfGet(h[8..]);
    assert h == h[..8] + h[8..];
    assert h[..8] == [0x55, 0x50, 0x44, 0x54, 1, h[5], h[6], 0];
  }

  /** A DATA frame with the LAST flag and two bytes, as it goes over the wire. */
  lemma EncodingExample()
    ensures Encode(Frame(8, 1, [0xaa, 0xbb])) == [0x55, 0x50, 0x44, 0x54, 1, 8, 1, 0, 0, 0, 0, 2, 0xaa, 0xbb]
    ensures PutU32(0x01020304) == [1, 2, 3, 4] && GetU32([1, 2, 3, 4]) == 0x01020304
  {
    assert PutU32(2) == [0, 0, 0, 2];
  }

  // ---- The transport ----

  /** One call of `recv` or `send`: try again, fail, or move up to `n` bytes. */
  datatype Io = Interrupted | Broken | Moved(n: nat)

  /** How much one call moves: at least one byte, at most what is asked for and there. */
  function Amount(n: nat, len: nat, there: nat): (k: nat)
    requires len > 0 && there > 0
    ensures 1 <= k <= len && k <= there
  {
    var most := if len < MAX_IO then len else MAX_IO;
    var bound := if there < most then there else most;
    if n < 1 then 1 else if n > bound then bound else n
  }

  /** What a read of `len` bytes returns, and what it leaves of the stream and of the script. */
  datatype Read = Read(data: Option<seq<byte>>, rest: seq<byte>, script: seq<Io>)

  /** `conn_read_all`. When the script is used up, the receive timeout strikes. */
  function ReadAll(stream: seq<byte>, script: seq<Io>, len: nat): Read
    decreases |script|
  {
    if len == 0 then Read(Some([]), stream, script)
    else if |script| == 0 then Read(None, stream, [])
    else
      match script[0]
      case Interrupted => ReadAll(stream, script[1..], len)
      case Broken => Read(None, stream, script[1..])
      case Moved(n) =>
        if |stream| == 0 then Read(None, stream, script[1..])
        else
          var k := Amount(n, len, |stream|);
          var r := ReadAll(stream[k..], script[1..], len - k);
          if r.data.Some? then r.(data := Some(stream[..k] + r.data.value)) else r
  }

  /** A read that succeeds returns exactly the next bytes of the stream. */
  lemma {:induction false} ReadIsExact(stream: seq<byte>, script: seq<Io>, len: nat)
    ensures var r := ReadAll(stream, script, len);
      r.data.Some? ==> |r.data.value| == len && r.data.value + r.rest == stream
    decreases |script|
  {
    hide Amount;
    if len > 0 && |script| > 0 {
      match script[0]
      case Interrupted => ReadIsExact(stream, script[1..], len);
      case Broken =>
      case Moved(n) =>
        if |stream| > 0 {
          var k := Amount(n, len, |stream|);
          ReadIsExact(stream[k..], script[1..], len - k);
          var r := ReadAll(stream[k..], script[1..], len - k);
          if r.data.Some? {
            assert (stream[..k] + r.data.value) + r.rest == stream[..k] + (r.data.value + r.rest);
            assert stream[..k] + stream[k..] == stream;
          }
        }
    }
  }

  function MovesIn(script: seq<Io>): nat {
    if |script| == 0 then 0 else (if script[0].Moved? then 1 else 0) + MovesIn(script[1..])
  }

  /** The connection holds for at least `need` more calls that move something. */
  ghost predicate Healthy(script: seq<Io>, need: nat) {
    (forall i | 0 <= i < |script| :: !script[i].Broken?) && MovesIn(script) >= need
  }

  /** On a healthy connection a read succeeds as soon as the bytes are there, however they are cut. */
  lemma {:induction false} HealthyRead(stream: seq<byte>, script: seq<Io>, len: nat, need: nat)
    requires len <= |stream| && Healthy(script, len + need)
    ensures var r := ReadAll(stream, script, len);
      r.data == Some(stream[..len]) && r.rest == stream[len..] && Healthy(r.script, need)
    decreases |script|
  {
    hide Amount;
    if len > 0 {
      var tail := script[1..];
      assert forall i | 0 <= i < |tail| :: tail[i] == script[i + 1];
      match script[0]
      case Interrupted => HealthyRead(stream, tail, len, need);
      case Broken =>
      case Moved(n) =>
        var k := Amount(n, len, |stream|);
        HealthyRead(stream[k..], tail, len - k, need + k - 1);
        assert stream[..k] + stream[k..][..len - k] == stream[..len];
        assert stream[k..][len - k..] == stream[len..];
    }
  }

  // ---- Receiving frames ----

  datatype Received = Ok(frame: Frame) | Eof | Bad | TooLarge

  datatype Reception = Reception(result: Received, rest: seq<byte>, script: seq<Io>)

  /** `proto_recv`. */
  function ProtoRecv(stream: seq<byte>, script: seq<Io>, cap: nat, dataCap: nat): Reception {
    var h := ReadAll(stream, script, FRAME_HEADER_SIZE);
    if h.data.None? then Reception(Eof, h.rest, h.script)
    else
      ReadIsExact(stream, script, FRAME_HEADER_SIZE);
      AfterHeader(h.data.value, h.rest, h.script, cap, dataCap)
  }

  function AfterHeader(h: seq<byte>, stream: seq<byte>, script: seq<Io>, cap: nat, dataCap: nat): Reception
    requires |h| == FRAME_HEADER_SIZE
  {
    if !GoodHeader(h) then Reception(Bad, stream, script)
    else
      var len := GetU32(h[8..]);
      if !Allowed(h[5], len, cap, dataCap) then Reception(TooLarge, stream, script)
      else
        var p := ReadAll(stream, script, len);
        if p.data.None? then Reception(Eof, p.rest, p.script)
        else Reception(Ok(Frame(h[5], h[6], p.data.value)), p.rest, p.script)
  }

  /** Every accepted byte string is the encoding of the frame returned, which is within the caps. */
  lemma AcceptedIsEncoding(stream: seq<byte>, script: seq<Io>, cap: nat, dataCap: nat)
    requires ProtoRecv(stream, script, cap, dataCap).result.Ok?
    ensures var r := ProtoRecv(stream, script, cap, dataCap);
      && WithinCaps(r.result.frame, cap, dataCap)
      && Encode(r.result.frame) + r.rest == stream
  {
    hide ReadAll, GetU32, PutU32, Allowed;
    ReadIsExact(stream, script, FRAME_HEADER_SIZE);
    var h := ReadAll(stream, script, FRAME_HEADER_SIZE);
    var len := GetU32(h.data.value[8..]);
    ReadIsExact(h.rest, h.script, len);
    var p := ReadAll(h.rest, h.script, len);
    HeaderIsUnique(h.data.value, p.data.value);
    assert (h.data.value + p.data.value) + p.rest == h.data.value + (p.data.value + p.rest);
  }

  lemma Accepted(stream: seq<byte>, script: seq<Io>, cap: nat, dataCap: nat)
    ensures var r := ProtoRecv(stream, script, cap, dataCap);
      r.result.Ok? ==>
        var f := r.result.frame;
        && Encode(f) + r.rest == stream && |f.payload| <= cap
        && (if f.kind == 8 then |f.payload| <= dataCap else |f.payload| <= 1024)
  {
    hide ProtoRecv;
    if ProtoRecv(stream, script, cap, dataCap).result.Ok? {
      AcceptedIsEncoding(stream, script, cap, dataCap);
    }
  }

  /** One frame, on a healthy connection: it arrives, and what follows it stays in the stream. */
  lemma FrameArrives(f: Frame, tail: seq<byte>, script: seq<Io>, cap: nat, dataCap: nat, need: nat)
    requires WithinCaps(f, cap, dataCap) && Healthy(script, |Encode(f)| + need)
    ensures var r := ProtoRecv(Encode(f) + tail, script, cap, dataCap);
      r.result == Ok(f) && r.rest == tail && Healthy(r.script, need)
  {
    hide ReadAll, GetU32, PutU32, Allowed, Healthy;
    var stream := Encode(f) + tail;
    assert stream == Header(f) + (f.payload + tail);
    HealthyRead(stream, script, FRAME_HEADER_SIZE, |f.payload| + need);
    var h := ReadAll(stream, script, FRAME_HEADER_SIZE);
    assert h.data == Some(Header(f)) && h.rest == f.payload + tail;
    HeaderFields(f);
    HealthyRead(h.rest, h.script, |f.payload|, need);
  }

  /** What is refused: a foreign header, and a length above the buffer, or above the limit for its kind of frame. */
  lemma Refusals(h: seq<byte>, tail: seq<byte>, script: seq<Io>, cap: nat, dataCap: nat)
    requires |h| == 12 && Healthy(script, 12)
    ensures var (result, len) := (ProtoRecv(h + tail, script, cap, dataCap).result, GetU32(h[8..]));
      && (result == Bad <==> h[..5] != [0x55, 0x50, 0x44, 0x54, 1] || h[7] != 0)
      && (result == TooLarge <==> result != Bad && (len > cap || (if h[5] == 8 then len > dataCap else len > 1024)))
  {
    hide ReadAll, GetU32, Healthy;
    HealthyRead(h + tail, script, 12, 0);
    assert (h + tail)[..12] == h;
  }

  function EncodeAll(frames: seq<Frame>): seq<byte> {
    if |frames| == 0 then [] else Encode(frames[0]) + EncodeAll(frames[1..])
  }

  /** One call of `proto_recv` for each pair of limits; no result when one of them fails. */
  function RecvMany(stream: seq<byte>, script: seq<Io>, caps: seq<(nat, nat)>): Option<(seq<Frame>, seq<byte>)>
    decreases |caps|
  {
    if |caps| == 0 then Some(([], stream))
    else
      var r := ProtoRecv(stream, script, caps[0].0, caps[0].1);
      if !r.result.Ok? then None
      else
        var more := RecvMany(r.rest, r.script, caps[1..]);
        if more.None? then None else Some(([r.result.frame] + more.value.0, more.value.1))
  }

  /** Each frame is within the limits of the call that receives it. */
  predicate AllWithin(frames: seq<Frame>, caps: seq<(nat, nat)>) {
    |frames| == |caps| && forall i | 0 <= i < |frames| :: WithinCaps(frames[i], caps[i].0, caps[i].1)
  }

  /** Framing: whatever the fragmentation, exactly the list of frames arrives and the rest stays untouched. */
  lemma {:induction false} FramesArrive(frames: seq<Frame>, tail: seq<byte>, script: seq<Io>, caps: seq<(nat, nat)>)
    requires AllWithin(frames, caps) && Healthy(script, |EncodeAll(frames)|)
    ensures RecvMany(EncodeAll(frames) + tail, script, caps) == Some((frames, tail))
  {
    if |frames| == 0 {
      assert EncodeAll(frames) + tail == tail;
    } else {
      hide ProtoRecv, Healthy, Encode, WithinCaps;
      var f, more := frames[0], frames[1..];
      var (cap, dataCap) := caps[0];
      assert EncodeAll(frames) + tail == Encode(f) + (EncodeAll(more) + tail);
      FrameArrives(f, EncodeAll(more) + tail, script, cap, dataCap, |EncodeAll(more)|);
      var r := ProtoRecv(Encode(f) + (EncodeAll(more) + tail), script, cap, dataCap);
      FramesArrive(more, tail, r.script, caps[1..]);
      assert [f] + more == frames;
    }
  }

  /** Conversely, whatever arrives is what was sent: a list of frames has only one reading. */
  lemma {:induction false} ReceivedIsEncoded(stream: seq<byte>, script: seq<Io>, caps: seq<(nat, nat)>)
    requires RecvMany(stream, script, caps).Some?
    ensures var (frames, rest) := RecvMany(stream, script, caps).value;
      AllWithin(frames, caps) && EncodeAll(frames) + rest == stream
    decreases |caps|
  {
    if |caps| > 0 {
      hide ProtoRecv, Encode, WithinCaps;
      AcceptedIsEncoding(stream, script, caps[0].0, caps[0].1);
      var r := ProtoRecv(stream, script, caps[0].0, caps[0].1);
      ReceivedIsEncoded(r.rest, r.script, caps[1..]);
      var (more, rest) := RecvMany(r.rest, r.script, caps[1..]).value;
      var frames := [r.result.frame] + more;
      assert frames[1..] == more;
      assert Encode(r.result.frame) + (EncodeAll(more) + rest) == (Encode(r.result.frame) + EncodeAll(more)) + rest;
    }
  }

  // ---- The code ----

  /** A connection: the bytes still to come, the bytes sent, and what the calls to the system will do. */
  class Conn {
    var incoming: seq<byte>
    var outgoing: seq<byte>
    var script: seq<Io>

    constructor (incoming: seq<byte>, script: seq<Io>)
      ensures this.incoming == incoming && outgoing == [] && this.script == script
    {
      this.incoming, this.outgoing, this.script := incoming, [], script;
    }

    /** `conn_read_all`: a loop over partial reads. */
    method ReadExactly(size: nat) returns (data: Option<seq<byte>>)
      modifies this`incoming, this`script
      ensures Read(data, incoming, script) == ReadAll(old(incoming), old(script), size)
    {
      var len: nat := size;
      var got: seq<byte> := [];
      ghost var goal := ReadAll(incoming, script, size);
      assert goal.data.Some? ==> got + goal.data.value == goal.data.value;
      while len > 0
        invariant goal == Prefixed(got, ReadAll(incoming, script, len))
        decreases |script|
      {
        if |script| == 0 {
          return None;
        }
        var io := script[0];
        script := script[1..];
        match io {
          case Interrupted =>
          case Broken =>
            return None;
          case Moved(n) =>
            if |incoming| == 0 {
              return None;
            }
            var k := Amount(n, len, |incoming|);
            ghost var r := ReadAll(incoming[k..], script, len - k);
            if r.data.Some? {
              assert (got + incoming[..k]) + r.data.value == got + (incoming[..k] + r.data.value);
            }
            got := got + incoming[..k];
            incoming := incoming[k..];
            len := len - k;
        }
      }
      assert got + [] == got;
      data := Some(got);
    }

    /** `proto_recv`. */
    method Recv(cap: nat, dataCap: nat) returns (result: Received)
      modifies this`incoming, this`script
      ensures result.Ok? ==> old(incoming) == Encode(result.frame) + incoming
      ensures result.Ok? ==>
        var f := result.frame; |f.payload| <= cap && (if f.kind == 8 then |f.payload| <= dataCap else |f.payload| <= 1024)
      ensures Reception(result, incoming, script) == ProtoRecv(old(incoming), old(script), cap, dataCap)
    {
      Accepted(incoming, script, cap, dataCap);
      hide ReadAll, GetU32, Allowed, Encode;
      ReadIsExact(incoming, script, FRAME_HEADER_SIZE);
      var hdr := ReadExactly(FRAME_HEADER_SIZE);
      if hdr.None? {
        return Eof;
      }
      var h := hdr.value;
      if !GoodHeader(h) {
        return Bad;
      }
      var len := GetU32(h[8..]);
      if !Allowed(h[5], len, cap, dataCap) {
        return TooLarge;
      }
      var payload := ReadExactly(len);
      if payload.None? {
        return Eof;
      }
      result := Ok(Frame(h[5], h[6], payload.value));
    }

    /** `conn_write_all`: everything is sent, or a proper prefix of it. */
    method WriteAll(buf: seq<byte>) returns (ok: bool)
      modifies this`outgoing, this`script
      ensures ok ==> outgoing == old(outgoing) + buf
      ensures !ok ==> exists k: nat :: k < |buf| && outgoing == old(outgoing) + buf[..k]
      ensures Healthy(old(script), |buf|) ==> ok
    {
      var pos: nat := 0;
      while pos < |buf|
        invariant pos <= |buf| && outgoing == old(outgoing) + buf[..pos]
        invariant Healthy(old(script), |buf|) ==> Healthy(script, |buf| - pos)
        decreases |script|
      {
        if |script| == 0 {
          return false;
        }
        var io := script[0];
        assert forall i | 0 <= i < |script[1..]| :: script[1..][i] == script[i + 1];
        script := script[1..];
        match io {
          case Interrupted =>
          case Broken =>
            return false;
          case Moved(n) =>
            var k := Amount(n, |buf| - pos, |buf| - pos);
            assert buf[..pos] + buf[pos..pos + k] == buf[..pos + k];
            outgoing := outgoing + buf[pos..pos + k];
            pos := pos + k;
        }
      }
      assert buf[..pos] == buf;
      ok := true;
    }

    /** `proto_send`: the whole encoding, or a proper prefix of it after which the peer sees no frame. */
    method Send(f: Frame) returns (ok: bool)
      requires |f.payload| < 0x1_0000_0000
      modifies this`outgoing, this`script
      ensures ok ==> outgoing == old(outgoing) + Encode(f) && (f.kind == MSG_DATA || |f.payload| <= MAX_CONTROL_PAYLOAD)
      ensures !ok ==> exists k: nat :: k < |Encode(f)| && outgoing == old(outgoing) + Encode(f)[..k]
      ensures f.kind != 8 && |f.payload| > 1024 ==> !ok && outgoing == old(outgoing)
    {
      hide Header;
      assert outgoing == outgoing + Encode(f)[..0];
      if f.kind != MSG_DATA && |f.payload| > MAX_CONTROL_PAYLOAD {
        return false;
      }
      ghost var before := outgoing;
      ok := WriteAll(Header(f));
      if !ok {
        ghost var k: nat :| k < |Header(f)| && outgoing == before + Header(f)[..k];
        assert Encode(f)[..k] == Header(f)[..k];
        return;
      }
      if |f.payload| > 0 {
        ok := WriteAll(f.payload);
        if !ok {
          ghost var k: nat :| k < |f.payload| && outgoing == (before + Header(f)) + f.payload[..k];
          assert Encode(f)[..|Header(f)| + k] == Header(f) + f.payload[..k];
          assert outgoing == before + Encode(f)[..|Header(f)| + k];
        }
      }
    }
  }

  function Prefixed(got: seq<byte>, r: Read): Read {
    if r.data.Some? then r.(data := Some(got + r.data.value)) else r
  }
}
