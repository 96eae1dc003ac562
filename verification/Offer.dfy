/**
 The UPDATE_AVAILABLE payload: printed in src/server/worker.c, read in src/client/downloader.c, and
 what the agreement on the chunk size means for the frames of the transfer.
 */
module Offer {
  import opened Prelude
  import opened Decimal
  import opened KeyValue
  import opened Messages
  import S = PackageService
  import SemVer
  import Wire

  const DEFAULT_CHUNK_SIZE := 65536
  const SHA256_HEX_BUF := 65

  /** The number of chunks that the server announces. */
  function Chunks(size: nat, chunk: nat): nat
    requires chunk > 0
  {
    (size + chunk - 1) / chunk
  }

  function Fields(m: Manifest, chunk: nat): seq<(string, string)>
    requires chunk > 0
  {
    [("ver", m.version), ("size", Print(m.size)), ("chunk", Print(chunk)),
     ("chunks", Print(Chunks(m.size, chunk))), ("sha256", m.digest)]
  }

  /** The text of the offer, cut at the size of the server's buffer. */
  function OfferText(m: Manifest, chunk: nat): string
    requires chunk > 0
  {
    var text := Join(Fields(m, chunk));
    if |text| > Wire.MAX_CONTROL_PAYLOAD then text[..Wire.MAX_CONTROL_PAYLOAD] else text
  }

  /** The text that the server prints. */
  lemma OfferSpelledOut(m: Manifest, chunk: nat)
    requires chunk > 0
    ensures Join(Fields(m, chunk)) ==
      "ver=" + m.version + ";" + ("size=" + Print(m.size) + ";" + ("chunk=" + Print(chunk) + ";" +
        ("chunks=" + Print((m.size + chunk - 1) / chunk) + ";" + ("sha256=" + m.digest))))
  {
    hide Print;
    var f := Fields(m, chunk);
    JoinFrom(f, 0);
    JoinFrom(f, 1);
    JoinFrom(f, 2);
    JoinFrom(f, 3);
    JoinLast(f);
    hide Join;
    assert f[0..] == f;
    assert "ver" + "=" == "ver=" && "size" + "=" == "size=" && "chunk" + "=" == "chunk=" && "chunks" + "=" == "chunks="
      && "sha256" + "=" == "sha256=";
  }

  lemma JoinFrom(f: seq<(string, string)>, k: nat)
    requires k + 1 < |f|
    ensures Join(f[k..]) == f[k].0 + "=" + f[k].1 + ";" + Join(f[k + 1..])
  {
    assert f[k..][1..] == f[k + 1..];
  }

  lemma JoinLast(f: seq<(string, string)>)
    requires |f| > 0
    ensures Join(f[|f| - 1..]) == f[|f| - 1].0 + "=" + f[|f| - 1].1
  {
  }

  /** The conversion of an unsigned 64-bit number to `int`. */
  function ToInt(n: nat): int {
    var low := n % 0x1_0000_0000;
    if low < 0x8000_0000 then low else low - 0x1_0000_0000
  }

  function Clamp(chunk: int): nat {
    if chunk < MIN_CHUNK_SIZE then MIN_CHUNK_SIZE
    else if chunk > MAX_CHUNK_SIZE then MAX_CHUNK_SIZE
    else chunk
  }

  /** The start of `receive_update`: version, digest, size and clamped chunk size, or a fatal error. */
  function ReadOffer(meta: string): Option<(Manifest, nat)> {
    var latest := Get(meta, "ver", SemVer.MAX_VERSION_STR);
    var sha := Get(meta, "sha256", SHA256_HEX_BUF);
    if latest.None? || sha.None? || !SemVer.Valid(latest.value) then None
    else
      Some((Manifest(latest.value, GetU64(meta, "size", 0), sha.value),
            Clamp(ToInt(GetU64(meta, "chunk", DEFAULT_CHUNK_SIZE)))))
  }

  /** What the server's configuration and its manifest guarantee. */
  predicate Sendable(m: Manifest, chunk: nat) {
    && SemVer.Valid(m.version) && |m.version| < SemVer.MAX_VERSION_STR
    && m.size + MAX_CHUNK_SIZE < TWO_TO_THE_64 && |m.digest| == 64 && ';' !in m.digest
    && MIN_CHUNK_SIZE <= chunk <= MAX_CHUNK_SIZE
  }

  lemma ChunksFit(size: nat, chunk: nat)
    requires 0 < chunk
    ensures Chunks(size, chunk) < size + chunk
  {
    var n := size + chunk - 1;
    assert n == chunk * (n / chunk) + n % chunk;
    assert chunk * (n / chunk) >= n / chunk;
  }

  lemma FieldsAreFields(m: Manifest, chunk: nat)
    requires Sendable(m, chunk)
    ensures forall i | 0 <= i < 5 :: IsField(Fields(m, chunk)[i])
    ensures |Join(Fields(m, chunk))| <= Wire.MAX_CONTROL_PAYLOAD
  {
    hide SemVer.Valid, Chunks, Print;
    SemVer.OnlyDigitsAndDots(m.version);
    ChunksFit(m.size, chunk);
    PrintHasNoSemicolon(m.size);
    PrintHasNoSemicolon(chunk);
    PrintHasNoSemicolon(Chunks(m.size, chunk));
    PrintIsShort(m.size);
    PrintIsShort(chunk);
    PrintIsShort(Chunks(m.size, chunk));
    var f := Fields(m, chunk);
    assert |Join(f[4..])| <= 80;
    assert |Join(f[3..])| <= 80 + 40 by { assert f[3..][1..] == f[4..]; }
    assert |Join(f[2..])| <= 80 + 80 by { assert f[2..][1..] == f[3..]; }
    assert |Join(f[1..])| <= 80 + 120 by { assert f[1..][1..] == f[2..]; }
  }

  /** Offer agreement: the client reads back the version, the size, the digest and the chunk size. */
  lemma OfferIsReadBack(m: Manifest, chunk: nat)
    requires Sendable(m, chunk)
    ensures ReadOffer(OfferText(m, chunk)) == Some((m, chunk))
  {
    hide SemVer.Valid, Chunks, Print, IsField, Join, Get, GetU64;
    FieldsAreFields(m, chunk);
    var f := Fields(m, chunk);
    GetOfJoin(f, 0, SemVer.MAX_VERSION_STR);
    GetOfJoin(f, 4, SHA256_HEX_BUF);
    U64OfJoin(f, 1, m.size, 0);
    U64OfJoin(f, 2, chunk, DEFAULT_CHUNK_SIZE);
  }

  /** The offset of a DOWNLOAD_REQ is read back, whatever the fallback. */
  lemma OffsetIsReadBack(offset: nat, fallback: nat)
    requires offset < TWO_TO_THE_64
    ensures GetU64(Join([("offset", Print(offset))]), "offset", fallback) == offset
  {
    PrintHasNoSemicolon(offset);
    U64OfJoin([("offset", Print(offset))], 0, offset, fallback);
  }

  /** No DATA frame of a stream is refused by the client that agreed on the chunk size. */
  lemma DataFramesFit(m: Manifest, size: nat, offset: nat, chunk: nat, turns: seq<S.Turn>, i: nat, flags: byte)
    requires Sendable(m, chunk) && offset < size
    requires i < |S.StreamRun(S.Open(m, size, offset), turns, chunk).1|
    ensures var frame := S.StreamRun(S.Open(m, size, offset), turns, chunk).1[i];
      && ReadOffer(OfferText(m, chunk)) == Some((m, chunk))
      && frame.Data? && Wire.WithinCaps(Wire.Frame(Wire.MSG_DATA, flags, frame.bytes), chunk + 1, chunk)
  {
    hide SemVer.Valid, ReadOffer, OfferText, S.StreamRun;
    OfferIsReadBack(m, chunk);
    S.FramesWellFormed(S.Open(m, size, offset), turns, chunk, i);
  }

  /** With full reads, a whole transfer takes exactly the announced number of DATA frames. */
  lemma AnnouncedChunks(m: Manifest, chunk: nat, turns: seq<S.Turn>)
    requires 0 < m.size && 0 < chunk
    requires S.FullReads(S.Open(m, m.size, 0), turns, chunk)
    requires S.StreamRun(S.Open(m, m.size, 0), turns, chunk).0.Finishing?
    ensures |S.StreamRun(S.Open(m, m.size, 0), turns, chunk).1| == Chunks(m.size, chunk)
  {
    S.FrameCount(S.Open(m, m.size, 0), turns, chunk);
  }
}
