/**
 Resume over whole runs. As long as no pause that lost bytes is resumed, every `.part` file stays a prefix of
 its package, and every download that reaches the check is the whole package.
 */
module TransferResume {
  import opened Prelude
  import opened Messages
  import opened Transfer
  import opened TransferSafety
  import opened TransferConservation
  import D = Downloader
  import Hex
  import SemVer

  /** A pause is resumed only when nothing is missing behind the count. */
  predicate LosslessEvent(s: State, ev: Event) {
    Can(s, ev) && ev == OnClient(EndHold(D.ResumeSent)) ==> s.client.rx.received == |Have(s, s.client.rx)|
  }

  predicate LosslessRun(s: State, evs: seq<Event>) {
    |evs| > 0 ==> LosslessRun(s, evs[..|evs| - 1]) && LosslessEvent(After(s, evs[..|evs| - 1]), evs[|evs| - 1])
  }

  /** Every `.part` file, if there is one, holds a prefix of its package. */
  ghost predicate PartsOk(p: Packages, parts: map<string, seq<byte>>) {
    forall v | v in parts :: IsPrefix(parts[v], p(v))
  }

  ghost predicate Clean(p: Packages, s: State, k: Track) {
    && PartsOk(p, s.parts)
    && match s.client
       case Receiving(rx) => k.lost == 0 && IsPrefix(k.start, p(rx.version))
       case Holding(rx) => IsPrefix(k.start, p(rx.version))
       case Flushing(rx) => k.lost == 0 && IsPrefix(k.start, p(rx.version))
       case Verifying(v, _) => k.lost == 0 && IsPrefix(k.start, p(v))
       case _ => true
  }

  lemma PutKeepsParts(p: Packages, parts: map<string, seq<byte>>, v: string, f: D.File)
    requires PartsOk(p, parts) && (f.Some? ==> IsPrefix(f.value, p(v)))
    ensures PartsOk(p, PutFile(parts, v, f))
  {
  }

  /** Without losses, what the client has is the package up to its count. */
  lemma CleanHave(p: Packages, s: State, k: Track)
    requires ClientHonest(p, s, k) && Clean(p, s, k) && (s.client.Receiving? || s.client.Flushing?)
    ensures IsPrefix(Have(s, s.client.rx), p(s.client.rx.version))
    ensures s.client.Flushing? ==> Have(s, s.client.rx) == p(s.client.rx.version)
  {
    hide Flow, PartsOk;
    var rx := s.client.rx;
    var file := p(rx.version);
    var at := if s.client.Flushing? then |file| else rx.received;
    BehindIsPrefixIff(file, Have(s, rx), k, at);
    assert file[..|file|] == file;
  }

  /** Any part of what is written, put into the file. */
  lemma TakenIsPrefix(part: seq<byte>, buffered: seq<byte>, kept: nat, file: seq<byte>)
    requires IsPrefix(part + buffered, file)
    ensures IsPrefix(part + D.Take(buffered, kept), file) && IsPrefix(D.Take(part + buffered, kept), file)
  {
    var taken := D.Take(buffered, kept);
    assert part + taken == (part + buffered)[..|part + taken|];
  }

  lemma OfferKeepsClean(p: Packages, s: State, k: Track, e: ClientEvent)
    requires Clean(p, s, k) && ClientCan(s, e) && e.TakeReply?
    ensures Clean(p, ClientStep(s, e), NextTrack(k, s, OnClient(e)))
  {
    hide SemVer.Valid, PartsOk;
    var msg := s.live.toClient[0];
    if msg.Offer? {
      PartIsPrefix(p, s.parts, msg.version);
      PutKeepsParts(p, s.parts, msg.version, FileOf(s.parts, msg.version));
      PutKeepsParts(p, s.parts, msg.version, Some([]));
      PutKeepsParts(p, s.parts, msg.version, None);
    }
  }

  lemma PartIsPrefix(p: Packages, parts: map<string, seq<byte>>, v: string)
    requires PartsOk(p, parts)
    ensures IsPrefix(D.Contents(FileOf(parts, v)), p(v))
  {
  }

  /** What a frame leaves in the file, and where it takes the client. */
  lemma FramePart(rx: D.Rx, part: D.File, msg: ServerMsg, kept: nat, short: bool, file: seq<byte>)
    requires IsPrefix(D.Contents(part), file) && IsPrefix(D.Contents(part) + rx.buffered, file)
    requires msg.Data? ==> IsPrefix(D.Contents(part) + (rx.buffered + msg.bytes), file)
    ensures var step := D.OnFrame(rx, part, msg, kept, short);
      && (step.part.Some? ==> IsPrefix(step.part.value, file))
      && (step.client.Ended? || ((step.client.Receiving? || step.client.Flushing?) && step.client.rx.version == rx.version))
  {
    hide Hex.EqualIgnoringCase;
    TakenIsPrefix(D.Contents(part), rx.buffered, kept, file);
    if msg.Data? {
      TakenIsPrefix(D.Contents(part), rx.buffered + msg.bytes, kept, file);
    }
  }

  lemma FrameKeepsClean(p: Packages, s: State, k: Track, kept: nat, short: bool)
    requires Safe(s) && ClientHonest(p, s, k) && Clean(p, s, k) && ClientCan(s, TakeFrame(kept, short))
    ensures Clean(p, ClientStep(s, TakeFrame(kept, short)), k)
  {
    hide Safe, PartsOk, ClientHonest, D.OnFrame, IsPrefix;
    var rx := s.client.rx;
    var (file, part, msg) := (p(rx.version), FileOf(s.parts, rx.version), s.live.toClient[0]);
    CleanHave(p, s, k);
    PartIsPrefix(p, s.parts, rx.version);
    if msg.Data? {
      NextBytes(p, s, k);
      assert D.Contents(part) + (rx.buffered + msg.bytes) == Have(s, rx) + msg.bytes;
    }
    FramePart(rx, part, msg, kept, short, file);
    PutKeepsParts(p, s.parts, rx.version, D.OnFrame(rx, part, msg, kept, short).part);
  }

  lemma NextBytes(p: Packages, s: State, k: Track)
    requires Safe(s) && ClientHonest(p, s, k) && Clean(p, s, k) && s.client.Receiving?
    requires |s.live.toClient| > 0 && s.live.toClient[0].Data?
    ensures IsPrefix(Have(s, s.client.rx) + s.live.toClient[0].bytes, p(s.client.rx.version))
  {
    hide Safe, Flow, PartsOk;
    InTransferOf(s);
    var rx := s.client.rx;
    var (file, data) := (p(rx.version), s.live.toClient[0].bytes);
    DataKeepsFlow(file, s.live, rx.received);
    BehindIsPrefixIff(file, Have(s, rx), k, rx.received);
    assert file[..rx.received] + data == file[..rx.received + |data|];
  }

  /** Everything else the client does in or after the receive loop. */
  lemma WriteKeepsClean(p: Packages, s: State, k: Track, e: ClientEvent)
    requires ClientHonest(p, s, k) && Clean(p, s, k) && ClientCan(s, e) && LosslessEvent(s, OnClient(e))
    requires !e.TakeReply? && !e.TakeFrame? && (s.client.Receiving? || s.client.Flushing?)
    ensures Clean(p, ClientStep(s, e), NextTrack(k, s, OnClient(e)))
  {
    hide Flow, Behind, PartsOk, ClientHonest;
    var rx := s.client.rx;
    var file := p(rx.version);
    var part := D.Contents(FileOf(s.parts, rx.version));
    CleanHave(p, s, k);
    var n := match e case Quit(kept, _) => kept case ClickPause(kept, _) => kept case Spill(m) => m
             case EndFlush(kept, _) => kept case _ => 0;
    TakenIsPrefix(part, rx.buffered, n, file);
    PutKeepsParts(p, s.parts, rx.version, Some(part + D.Take(rx.buffered, n)));
    PutKeepsParts(p, s.parts, rx.version, Some(part + rx.buffered));
  }

  lemma LaterKeepsClean(p: Packages, s: State, k: Track, e: ClientEvent)
    requires ClientHonest(p, s, k) && Clean(p, s, k) && ClientCan(s, e) && LosslessEvent(s, OnClient(e))
    requires !e.TakeReply? && !e.TakeFrame? && !s.client.Receiving? && !s.client.Flushing?
    ensures Clean(p, ClientStep(s, e), NextTrack(k, s, OnClient(e)))
  {
    hide Flow, PartsOk, Hex.EqualIgnoringCase, D.HexDigest;
    match e {
      case EndHold(_) => PutSame(s.parts, s.client.rx.version);
      case Check(_, _) =>
        PutSame(s.parts, s.client.version);
        PutKeepsParts(p, s.parts, s.client.version, None);
      case Rename(_) => PutKeepsParts(p, s.parts, s.client.version, None);
      case _ =>
    }
  }

  lemma CrashKeepsClean(p: Packages, s: State, k: Track, kept: nat)
    requires ClientHonest(p, s, k) && Clean(p, s, k)
    ensures Clean(p, Crashed(s, kept), k)
  {
    hide Flow, Behind, PartsOk;
    if s.client.Receiving? || s.client.Holding? || s.client.Flushing? {
      var rx := s.client.rx;
      var part := D.Contents(FileOf(s.parts, rx.version));
      if s.client.Holding? {
        PartIsPrefix(p, s.parts, rx.version);
        assert part + [] == part;
      } else {
        CleanHave(p, s, k);
      }
      TakenIsPrefix(part, rx.buffered, kept, p(rx.version));
      PutKeepsParts(p, s.parts, rx.version, Some(D.Take(part + rx.buffered, kept)));
    }
  }

  lemma ServerKeepsClean(p: Packages, s: State, k: Track, i: nat, e: ServerEvent)
    requires Clean(p, s, k) && Can(s, OnServer(i, e))
    ensures Clean(p, Next(s, OnServer(i, e)), k)
  {
    hide PartsOk, Next;
    ServerStepShape(s, i, e);
  }

  lemma NextKeepsClean(p: Packages, s: State, k: Track, ev: Event)
    requires Safe(s) && ClientHonest(p, s, k) && Clean(p, s, k) && LosslessEvent(s, ev)
    ensures Clean(p, Next(s, ev), NextTrack(k, s, ev))
  {
    hide Safe, ClientHonest, Clean, ServerStep, ServerCan, ClientStep, Crashed, LosslessEvent;
    if Can(s, ev) {
      match ev {
        case OnServer(i, e) => ServerKeepsClean(p, s, k, i, e);
        case OnClient(e) =>
          if e.TakeReply? {
            OfferKeepsClean(p, s, k, e);
          } else if e.TakeFrame? {
            FrameKeepsClean(p, s, k, e.kept, e.short);
          } else if s.client.Receiving? || s.client.Flushing? {
            WriteKeepsClean(p, s, k, e);
          } else {
            LaterKeepsClean(p, s, k, e);
          }
        case Crash(kept) => CrashKeepsClean(p, s, k, kept);
        case _ => EndKeepsClean(p, s, k, ev);
      }
    }
  }

  lemma EndKeepsClean(p: Packages, s: State, k: Track, ev: Event)
    requires Clean(p, s, k) && Can(s, ev) && (ev.Reload? || ev.StartRun? || ev.DropRow? || ev.Connect? || ev.GiveUp?)
    ensures Clean(p, Next(s, ev), k)
  {
    hide PartsOk;
  }

  lemma {:induction false} RunsAreClean(p: Packages, s: State, evs: seq<Event>)
    requires HonestStart(p, s) && HonestRun(p, s, evs) && PartsOk(p, s.parts) && LosslessRun(s, evs)
    ensures Clean(p, After(s, evs), TrackAfter(s, evs))
  {
    if |evs| == 0 {
      hide HonestManifest, PartsOk;
    } else {
      hide Next, Safe, HonestStart, HonestEvent, NextTrack, Clean, ClientHonest, LosslessEvent, PartsOk;
      var init := evs[..|evs| - 1];
      RunsAreHonest(p, s, init);
      RunsAreClean(p, s, init);
      NextKeepsClean(p, After(s, init), TrackAfter(s, init), evs[|evs| - 1]);
    }
  }

  /**
   Resume over whole runs: whatever sequence of disconnects, crashes, short writes, short flushes, pauses,
   stops and reconnects, every `.part` on the disk stays a prefix of its package.
   */
  lemma PartsArePrefixes(p: Packages, s: State, evs: seq<Event>, v: string)
    requires HonestStart(p, s) && HonestRun(p, s, evs) && PartsOk(p, s.parts) && LosslessRun(s, evs)
    requires v in After(s, evs).parts
    ensures IsPrefix(After(s, evs).parts[v], p(v))
  {
    hide HonestStart, HonestRun, LosslessRun, After, TrackAfter;
    RunsAreClean(p, s, evs);
  }

  lemma BehindIsWhole(p: Packages, s: State, k: Track)
    requires ClientHonest(p, s, k) && Clean(p, s, k) && s.client.Verifying?
    ensures s.client.version in s.parts && s.parts[s.client.version] == p(s.client.version)
  {
    hide PartsOk, D.HexDigest;
    var v := s.client.version;
    BehindIsPrefixIff(p(v), s.parts[v], k, |p(v)|);
    assert p(v)[..|p(v)|] == p(v);
  }

  lemma SameTextIsEqual(a: string)
    ensures Hex.EqualIgnoringCase(a, a)
  {
  }

  lemma CheckPasses(p: Packages, s: State, k: Track, sendOk: bool)
    requires ClientHonest(p, s, k) && s.client.Verifying? && s.parts[s.client.version] == p(s.client.version)
    ensures Next(s, OnClient(Check(true, sendOk))).client.Renaming?
  {
    hide D.HexDigest, Hex.EqualIgnoringCase, Flow, Behind;
    SameTextIsEqual(s.client.digest);
  }

  /** Every attempt that reaches the check has the whole package, so with a good read it passes. */
  lemma CheckAlwaysPasses(p: Packages, s: State, evs: seq<Event>, sendOk: bool)
    requires HonestStart(p, s) && HonestRun(p, s, evs) && PartsOk(p, s.parts) && LosslessRun(s, evs)
    requires After(s, evs).client.Verifying?
    ensures var t := After(s, evs);
      && t.client.version in t.parts && t.parts[t.client.version] == p(t.client.version)
      && Next(t, OnClient(Check(true, sendOk))).client.Renaming?
  {
    hide HonestStart, HonestRun, LosslessRun, After, TrackAfter, Next, Safe, Clean, ClientHonest, PartsOk;
    RunsAreClean(p, s, evs);
    RunsAreHonest(p, s, evs);
    BehindIsWhole(p, After(s, evs), TrackAfter(s, evs));
    CheckPasses(p, After(s, evs), TrackAfter(s, evs), sendOk);
  }
}
