/** The server's manifest: `vm_reload` and `vm_get_snapshot` of src/server/version_manager.c. */
module VersionManager {
  import opened Prelude
  import opened Messages
  import Downloader
  import Hex
  import Offer
  import SemVer
  import Sha256
  import Sha256Spec

  const MAX_PATH_LEN := 256
  const MAX_VALUE_LEN := 256
  const SHA256_HEX_LEN := 64

  /** `version_manifest_t`. */
  datatype Fields = Fields(latest: string, packageFile: string, checksum: string, minSupported: string, notes: string, size: nat)

  const NO_FIELDS := Fields("", "", "", "", "", 0)

  /** The key-value file, as `cfg_load` reads it. */
  type Config = map<string, string>

  function Get(cfg: Config, key: string, fallback: string): string {
    if key in cfg then cfg[key] else fallback
  }

  /** `snprintf` into a buffer of `cap` bytes. */
  function Copied(text: string, cap: nat): (t: string)
    requires cap > 0
    ensures |t| < cap && t <= text
  {
    if |text| < cap then text else text[..cap - 1]
  }

  /**
   What a reload meets on disk: the configuration, whether the package name is acceptable, the size that
   `stat` reports, and the bytes and read errors that the hashing then sees.
   */
  datatype Disk = Disk(cfg: Option<Config>, resolves: bool, size: Option<nat>, file: Option<seq<byte>>, errorAt: Option<nat>)

  function Hashed(d: Disk): Option<string> {
    if d.file.None? || (d.errorAt.Some? && d.errorAt.value <= |d.file.value|) then None
    else Some(Downloader.HexDigest(d.file.value))
  }

  /** The check of a configured checksum; none at all is fine. */
  predicate ChecksumAgrees(configured: string, computed: string) {
    configured == "" || (|configured| == SHA256_HEX_LEN && Hex.IsHex(configured) && Hex.EqualIgnoringCase(configured, computed))
  }

  /** The manifest that a reload would install. */
  function Candidate(d: Disk): Option<Fields> {
    if d.cfg.None? then None
    else
      var cfg := d.cfg.value;
      var latest := Copied(Get(cfg, "LATEST_VERSION", ""), SemVer.MAX_VERSION_STR);
      var packageFile := Copied(Get(cfg, "PACKAGE_FILE", ""), MAX_PATH_LEN);
      var minSupported := Copied(Get(cfg, "MIN_SUPPORTED", "0.0.0"), SemVer.MAX_VERSION_STR);
      var notes := Copied(Get(cfg, "RELEASE_NOTES", ""), MAX_VALUE_LEN);
      if !SemVer.Valid(latest) || !SemVer.Valid(minSupported) || packageFile == "" then None
      else if !d.resolves || d.size.None? || Hashed(d).None? then None
      else if !ChecksumAgrees(Get(cfg, "CHECKSUM_SHA256", ""), Hashed(d).value) then None
      else Some(Fields(latest, packageFile, Hashed(d).value, minSupported, notes, d.size.value))
  }

  /** `text` is the value of the key, or the fallback, cut at `max` characters. */
  ghost predicate IsSetting(text: string, cfg: Config, key: string, fallback: string, max: nat) {
    var full := if key in cfg then cfg[key] else fallback;
    text == if |full| <= max then full else full[..max]
  }

  /** No checksum is configured, or it stands for the digest. */
  ghost predicate ChecksumFits(cfg: Config, digest: seq<byte>) {
    "CHECKSUM_SHA256" !in cfg || cfg["CHECKSUM_SHA256"] == "" ||
      (var c := cfg["CHECKSUM_SHA256"]; |c| == 64 && Hex.IsHex(c) && Hex.FromHex(c) == digest)
  }

  /** Where each field comes from, and what has to be in order. */
  ghost predicate Describes(d: Disk, f: Fields) {
    && d.cfg.Some? && d.resolves && d.size == Some(f.size)
    && d.file.Some? && (d.errorAt.None? || d.errorAt.value > |d.file.value|)
    && IsSetting(f.latest, d.cfg.value, "LATEST_VERSION", "", 31) && SemVer.IsVersion(f.latest)
    && IsSetting(f.packageFile, d.cfg.value, "PACKAGE_FILE", "", 255) && f.packageFile != ""
    && IsSetting(f.minSupported, d.cfg.value, "MIN_SUPPORTED", "0.0.0", 31) && SemVer.IsVersion(f.minSupported)
    && IsSetting(f.notes, d.cfg.value, "RELEASE_NOTES", "", 255)
    && f.checksum == Hex.ToHex(Sha256Spec.Sha256(d.file.value))
    && ChecksumFits(d.cfg.value, Sha256Spec.Sha256(d.file.value))
  }

  /** A reload installs exactly what the configuration, the size and the bytes of the package describe. */
  lemma CandidateIff(d: Disk, f: Fields)
    ensures Candidate(d) == Some(f) <==> Describes(d, f)
  {
    hide Sha256Spec.Sha256, Hex.ToHex, Hex.FromHex, Hex.IsHex, ChecksumAgrees, SemVer.Valid, SemVer.IsVersion;
    if d.cfg.Some? && d.file.Some? {
      SemVer.ValidIffVersion(f.latest);
      SemVer.ValidIffVersion(f.minSupported);
      ChecksumIsDigest(Get(d.cfg.value, "CHECKSUM_SHA256", ""), d.file.value);
    }
  }

  lemma OutcomeOf(d: Disk)
    ensures Candidate(d).Some? ==> Describes(d, Candidate(d).value)
    ensures Candidate(d).None? ==> forall f :: !Describes(d, f)
  {
    hide Candidate, Describes;
    forall f ensures Candidate(d) == Some(f) <==> Describes(d, f) {
      CandidateIff(d, f);
    }
  }

  /** The manifest after a series of reloads: all the fields of the last one that succeeded. */
  function AfterReloads(start: Fields, reloads: seq<Disk>): Fields {
    if |reloads| == 0 then start
    else
      var n := |reloads| - 1;
      if Candidate(reloads[n]).Some? then Candidate(reloads[n]).value else AfterReloads(start, reloads[..n])
  }

  /** No reload from the `k`-th on succeeds. */
  predicate NoneFrom(reloads: seq<Disk>, k: nat) {
    forall j | k <= j < |reloads| :: Candidate(reloads[j]).None?
  }

  /** The fields are the start, or all of them the outcome of one reload, and no later reload succeeded. */
  ghost predicate FromOneReload(start: Fields, reloads: seq<Disk>, m: Fields) {
    || (m == start && NoneFrom(reloads, 0))
    || exists i :: 0 <= i < |reloads| && Candidate(reloads[i]) == Some(m) && NoneFrom(reloads, i + 1)
  }

  /** All or nothing. */
  lemma {:induction false} NeverMixed(start: Fields, reloads: seq<Disk>)
    ensures FromOneReload(start, reloads, AfterReloads(start, reloads))
  {
    hide Candidate;
    if |reloads| > 0 {
      var (n, m) := (|reloads| - 1, AfterReloads(start, reloads));
      NeverMixed(start, reloads[..n]);
      if Candidate(reloads[n]).Some? {
        assert Candidate(reloads[n]) == Some(m) && NoneFrom(reloads, n + 1);
      } else if NoneFrom(reloads[..n], 0) {
        OneMoreFails(reloads, 0);
      } else {
        var i :| 0 <= i < n && Candidate(reloads[..n][i]) == Some(m) && NoneFrom(reloads[..n], i + 1);
        OneMoreFails(reloads, i + 1);
        assert Candidate(reloads[i]) == Some(m);
      }
    }
  }

  lemma OneMoreFails(reloads: seq<Disk>, k: nat)
    requires |reloads| > 0 && k < |reloads| && Candidate(reloads[|reloads| - 1]).None?
    requires NoneFrom(reloads[..|reloads| - 1], k)
    ensures NoneFrom(reloads, k)
  {
    hide Candidate;
    forall j | k <= j < |reloads| ensures Candidate(reloads[j]).None? {
      assert j < |reloads| - 1 ==> reloads[..|reloads| - 1][j] == reloads[j];
    }
  }

  lemma OneMoreReload(start: Fields, reloads: seq<Disk>, d: Disk)
    ensures AfterReloads(start, reloads + [d]) ==
      if Candidate(d).Some? then Candidate(d).value else AfterReloads(start, reloads)
  {
    hide Candidate;
    assert (reloads + [d])[..|reloads|] == reloads;
  }

  lemma CandidateIsUsable(d: Disk)
    requires Candidate(d).Some?
    ensures var f := Candidate(d).value;
      SemVer.Valid(f.latest) && SemVer.Valid(f.minSupported) && |f.checksum| == 64
  {
    hide SemVer.Valid, Sha256Spec.Sha256;
  }

  lemma LoadedIsUsable(reloads: seq<Disk>, m: Fields)
    requires FromOneReload(NO_FIELDS, reloads, m) && m != NO_FIELDS
    ensures SemVer.Valid(m.latest) && SemVer.Valid(m.minSupported) && |m.checksum| == 64
  {
    hide Candidate, SemVer.Valid;
    var i :| 0 <= i < |reloads| && Candidate(reloads[i]) == Some(m);
    CandidateIsUsable(reloads[i]);
  }

  class Manager {
    var manifest: Fields
    /** The reloads so far, with what each of them met. */
    ghost var reloads: seq<Disk>

    ghost predicate Valid()
      reads this
    {
      manifest == AfterReloads(NO_FIELDS, reloads)
    }

    constructor ()
      ensures Valid() && manifest == NO_FIELDS && reloads == []
    {
      manifest, reloads := NO_FIELDS, [];
    }

    /** `vm_reload`: a new manifest is built field by field, and takes the place of the old one only when it is complete. */
    method Reload(d: Disk) returns (ok: bool)
      requires Valid()
      modifies this
      ensures Valid() && reloads == old(reloads) + [d]
      ensures if ok then Describes(d, manifest) else manifest == old(manifest)
      ensures ok <==> exists f :: Describes(d, f)
      ensures ok <==> Candidate(d).Some?
      ensures manifest == if ok then Candidate(d).value else old(manifest)
    {
      OutcomeOf(d);
      hide SemVer.Valid, Sha256Spec.Sha256, Hex.ToHex, AfterReloads, Describes;
      OneMoreReload(NO_FIELDS, reloads, d);
      reloads := reloads + [d];
      if d.cfg.None? {
        return false;
      }
      var cfg := d.cfg.value;
      var next := NO_FIELDS;
      next := next.(latest := Copied(Get(cfg, "LATEST_VERSION", ""), SemVer.MAX_VERSION_STR));
      next := next.(packageFile := Copied(Get(cfg, "PACKAGE_FILE", ""), MAX_PATH_LEN));
      next := next.(minSupported := Copied(Get(cfg, "MIN_SUPPORTED", "0.0.0"), SemVer.MAX_VERSION_STR));
      next := next.(notes := Copied(Get(cfg, "RELEASE_NOTES", ""), MAX_VALUE_LEN));
      if !SemVer.Valid(next.latest) || !SemVer.Valid(next.minSupported) || next.packageFile == "" {
        return false;
      }
      if !d.resolves || d.size.None? {
        return false;
      }
      next := next.(size := d.size.value);
      if d.file.None? {
        return false;
      }
      var digest := Sha256.HashFile(d.file.value, d.errorAt);
      if digest.None? {
        return false;
      }
      var computed := Hex.BytesToHex(digest.value);
      var configured := Get(cfg, "CHECKSUM_SHA256", "");
      if configured != "" {
        if |configured| != SHA256_HEX_LEN || !Hex.EqualIgnoringCase(configured, computed) {
          return false;
        }
        var raw := Hex.HexToBytes(configured, 32);
        if raw.None? {
          return false;
        }
      }
      next := next.(checksum := computed);
      manifest := next;
      ok := true;
    }

    /** `vm_get_snapshot`: all fields of a snapshot come from the last reload that succeeded. */
    method GetSnapshot() returns (snapshot: Fields)
      requires Valid()
      ensures FromOneReload(NO_FIELDS, reloads, snapshot)
      ensures snapshot != NO_FIELDS ==> SemVer.Valid(snapshot.latest) && SemVer.Valid(snapshot.minSupported) && |snapshot.checksum| == 64
    {
      NeverMixed(NO_FIELDS, reloads);
      if manifest != NO_FIELDS {
        LoadedIsUsable(reloads, manifest);
      }
      snapshot := manifest;
    }
  }

  /** A configured checksum is accepted exactly when it stands for the digest of the package, in either case. */
  lemma ChecksumIsDigest(configured: string, package: seq<byte>)
    ensures ChecksumAgrees(configured, Downloader.HexDigest(package)) <==>
      configured == "" || (|configured| == SHA256_HEX_LEN && Hex.IsHex(configured) && Hex.FromHex(configured) == Sha256Spec.Sha256(package))
  {
    hide Sha256Spec.Sha256, Hex.FromHex, Hex.IsHex, Hex.ToHex, Hex.EqualIgnoringCase;
    var digest := Sha256Spec.Sha256(package);
    Hex.DecodeEncode(digest);
    if |configured| == SHA256_HEX_LEN && Hex.IsHex(configured) {
      Hex.EqualIffSameBytes(configured, Hex.ToHex(digest));
    }
  }

  lemma AlphabetHasNoSemicolon(bytes: seq<byte>)
    ensures ';' !in Hex.ToHex(bytes)
  {
    Hex.DecodeEncode(bytes);
  }

  /** Every reloaded manifest can be offered: the client reads back what the session announces. */
  lemma ReloadedCanBeOffered(d: Disk, chunk: nat)
    requires Candidate(d).Some? && MIN_CHUNK_SIZE <= chunk <= MAX_CHUNK_SIZE
    requires Candidate(d).value.size < 0x8000_0000_0000_0000
    ensures var f := Candidate(d).value;
      Offer.ReadOffer(Offer.OfferText(Manifest(f.latest, f.size, f.checksum), chunk))
        == Some((Manifest(f.latest, f.size, f.checksum), chunk))
  {
    hide SemVer.Valid, Sha256Spec.Sha256, Hex.ToHex, Offer.ReadOffer, Offer.OfferText;
    AlphabetHasNoSemicolon(Sha256Spec.Sha256(d.file.value));
    var f := Candidate(d).value;
    Offer.OfferIsReadBack(Manifest(f.latest, f.size, f.checksum), chunk);
  }
}
