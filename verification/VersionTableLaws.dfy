/** What a write of the shared version table does to later reads. */
module VersionTableLaws {
  import opened Prelude
  import opened Decimal
  import opened KeyValue
  import opened Text
  import opened Rows
  import opened VersionTable
  import SemVer

  /** An id that a row can hold. */
  predicate GoodId(id: string) {
    0 < |id| < MAX_ID_LEN && IsTrimmed(id) && '=' !in id && id[0] != '#'
  }

  predicate GoodVersion(version: string) {
    SemVer.Valid(version) && |version| < SemVer.MAX_VERSION_STR
  }

  // ---- Rows ----

  lemma VersionIsTrimmed(v: string)
    requires SemVer.Valid(v)
    ensures |v| > 0 && IsTrimmed(v)
  {
    SemVer.OnlyDigitsAndDots(v);
  }

  lemma RowIsTrimmed(id: string, version: string)
    requires 0 < |id| && IsTrimmed(id) && SemVer.Valid(version)
    ensures Trim(RowText(id, version)) == id + "=" + version
    ensures |id| < MAX_ID_LEN && |version| < SemVer.MAX_VERSION_STR ==> IsLine(RowText(id, version))
  {
    hide SemVer.Valid, Trim;
    VersionIsTrimmed(version);
    TrimKeeps(id + "=" + version);
  }

  /** A written row is read back exactly when the id is one that a row can hold. */
  lemma RowReadsBack(id: string, version: string)
    requires GoodVersion(version)
    ensures ParseRow(RowText(id, version)) == Entry(id, version) <==> GoodId(id)
  {
    hide SemVer.Valid, Trim;
    var t := id + "=" + version;
    VersionIsTrimmed(version);
    if 0 < |id| && IsTrimmed(id) {
      RowIsTrimmed(id, version);
      TrimKeeps(id);
      TrimKeeps(version);
      if '=' !in id {
        assert t[..|id|] == id == t[0..|id|] && t[|id| + 1..] == version;
        FindIs(t, '=', 0, |id|);
      } else {
        FindBefore(t, id);
      }
    }
  }

  lemma FindBefore(t: string, id: string)
    requires id <= t && '=' in id
    ensures Find(t, '=', 0) < |id|
  {
    var k := Find(t, '=', 0);
    var i :| 0 <= i < |id| && id[i] == '=';
    assert t[i] == '=';
  }

  /** A row with padding anywhere around its two parts means the same. */
  lemma PaddedRow(left: string, id: string, mid: string, pad: string, version: string, right: string, end: string)
    requires IsPad(left) && IsPad(mid) && IsPad(pad) && IsPad(right) && (end == "" || end == "\n" || end == "\r\n")
    requires GoodId(id) && GoodVersion(version)
    requires |left + (id + mid + "=" + (pad + version)) + right + end| < LINE_CAP
    ensures ParseRow(left + (id + mid + "=" + (pad + version)) + right + end) == Entry(id, version)
  {
    hide SemVer.Valid, Trim;
    var t := id + mid + "=" + (pad + version);
    VersionIsTrimmed(version);
    TrimPadded(left, t, right, end);
    var head := id + mid;
    assert t[0..|head|] == head && t[..|head|] == head && t[|head| + 1..] == pad + version;
    FindIs(t, '=', 0, |head|);
    TrimPadded(pad, version, "", "");
    assert pad + version + "" + "" == pad + version;
    TrimPadded("", id, mid, "");
    assert "" + id + mid + "" == id + mid;
  }

  // ---- What a read answers, by the rows of the table ----

  /**
   The answer of `getCurrentVersion`: an inline version if it is one; 0.0.0 without the lock or the file; and
   otherwise what the row of the id says, 0.0.0 when it has none, and an error exactly when the table is not in order.
   */
  lemma CurrentByRows(inline: string, seen: Option<string>, id: string, locked: bool)
    ensures inline != "" ==>
      Current(inline, seen, id, locked) == if SemVer.IsVersion(inline) then Some(inline) else None
    ensures inline == "" && (!locked || seen.None?) ==> Current(inline, seen, id, locked) == Some("0.0.0")
    ensures inline == "" && locked && seen.Some? ==>
      var (rows, answer) := (RowsOf(Split(seen.value)), Current(inline, seen, id, locked));
      && (answer.None? <==> !Sound(rows))
      && (Sound(rows) ==>
            && (forall v :: Entry(id, v) in rows ==> answer == Some(v))
            && ((forall v :: Entry(id, v) !in rows) ==> answer == Some("0.0.0")))
  {
    hide Split, RowsOf, Sound, Lookup, SemVer.Valid, SemVer.IsVersion;
    SemVer.ValidIffVersion(inline);
    if seen.Some? && Sound(RowsOf(Split(seen.value))) {
      var rows := RowsOf(Split(seen.value));
      forall v ensures Lookup(rows, id) == Some(v) <==> Entry(id, v) in rows {
        LookupIff(rows, id, v);
      }
    }
  }

  // ---- Files as lines ----

  predicate Unfinished(piece: string) {
    0 < |piece| < LINE_CAP && '\n' !in piece
  }

  /** Lines, of which only the last may lack its newline. */
  predicate AreLines(lines: seq<string>) {
    forall i | 0 <= i < |lines| :: IsLine(lines[i]) || (i == |lines| - 1 && Unfinished(lines[i]))
  }

  predicate Terminated(file: string) {
    file == "" || file[|file| - 1] == '\n'
  }

  /** Writing such lines and splitting the file again gives the same lines. */
  lemma SplitOfFlatten(lines: seq<string>)
    requires AreLines(lines)
    ensures Split(Flatten(lines)) == lines
  {
    hide Split, Flatten, IsLine, Unfinished;
    if |lines| > 0 && !IsLine(lines[|lines| - 1]) {
      var n := |lines| - 1;
      assert lines == lines[..n] + [lines[n]];
      FlattenSnoc(lines[..n], lines[n]);
      assert Unfinished(lines[n]);
      UnfinishedTail(lines[..n], lines[n]);
    } else {
      SplitOfWholeLines(lines);
    }
  }

  lemma UnfinishedTail(lines: seq<string>, last: string)
    requires (forall i | 0 <= i < |lines| :: IsLine(lines[i])) && Unfinished(last)
    ensures Split(Flatten(lines) + last) == lines + [last]
  {
    hide Split, Flatten, IsLine;
    SplitOfLines(lines, last);
  }

  lemma GoodPiecesAreLines(file: string)
    requires NoneBad(RowsOf(Split(file)))
    ensures AreLines(Split(file))
  {
    hide Split, Trim, Parts, SemVer.Valid;
    var lines := Split(file);
    forall i | 0 <= i < |lines| ensures IsLine(lines[i]) || (i == |lines| - 1 && Unfinished(lines[i])) {
      SplitPieces(file, i);
      assert !RowsOf(lines)[i].Bad?;
      if !EndsLine(lines[i]) {
        LastIsNotNewline(lines[i]);
      }
    }
  }

  lemma LastIsNotNewline(p: string)
    requires |p| > 0 && p[|p| - 1] != '\n' && forall j | 0 <= j < |p| - 1 :: p[j] != '\n'
    ensures '\n' !in p
  {
  }

  lemma {:induction false} LastOfFlatten(lines: seq<string>)
    requires |lines| > 0 && |lines[|lines| - 1]| > 0
    ensures var (all, last) := (Flatten(lines), lines[|lines| - 1]);
      |all| > 0 && all[|all| - 1] == last[|last| - 1]
  {
    var n := |lines| - 1;
    assert lines == lines[..n] + [lines[n]];
    FlattenSnoc(lines[..n], lines[n]);
  }

  /** A readable file is terminated exactly when all its pieces are. */
  lemma TerminatedIff(file: string)
    requires AreLines(Split(file))
    ensures Terminated(file) <==> forall i | 0 <= i < |Split(file)| :: IsLine(Split(file)[i])
  {
    hide Split, Flatten;
    var lines := Split(file);
    SplitNothing();
    if |lines| > 0 {
      var last := lines[|lines| - 1];
      assert IsLine(last) || Unfinished(last);
      LastOfFlatten(lines);
      assert file[|file| - 1] == last[|last| - 1];
    } else {
      FlattenNothing(lines);
    }
  }

  // ---- A write, then a read ----

  lemma ReplacedRows(lines: seq<string>, id: string, version: string)
    requires GoodId(id) && GoodVersion(version)
    ensures RowsOf(Replace(lines, id, RowText(id, version))) == Put(RowsOf(lines), id, version)
  {
    hide ParseRow, RowText, GoodId, GoodVersion;
    RowReadsBack(id, version);
  }

  lemma ReplacedAreLines(lines: seq<string>, id: string, version: string)
    requires AreLines(lines) && GoodId(id) && GoodVersion(version)
    ensures AreLines(Replace(lines, id, RowText(id, version)))
  {
    hide ParseRow, RowText, IsLine, Unfinished, SemVer.Valid;
    RowIsTrimmed(id, version);
    var row := RowText(id, version);
    var out := Replace(lines, id, row);
    forall i | 0 <= i < |out| ensures IsLine(out[i]) || (i == |out| - 1 && Unfinished(out[i])) {
      assert out[i] == row || out[i] == lines[i];
    }
  }

  /** The lines a caller expects after a write: the row rewritten in its place, or appended. */
  function Expected(lines: seq<string>, id: string, version: string): seq<string> {
    Replace(lines, id, RowText(id, version)) + if HasRow(lines, id) then [] else [RowText(id, version)]
  }

  /** The two things a caller has to look at: the length of the table, and its last newline. */
  predicate Safe(file: string, id: string) {
    |Split(file)| <= MAX_LINES && (HasRow(Split(file), id) || Terminated(file))
  }

  lemma EditedIsExpected(lines: seq<string>, id: string, version: string)
    requires |lines| <= MAX_LINES && Edited(lines, id, version).Some?
    ensures Edited(lines, id, version).value == Expected(lines, id, version)
  {
    hide Replace, RowText, RowsOf, Sound, Lookup;
    assert Head(lines) == lines;
    var kept := Replace(lines, id, RowText(id, version));
    assert kept + [] == kept;
    if !HasRow(lines, id) {
      NothingReplaced(lines, id, RowText(id, version));
    }
  }

  lemma ExpectedAreLines(file: string, id: string, version: string)
    requires AreLines(Split(file)) && Safe(file, id) && GoodId(id) && GoodVersion(version)
    ensures AreLines(Expected(Split(file), id, version))
  {
    hide Split, ParseRow, RowText, SemVer.Valid, Replace, RowsOf, Lookup, IsLine, Unfinished;
    var lines := Split(file);
    ReplacedAreLines(lines, id, version);
    var (row, kept) := (RowText(id, version), Replace(lines, id, RowText(id, version)));
    assert kept + [] == kept;
    RowIsTrimmed(id, version);
    TerminatedIff(file);
    if !HasRow(lines, id) {
      NothingReplaced(lines, id, row);
      assert kept == lines;
    }
  }

  /** What a read should give after a write: the new version for its id, and no change for any other. */
  function NewReading(lines: seq<string>, id: string, version: string, other: string): Option<string> {
    if other == id then Some(version) else ReadTable(lines, other)
  }

  lemma ExpectedReads(lines: seq<string>, id: string, version: string)
    requires Sound(RowsOf(lines)) && |Expected(lines, id, version)| <= MAX_LINES
    requires GoodId(id) && GoodVersion(version)
    ensures Sound(RowsOf(Expected(lines, id, version)))
    ensures forall other :: ReadTable(Expected(lines, id, version), other) == NewReading(lines, id, version, other)
  {
    hide ParseRow, RowText, SemVer.Valid, Replace, Lookup, GoodId, GoodVersion, Sound;
    var (rows, row, kept) := (RowsOf(lines), RowText(id, version), Replace(lines, id, RowText(id, version)));
    ReplacedRows(lines, id, version);
    if HasRow(lines, id) {
      assert kept + [] == kept;
      PutSound(rows, id, version);
      forall other ensures Lookup(RowsOf(kept), other) == if other == id then Some(version) else Lookup(rows, other) {
        PutLookup(rows, id, version, other);
      }
    } else {
      NothingReplaced(lines, id, row);
      RowReadsBack(id, version);
      RowsSnoc(lines, row, []);
      AppendSound(rows, id, version);
      forall other ensures Lookup(RowsOf(lines + [row]), other) == if other == id then Some(version) else Lookup(rows, other) {
        LookupSnoc(rows, Entry(id, version), other);
      }
    }
  }

  lemma AppendSound(rows: seq<Row<string>>, id: string, version: string)
    requires Sound(rows) && Lookup(rows, id).None? && |rows| < MAX_ROWS
    ensures Sound(rows + [Entry(id, version)])
  {
    hide Distinct, Fresh, NoneBad, Entries;
    NoneBadSnoc(rows, Entry(id, version));
    EntriesSnoc(rows, Entry(id, version));
    DistinctSnoc(Entries(rows), (id, version));
  }

  /** Nothing that the write does not rewrite was hidden from it: all lines were read, or all but the row of the id at the end. */
  predicate Unharmed(lines: seq<string>, seen: seq<string>, id: string) {
    || seen == lines
    || (|lines| == |seen| + 1 && seen == lines[..|seen|]
        && ParseRow(lines[|seen|]).Entry? && ParseRow(lines[|seen|]).id == id)
  }

  /** What a write sees of a well-formed table: its first lines, and when not all of them, then whole ones. */
  lemma SeenIsPrefix(file: string, r: Reading)
    requires NoneBad(RowsOf(Split(file)))
    ensures var (lines, seen) := (Split(file), SeenLines(Some(file), r));
      seen <= lines && (seen != lines ==> forall i | 0 <= i < |seen| :: IsLine(seen[i]))
  {
    hide Split, Delivered, Trim, Parts, SemVer.Valid;
    if r.Reads? {
      DeliveredLines(file, r.errorAt);
      var (lines, seen) := (Split(file), Split(Delivered(file, r.errorAt)));
      if Delivered(file, r.errorAt) != file {
        forall i | 0 <= i < |seen| ensures IsLine(seen[i]) {
          assert IsPiece(seen[i]) && seen[i] == lines[i];
          assert !RowsOf(lines)[i].Bad?;
        }
      }
    }
  }

  /** The hidden last row, appended again, is the row rewritten in its place. */
  lemma AppendedInPlace(lines: seq<string>, seen: seq<string>, id: string, version: string)
    requires Sound(RowsOf(lines)) && seen != lines && Unharmed(lines, seen, id)
    ensures !HasRow(seen, id) && HasRow(lines, id)
    ensures Expected(lines, id, version) == seen + [RowText(id, version)]
  {
    hide ParseRow, RowText, Entries, ValueOf, Distinct;
    var (n, last) := (|seen|, lines[|seen|]);
    assert RowsOf(seen) == RowsOf(lines)[..n];
    FoundAt(RowsOf(lines), n, n);
    NothingReplaced(seen, id, RowText(id, version));
    assert lines == seen + [last];
    ReplaceSnoc(seen, last, id, RowText(id, version));
    var kept := Replace(lines, id, RowText(id, version));
    assert kept + [] == kept;
  }

  /** A part of the table that the write takes for all of it. */
  lemma PartIsWritten(seen: seq<string>, id: string, version: string)
    requires AllLines(seen) && GoodId(id) && GoodVersion(version) && Edited(seen, id, version).Some?
    ensures var out := Edited(seen, id, version).value;
      && Split(Flatten(out)) == out
      && |out| <= |seen| + (if HasRow(seen, id) then 0 else 1)
  {
    hide Split, Flatten, ParseRow, RowText, GoodId, GoodVersion, Replace, IsLine, Unfinished, RowsOf, Lookup;
    var head := Head(seen);
    ReplacedAreLines(head, id, version);
    RowIsLine(id, version);
    SplitOfFlatten(Edited(seen, id, version).value);
  }

  predicate AllLines(lines: seq<string>) {
    forall i | 0 <= i < |lines| :: IsLine(lines[i])
  }

  lemma RowIsLine(id: string, version: string)
    requires GoodId(id) && GoodVersion(version)
    ensures IsLine(RowText(id, version))
  {
    hide RowText, IsLine, SemVer.Valid;
    RowIsTrimmed(id, version);
  }

  /** A write that saw all it had to see leaves the lines that a caller expects. */
  lemma WrittenAsExpected(file: string, r: Reading, id: string, version: string)
    requires Sound(RowsOf(Split(file))) && GoodId(id) && GoodVersion(version)
    requires var seen := SeenLines(Some(file), r);
      Safe(file, id) && Unharmed(Split(file), seen, id) && Edited(seen, id, version).Some?
    ensures var edited := Edited(SeenLines(Some(file), r), id, version);
      && edited.value == Expected(Split(file), id, version) == Split(Flatten(edited.value))
      && |edited.value| <= MAX_LINES
  {
    hide Split, Flatten, ParseRow, RowText, SemVer.Valid, RowsOf, Lookup, AreLines, GoodId, GoodVersion, SeenLines, Expected;
    var (lines, seen) := (Split(file), SeenLines(Some(file), r));
    SeenIsPrefix(file, r);
    GoodPiecesAreLines(file);
    EditedFits(seen, id, version);
    if seen == lines {
      EditedIsExpected(lines, id, version);
    } else {
      AppendedInPlace(lines, seen, id, version);
      EditedIsAppended(seen, id, version);
    }
    ExpectedAreLines(file, id, version);
    SplitOfFlatten(Expected(lines, id, version));
  }

  lemma EditedIsAppended(seen: seq<string>, id: string, version: string)
    requires |seen| < MAX_LINES && !HasRow(seen, id) && Edited(seen, id, version).Some?
    ensures Edited(seen, id, version).value == seen + [RowText(id, version)]
  {
    hide Sound, RowsOf, Lookup, RowText;
  }

  /**
   A successful write of a well-formed table, within its limits, that saw all it had to see: a read of the id gives
   the new version, every other id reads as before, the other lines stay where they were, and the table stays
   well formed.
   */
  lemma WriteThenRead(file: string, r: Reading, id: string, version: string)
    requires Sound(RowsOf(Split(file))) && GoodId(id) && GoodVersion(version)
    requires var seen := SeenLines(Some(file), r);
      Safe(file, id) && Unharmed(Split(file), seen, id) && Edited(seen, id, version).Some?
    ensures var (lines, after) := (Split(file), Split(Flatten(Edited(SeenLines(Some(file), r), id, version).value)));
      && Sound(RowsOf(after))
      && (forall other :: ReadTable(after, other) == NewReading(lines, id, version, other))
      && |lines| <= |after| <= |lines| + 1
      && (forall i | 0 <= i < |lines| && !(ParseRow(lines[i]).Entry? && ParseRow(lines[i]).id == id) :: after[i] == lines[i])
  {
    hide Split, Flatten, ParseRow, RowText, SemVer.Valid, RowsOf, Lookup, GoodId, GoodVersion, ReadTable, SeenLines, Safe, Unharmed;
    WrittenAsExpected(file, r, id, version);
    ExpectedReads(Split(file), id, version);
  }

  lemma EditedFits(lines: seq<string>, id: string, version: string)
    requires Edited(lines, id, version).Some?
    ensures |Edited(lines, id, version).value| <= MAX_LINES
  {
    hide Sound, HasRow, RowText, RowsOf;
  }

  /**
   With a well-formed table, a successful write keeps all the other lines exactly when the table is within its
   limits and nothing else was hidden from the write.
   */
  lemma KeepsLinesIff(file: string, r: Reading, id: string, version: string)
    requires Sound(RowsOf(Split(file))) && GoodId(id) && GoodVersion(version)
    requires Edited(SeenLines(Some(file), r), id, version).Some?
    ensures var (lines, seen) := (Split(file), SeenLines(Some(file), r));
      (Split(Flatten(Edited(seen, id, version).value)) == Expected(lines, id, version))
      <==> (Safe(file, id) && Unharmed(lines, seen, id))
  {
    hide Split, Flatten, ParseRow, RowText, RowsOf, Sound, Lookup, AreLines, GoodId, GoodVersion, Replace, Terminated, SeenLines,
      Unharmed, Expected;
    var (lines, seen) := (Split(file), SeenLines(Some(file), r));
    if Safe(file, id) && Unharmed(lines, seen, id) {
      WrittenAsExpected(file, r, id, version);
    } else if seen != lines {
      HiddenLinesAreLost(file, r, id, version);
    } else if |lines| > MAX_LINES {
      LongTableIsCut(file, id, version);
      ExpectedLength(lines, id, version);
    } else {
      SeenAll(lines, id);
      EditedIsExpected(lines, id, version);
      JoinedLine(file, id, version);
    }
  }

  lemma SeenAll(lines: seq<string>, id: string)
    ensures Unharmed(lines, lines, id)
  {
  }

  lemma ExpectedLength(lines: seq<string>, id: string, version: string)
    ensures |Expected(lines, id, version)| == |lines| + (if HasRow(lines, id) then 0 else 1)
  {
  }

  /** Lines that the write did not see are missing afterwards, except for the row that it writes itself. */
  lemma HiddenLinesAreLost(file: string, r: Reading, id: string, version: string)
    requires Sound(RowsOf(Split(file))) && GoodId(id) && GoodVersion(version)
    requires var seen := SeenLines(Some(file), r);
      && seen != Split(file) && Edited(seen, id, version).Some?
      && !(Safe(file, id) && Unharmed(Split(file), seen, id))
    ensures var seen := SeenLines(Some(file), r);
      Split(Flatten(Edited(seen, id, version).value)) != Expected(Split(file), id, version)
  {
    hide Split, Flatten, ParseRow, RowText, GoodId, GoodVersion, Replace, IsLine, Lookup, SeenLines, Sound, Terminated;
    var (lines, seen) := (Split(file), SeenLines(Some(file), r));
    SeenIsPrefixOf(file, r);
    PartIsWritten(seen, id, version);
    ExpectedLength(lines, id, version);
    var out := Edited(seen, id, version).value;
    if out == Expected(lines, id, version) {
      assert |lines| == |seen| + 1 && HasRow(lines, id) && !HasRow(seen, id);
      LastIsTheRow(lines, seen, id);
      EditedFits(seen, id, version);
      assert false;
    }
  }

  lemma SeenIsPrefixOf(file: string, r: Reading)
    requires Sound(RowsOf(Split(file))) && SeenLines(Some(file), r) != Split(file)
    ensures var (lines, seen) := (Split(file), SeenLines(Some(file), r));
      AllLines(seen) && |seen| < |lines| && seen == lines[..|seen|]
  {
    hide Split, SeenLines, Entries, Distinct, IsLine, ParseRow;
    SeenIsPrefix(file, r);
  }

  lemma LastIsTheRow(lines: seq<string>, seen: seq<string>, id: string)
    requires |lines| == |seen| + 1 && seen == lines[..|seen|] && HasRow(lines, id) && !HasRow(seen, id)
    ensures Unharmed(lines, seen, id)
  {
    hide ParseRow, Entries, ValueOf, Fresh;
    var last := lines[|seen|];
    assert lines == seen + [last];
    RowsSnoc(seen, last, []);
    LookupSnoc(RowsOf(seen), ParseRow(last), id);
  }

  lemma LongTableIsCut(file: string, id: string, version: string)
    requires Sound(RowsOf(Split(file))) && GoodId(id) && GoodVersion(version)
    requires Edited(Split(file), id, version).Some? && |Split(file)| > MAX_LINES
    ensures var head := Split(file)[..MAX_LINES];
      && HasRow(head, id) && Split(Flatten(Edited(Split(file), id, version).value)) == Replace(head, id, RowText(id, version))
  {
    hide Split, Flatten, ParseRow, RowText, RowsOf, Lookup, GoodId, GoodVersion, Replace, IsLine, Unfinished;
    GoodPiecesAreLines(file);
    var head := Split(file)[..MAX_LINES];
    assert AreLines(head) by {
      forall i | 0 <= i < |head| ensures IsLine(head[i]) {
        assert head[i] == Split(file)[i];
      }
    }
    ReplacedAreLines(head, id, version);
    SplitOfFlatten(Replace(head, id, RowText(id, version)));
  }

  lemma JoinedLine(file: string, id: string, version: string)
    requires Sound(RowsOf(Split(file))) && !Terminated(file) && !HasRow(Split(file), id)
    ensures Split(Flatten(Expected(Split(file), id, version))) != Expected(Split(file), id, version)
  {
    hide Split, Flatten, ParseRow, RowText, RowsOf, Lookup, Replace, IsLine;
    var lines := Split(file);
    GoodPiecesAreLines(file);
    TerminatedIff(file);
    NothingReplaced(lines, id, RowText(id, version));
    var out := lines + [RowText(id, version)];
    if Split(Flatten(out)) == out {
      assert |lines| > 0 && Unfinished(out[|lines| - 1]);
      SplitPieces(Flatten(out), |lines| - 1);
      assert false;
    }
  }

  /** In a table of more than 512 lines, an id whose row stands past them is lost by any successful write. */
  lemma PastTheLimitIsLost(file: string, id: string, version: string, j: nat, other: string)
    requires Sound(RowsOf(Split(file))) && GoodId(id) && GoodVersion(version)
    requires Edited(Split(file), id, version).Some?
    requires MAX_LINES <= j < |Split(file)| && ParseRow(Split(file)[j]).Entry? && other == ParseRow(Split(file)[j]).id
    ensures ReadTable(Split(file), other) == Some(ParseRow(Split(file)[j]).value)
    ensures ReadTable(Split(Flatten(Edited(Split(file), id, version).value)), other) == Some(NO_VERSION)
  {
    hide Split, Flatten, ParseRow, RowText, GoodId, GoodVersion, Replace, Entries, Distinct, ValueOf;
    var lines := Split(file);
    var rows := RowsOf(lines);
    var (head, tail) := (lines[..MAX_LINES], lines[MAX_LINES..]);
    assert rows[j] == ParseRow(lines[j]);
    FoundAt(rows, j, MAX_LINES);
    LongTableIsCut(file, id, version);
    assert RowsOf(head) == rows[..MAX_LINES];
    ReplacedRows(head, id, version);
    PutLookup(RowsOf(head), id, version, other);
    PutSound(RowsOf(head), id, version);
  }

  /** In a sound table a row past the first `n` is found, and not among the first `n`. */
  lemma FoundAt(rows: seq<Row<string>>, j: nat, n: nat)
    requires Sound(rows) && n <= j < |rows| && rows[j].Entry?
    ensures Lookup(rows, rows[j].id) == Some(rows[j].value)
    ensures Sound(rows[..n]) && Lookup(rows[..n], rows[j].id) == None
  {
    hide Entries, Distinct, ValueOf;
    var e := (rows[j].id, rows[j].value);
    EntriesAre(rows, e);
    ValueIsMember(Entries(rows), e.0, e.1);
    var (xs, ys) := (rows[..n], rows[n..]);
    assert rows == xs + ys && rows[j] == ys[j - n];
    if !Sound(xs) {
      UnsoundPrefix(xs, ys);
    }
    EntriesAppend(xs, ys);
    EntriesAre(ys, e);
    NotInBoth(Entries(xs), Entries(ys), e);
  }

  lemma NotInBoth(es: seq<(string, string)>, fs: seq<(string, string)>, e: (string, string))
    requires Distinct(es + fs) && e in fs
    ensures Fresh(es, e.0)
  {
    var j :| 0 <= j < |fs| && fs[j] == e;
    forall i | 0 <= i < |es| ensures es[i].0 != e.0 {
      assert (es + fs)[i].0 != (es + fs)[|es| + j].0;
    }
  }

  /** A table without its last newline: the appended row joins the last line, and no id can be read any more. */
  lemma MissingNewlineBreaksTheTable()
    ensures var file := "a=1.0.0";
      var edited := Edited(Split(file), "b", "2.0.0");
      && ReadTable(Split(file), "a") == Some("1.0.0")
      && edited.Some? && Flatten(edited.value) == "a=1.0.0b=2.0.0\n"
      && ReadTable(Split(Flatten(edited.value)), "a") == None
  {
    hide Split, ParseRow;
    var file := "a=1.0.0";
    SplitLast(file);
    OneRow();
    var row := Entry("a", "1.0.0");
    assert RowsOf([file]) == [row];
    OneEntry(row);
    var out := [file] + [RowText("b", "2.0.0")];
    FlattenSnoc([file], RowText("b", "2.0.0"));
    assert [file][1..] == [];
    assert Flatten([file]) == file;
    var joined := "a=1.0.0b=2.0.0\n";
    SplitOfWholeLines([joined]);
    assert [joined][1..] == [];
    assert Flatten([joined]) == joined;
    JoinedRow();
    assert RowsOf([joined])[0].Bad?;
  }

  lemma OneEntry(row: Row<string>)
    requires row.Entry?
    ensures Entries([row]) == [(row.id, row.value)] && Sound([row])
    ensures forall id :: Lookup([row], id) == if id == row.id then Some(row.value) else None
  {
    assert [row][..0] == [];
    forall id ensures Lookup([row], id) == if id == row.id then Some(row.value) else None {
      LookupSnoc([], row, id);
      assert [] + [row] == [row];
    }
  }

  lemma OneRow()
    ensures ParseRow("a=1.0.0") == Entry("a", "1.0.0")
  {
    hide SemVer.Parse, Trim;
    SemVer.SmallVersions();
    TrimKeeps("a=1.0.0");
    TrimKeeps("a");
    TrimKeeps("1.0.0");
    assert "a=1.0.0"[..1] == "a" && "a=1.0.0"[2..] == "1.0.0";
    FindIs("a=1.0.0", '=', 0, 1);
  }

  lemma JoinedRow()
    ensures ParseRow("a=1.0.0b=2.0.0\n").Bad?
  {
    hide SemVer.Valid, Trim;
    var t := "a=1.0.0b=2.0.0";
    TrimKeeps(t);
    assert t + "\n" == "a=1.0.0b=2.0.0\n";
    FindIs(t, '=', 0, 1);
    var version := "1.0.0b=2.0.0";
    assert t[2..] == version;
    TrimKeeps(version);
    assert version[5] == 'b';
    if SemVer.Valid(version) {
      SemVer.OnlyDigitsAndDots(version);
      assert false;
    }
  }

  /**
   A table that exists but cannot be opened is taken for none: a write succeeds, and puts the one row in its place.
   Every other id then reads 0.0.0, whatever the table said.
   */
  lemma UnopenedTableIsReplaced(table: Option<string>, id: string, version: string)
    requires GoodId(id) && GoodVersion(version)
    ensures var edited := Edited(SeenLines(table, Fails), id, version);
      && edited == Some([RowText(id, version)])
      && forall other :: ReadTable(Split(Flatten(edited.value)), other) ==
           Some(if other == id then version else NO_VERSION)
  {
    hide Split, ParseRow, RowText, GoodId, GoodVersion, Lookup;
    var row := RowText(id, version);
    NothingRead("", id, row);
    assert [] + [row] == [row];
    RowIsLine(id, version);
    SplitOfWholeLines([row]);
    RowReadsBack(id, version);
    assert RowsOf([row]) == [Entry(id, version)];
    OneEntry(Entry(id, version));
  }

  /** In particular a table of two rows, within all limits, in which the row to write is there: the other row is lost. */
  lemma UnopenedTableLosesRows()
    ensures var file := "a=1.0.0\nb=1.0.0\n";
      var edited := Edited(SeenLines(Some(file), Fails), "b", "1.0.0");
      && Sound(RowsOf(Split(file))) && Safe(file, "b") && ReadTable(Split(file), "a") == Some("1.0.0")
      && edited.Some? && ReadTable(Split(Flatten(edited.value)), "a") == Some(NO_VERSION)
  {
    hide Split, ParseRow, RowText, SemVer.Parse, Flatten, Lookup, IsLine;
    SemVer.SmallVersions();
    var (a, b, v) := ("a", "b", "1.0.0");
    UnopenedTableIsReplaced(Some("a=1.0.0\nb=1.0.0\n"), b, v);
    RowIsLine(a, v);
    RowIsLine(b, v);
    RowReadsBack(a, v);
    RowReadsBack(b, v);
    var lines := [RowText(a, v), RowText(b, v)];
    SplitOfWholeLines(lines);
    TwoRows();
    var rows := [Entry(a, v), Entry(b, v)];
    assert RowsOf(lines) == rows;
    TwoEntries(Entry(a, v), Entry(b, v));
  }

  lemma TwoRows()
    ensures Flatten([RowText("a", "1.0.0"), RowText("b", "1.0.0")]) == "a=1.0.0\nb=1.0.0\n"
  {
    var lines := [RowText("a", "1.0.0"), RowText("b", "1.0.0")];
    FlattenNothing([]);
    assert lines[1..] == [RowText("b", "1.0.0")] && lines[1..][1..] == [];
    assert Flatten(lines[1..]) == RowText("b", "1.0.0") + "";
  }

  lemma TwoEntries(x: Row<string>, y: Row<string>)
    requires x.Entry? && y.Entry? && x.id != y.id
    ensures Sound([x, y]) && Lookup([x, y], x.id) == Some(x.value) && Lookup([x, y], y.id) == Some(y.value)
  {
    hide Lookup, ValueOf;
    OneEntry(x);
    assert [x] + [y] == [x, y];
    EntriesSnoc([x], y);
    LookupSnoc([x], y, x.id);
    LookupSnoc([x], y, y.id);
  }
}
