/**
 The version table that all clients share: `getCurrentVersion` and `write_version_file` of
 src/client/downloader.c.
 */
module VersionTable {
  import opened Prelude
  import opened KeyValue
  import opened Text
  import opened Rows
  import SemVer

  const MAX_LINES := 512
  const NO_VERSION := "0.0.0"

  function FirstSpace(t: string): (k: nat)
    ensures k <= |t|
  {
    if |t| > 0 && !IsSpace(t[0]) then 1 + FirstSpace(t[1..]) else 0
  }

  /** The id and the version of a row: around the first equals sign, or else around the first space. */
  function Parts(t: string): (string, string) {
    var eq := Find(t, '=', 0);
    if eq < |t| then (Trim(t[..eq]), Trim(t[eq + 1..]))
    else
      var space := FirstSpace(t);
      if space == |t| then ("", "") else (Trim(t[..space]), Trim(t[space + 1..]))
  }

  /** One line of the table. A piece that neither ends a line nor the file is too long. */
  function ParseRow(line: string): Row<string> {
    var t := Trim(line);
    if !Whole(line) then Bad
    else if Ignorable(t) then Blank
    else
      var (id, version) := Parts(t);
      if 0 < |id| < MAX_ID_LEN && |version| < SemVer.MAX_VERSION_STR && SemVer.Valid(version)
      then Entry(id, version) else Bad
  }

  function RowsOf(lines: seq<string>): (rows: seq<Row<string>>)
    ensures |rows| == |lines| && forall i | 0 <= i < |lines| :: rows[i] == ParseRow(lines[i])
  {
    seq(|lines|, i requires 0 <= i < |lines| => ParseRow(lines[i]))
  }

  /** What a read of the table finds for an id. */
  function ReadTable(lines: seq<string>, id: string): Option<string> {
    var found := Lookup(RowsOf(lines), id);
    if !Sound(RowsOf(lines)) then None else if found.Some? then found else Some(NO_VERSION)
  }

  /** The current version of a client; an inline version comes before what can be read of the table. */
  function Current(inline: string, seen: Option<string>, id: string, locked: bool): Option<string> {
    if inline != "" then (if SemVer.Valid(inline) then Some(inline) else None)
    else if !locked || seen.None? then Some(NO_VERSION)
    else ReadTable(Split(seen.value), id)
  }

  /** The lines that a write works on. A table that cannot be opened counts as none. */
  function SeenLines(table: Option<string>, r: Reading): seq<string> {
    var seen := Seen(table, r);
    if seen.None? then [] else Split(seen.value)
  }

  function RowText(id: string, version: string): string {
    id + "=" + version + "\n"
  }

  function ReplaceLine(line: string, id: string, row: string): string {
    if ParseRow(line).Entry? && ParseRow(line).id == id then row else line
  }

  /** The lines with the row of `id` rewritten. */
  function Replace(lines: seq<string>, id: string, row: string): (r: seq<string>)
    ensures |r| == |lines| && forall i | 0 <= i < |lines| :: r[i] == ReplaceLine(lines[i], id, row)
  {
    seq(|lines|, i requires 0 <= i < |lines| => ReplaceLine(lines[i], id, row))
  }

  predicate HasRow(lines: seq<string>, id: string) {
    Lookup(RowsOf(lines), id).Some?
  }

  /** The lines that a write reads: no more than its buffer holds. */
  function Head(lines: seq<string>): (head: seq<string>)
    ensures head <= lines
    ensures |head| == if |lines| < MAX_LINES then |lines| else MAX_LINES
  {
    if |lines| < MAX_LINES then lines else lines[..MAX_LINES]
  }

  /** The lines that a write puts back, or nothing when it refuses. */
  function Edited(lines: seq<string>, id: string, version: string): Option<seq<string>> {
    var head := Head(lines);
    if !Sound(RowsOf(head)) then None
    else if HasRow(head, id) then Some(Replace(head, id, RowText(id, version)))
    else if |head| >= MAX_LINES then None
    else Some(head + [RowText(id, version)])
  }

  /** What the disk does during a write: how the old table reads, the calls that can fail, and how many `fputs` go well. */
  datatype Disk = Disk(reading: Reading, opens: bool, puts: nat, syncs: bool, closes: bool, renames: bool)

  /** Whether a write of `n` lines goes through. */
  predicate Writes(disk: Disk, n: nat) {
    disk.opens && n <= disk.puts && disk.syncs && disk.closes && disk.renames
  }

  /** One call of `write_version_file`: its arguments, and what the lock and the disk do. */
  datatype Call = Call(id: string, version: string, locked: bool, disk: Disk)

  function EditOf(table: Option<string>, w: Call): Option<seq<string>> {
    Edited(SeenLines(table, w.disk.reading), w.id, w.version)
  }

  /** Whether the call succeeds. */
  predicate Lands(table: Option<string>, w: Call) {
    w.id != "" && w.locked && EditOf(table, w).Some? && Writes(w.disk, |EditOf(table, w).value|)
  }

  function AfterCall(table: Option<string>, w: Call): Option<string> {
    if Lands(table, w) then Some(Flatten(EditOf(table, w).value)) else table
  }

  lemma RowsSnoc(lines: seq<string>, line: string, rest: seq<string>)
    ensures RowsOf(lines + [line]) == RowsOf(lines) + [ParseRow(line)]
    ensures RowsOf((lines + [line]) + rest) == RowsOf(lines + [line]) + RowsOf(rest)
  {
    hide ParseRow;
  }

  lemma ReplaceSnoc(lines: seq<string>, line: string, id: string, row: string)
    ensures Replace(lines + [line], id, row) == Replace(lines, id, row) + [ReplaceLine(line, id, row)]
  {
    hide ReplaceLine;
  }

  class VersionFile {
    var text: Option<string>

    constructor (text: Option<string>)
      ensures this.text == text
    {
      this.text := text;
    }

    /** `getCurrentVersion`. */
    method GetCurrentVersion(inline: string, id: string, locked: bool, reading: Reading) returns (version: Option<string>)
      ensures version == Current(inline, Seen(text, reading), id, locked)
    {
      hide Split, Sound, ParseRow, Entries, LineEnd, SeenIds, Admissible, Lookup, RowsOf, SemVer.Valid;
      if inline != "" {
        return if SemVer.Valid(inline) then Some(inline) else None;
      }
      var stream := Seen(text, reading);
      if !locked || stream.None? {
        return Some(NO_VERSION);
      }
      var file := stream.value;
      var seen := new string[MAX_ROWS];
      var seenCount := 0;
      var found: Option<string> := None;
      var pos := 0;
      ghost var lines: seq<string> := [];
      NothingRead(file, id, "");
      assert seen[..0] == [];
      while pos < |file|
        invariant pos <= |file| && Split(file) == lines + Split(file[pos..])
        invariant Sound(RowsOf(lines)) && seenCount <= MAX_ROWS && SeenIds(seen[..seenCount], Entries(RowsOf(lines)))
        invariant found == Lookup(RowsOf(lines), id)
      {
        var end := pos + LineEnd(file[pos..], LINE_CAP);
        var line := file[pos..end];
        NextPiece(file, pos, lines);
        ghost var row := ParseRow(line);
        RowsSnoc(lines, line, Split(file[end..]));
        SoundSnoc(RowsOf(lines), row, seen[..seenCount]);
        AfterRow(RowsOf(lines), row, seen[..seenCount], id);
        var ok, entry := ReadRow(line, seen, seenCount);
        if !ok {
          UnsoundPrefix(RowsOf(lines + [line]), RowsOf(Split(file[end..])));
          return None;
        }
        if entry.Some? {
          seenCount := seenCount + 1;
          if entry.value.0 == id {
            found := Some(entry.value.1);
          }
        }
        lines := lines + [line];
        pos := end;
      }
      SplitNothing();
      assert file[pos..] == "" && lines + [] == lines;
      version := if found.Some? then found else Some(NO_VERSION);
    }

    /**
     `write_version_file`: read what can be read into an array of lines, rewrite or append the row, write them all
     to a temporary file and rename it over the table.
     */
    method Write(id: string, version: string, locked: bool, disk: Disk) returns (ok: bool)
      modifies this
      ensures ok == Lands(old(text), Call(id, version, locked, disk))
      ensures text == AfterCall(old(text), Call(id, version, locked, disk))
    {
      hide Edited, Split, Flatten, Replace;
      if id == "" || !locked {
        return false;
      }
      var lines := new string[MAX_LINES];
      var stream := Seen(text, disk.reading);
      var file := if stream.Some? then stream.value else "";
      SplitNothing();
      var read, count := ReadForWrite(file, id, version, lines);
      if !read {
        return false;
      }
      if !disk.opens {
        return false;
      }
      var tmp := "";
      var i := 0;
      ghost var kept := lines[..count];
      FlattenNothing(lines[..0]);
      while i < count && i < disk.puts
        invariant i <= count && i <= disk.puts && tmp == Flatten(lines[..i])
        invariant lines[..count] == kept && text == old(text)
      {
        assert lines[..i + 1] == lines[..i] + [lines[i]];
        FlattenSnoc(lines[..i], lines[i]);
        tmp := tmp + lines[i];
        i := i + 1;
      }
      assert i == count ==> tmp == Flatten(kept);
      ok := i == count && disk.syncs && disk.closes && disk.renames;
      if ok {
        text := Some(tmp);
      }
    }
  }

  lemma FlattenNothing(xs: seq<string>)
    requires |xs| == 0
    ensures Flatten(xs) == ""
  {
  }

  lemma NothingRead(file: string, id: string, row: string)
    ensures Split(file) == [] + Split(file[0..])
    ensures Sound(RowsOf([])) && SeenIds([], Entries(RowsOf([]))) && Lookup(RowsOf([]), id) == None
    ensures Replace([], id, row) == []
  {
    hide Split;
    assert file[0..] == file;
    assert RowsOf([]) == [];
  }

  /** The loop body of a read: whether to go on, and the entry of the line, if any. */
  method ReadRow(line: string, seen: array<string>, seenCount: nat)
    returns (ok: bool, entry: Option<(string, string)>)
    requires seenCount <= seen.Length == MAX_ROWS
    modifies seen
    ensures ok <==> Admissible(ParseRow(line), old(seen[..seenCount]))
    ensures ok ==> (entry.Some? <==> ParseRow(line).Entry?)
    ensures ok && entry.None? ==> seen[..seenCount] == old(seen[..seenCount])
    ensures ok && entry.Some? ==>
      && ParseRow(line) == Entry(entry.value.0, entry.value.1) && seenCount < MAX_ROWS
      && seen[..seenCount + 1] == old(seen[..seenCount]) + [entry.value.0]
  {
    hide Trim, Parts, SemVer.Valid;
    if !Whole(line) {
      return false, None;
    }
    var t := Trim(line);
    if Ignorable(t) {
      return true, None;
    }
    var (id, version) := Parts(t);
    if |id| >= MAX_ID_LEN || |version| >= SemVer.MAX_VERSION_STR || id == "" || !SemVer.Valid(version) {
      return false, None;
    }
    ok := Remember(seen, seenCount, id);
    entry := if ok then Some((id, version)) else None;
  }

  /** The first half of a write: the lines to put back, in the array. */
  method ReadForWrite(file: string, id: string, version: string, lines: array<string>) returns (ok: bool, count: nat)
    requires lines.Length == MAX_LINES
    modifies lines
    ensures count <= MAX_LINES
    ensures Edited(Split(file), id, version) == if ok then Some(lines[..count]) else None
  {
    hide Split, Sound, ParseRow, Entries, LineEnd, SeenIds, Admissible, Lookup, RowsOf, Replace, RowText, Edited, Head, Whole;
    var row := RowText(id, version);
    var seen := new string[MAX_ROWS];
    var seenCount := 0;
    var updated := false;
    var pos := 0;
    count := 0;
    ghost var all := Split(file);
    ghost var read: seq<string> := [];
    NothingRead(file, id, row);
    assert seen[..0] == [] && lines[..0] == [];
    while count < MAX_LINES && pos < |file|
      invariant pos <= |file| && all == read + Split(file[pos..]) && count == |read| <= MAX_LINES
      invariant Sound(RowsOf(read)) && seenCount <= MAX_ROWS && SeenIds(seen[..seenCount], Entries(RowsOf(read)))
      invariant updated <==> HasRow(read, id)
      invariant lines[..count] == Replace(read, id, row)
    {
      var end := pos + LineEnd(file[pos..], LINE_CAP);
      var line := file[pos..end];
      NextPiece(file, pos, read);
      ghost var parsed := ParseRow(line);
      ghost var rest := Split(file[end..]);
      RowsSnoc(read, line, rest);
      SoundSnoc(RowsOf(read), parsed, seen[..seenCount]);
      AfterRow(RowsOf(read), parsed, seen[..seenCount], id);
      ReplaceSnoc(read, line, id, row);
      var good, entry := ReadRow(line, seen, seenCount);
      if !good {
        RefusedLine(all, read + [line], rest, id, version);
        return false, 0;
      }
      lines[count] := line;
      if entry.Some? {
        seenCount := seenCount + 1;
        if entry.value.0 == id {
          lines[count] := row;
          updated := true;
        }
      }
      assert lines[..count + 1] == lines[..count] + [lines[count]];
      count := count + 1;
      read := read + [line];
      pos := end;
    }
    LastRead(file, pos, read, all);
    EditedIs(all, read, id, version);
    if !updated && count >= MAX_LINES {
      return false, 0;
    }
    if !updated {
      lines[count] := row;
      assert lines[..count + 1] == lines[..count] + [row];
      count := count + 1;
    }
    ok := true;
  }

  lemma EditedIs(all: seq<string>, read: seq<string>, id: string, version: string)
    requires read == Head(all) && Sound(RowsOf(read))
    ensures var (row, kept) := (RowText(id, version), Replace(read, id, RowText(id, version)));
      Edited(all, id, version) ==
        if HasRow(read, id) then Some(kept) else if |read| >= MAX_LINES then None else Some(kept + [row])
  {
    hide Sound, HasRow, Replace, RowText, RowsOf;
    if !HasRow(read, id) {
      NothingReplaced(read, id, RowText(id, version));
    }
  }

  lemma LastRead(file: string, pos: nat, read: seq<string>, all: seq<string>)
    requires pos <= |file| && all == read + Split(file[pos..])
    requires |read| == MAX_LINES || (pos == |file| && |read| < MAX_LINES)
    ensures read == Head(all)
  {
    hide Split;
    SplitNothing();
    assert pos == |file| ==> file[pos..] == "" && read + [] == read;
  }

  lemma RefusedLine(all: seq<string>, read: seq<string>, rest: seq<string>, id: string, version: string)
    requires all == read + rest && |read| <= MAX_LINES && !Sound(RowsOf(read))
    ensures Edited(all, id, version) == None
  {
    hide Sound, ParseRow;
    var head := Head(all);
    var more := head[|read|..];
    assert head == read + more;
    assert RowsOf(head) == RowsOf(read) + RowsOf(more);
    UnsoundPrefix(RowsOf(read), RowsOf(more));
  }

  /** Without a row for the id, nothing is replaced. */
  lemma NothingReplaced(lines: seq<string>, id: string, row: string)
    requires !HasRow(lines, id)
    ensures Replace(lines, id, row) == lines
  {
    hide ParseRow, Entries, ValueOf;
    forall i | 0 <= i < |lines| ensures ReplaceLine(lines[i], id, row) == lines[i] {
      if ParseRow(lines[i]).Entry? && ParseRow(lines[i]).id == id {
        var e := (id, ParseRow(lines[i]).value);
        assert RowsOf(lines)[i] == Entry(e.0, e.1);
        EntriesAre(RowsOf(lines), e);
      }
    }
  }
}
