/** Any number of clients that write the shared version table, one after the other. */
module VersionTableRuns {
  import opened Prelude
  import opened Text
  import opened Rows
  import opened VersionTable
  import opened VersionTableLaws
  import SemVer

  /** The lines of a table; a missing one has none. */
  function Lines(table: Option<string>): seq<string> {
    if table.None? then [] else Split(table.value)
  }

  /** A well-formed table within the limits of a write. */
  predicate Proper(table: Option<string>) {
    && Sound(RowsOf(Lines(table))) && |Lines(table)| <= MAX_LINES
    && forall i | 0 <= i < |Lines(table)| :: IsLine(Lines(table)[i])
  }

  /** The write is of a row that a table can hold, and nothing that it does not rewrite was hidden from it. */
  predicate Fits(table: Option<string>, w: Call) {
    GoodId(w.id) && GoodVersion(w.version) && Unharmed(Lines(table), SeenLines(table, w.disk.reading), w.id)
  }

  /** The table after a series of writes; those that fail leave it alone. */
  function TableAfter(table: Option<string>, writes: seq<Call>): Option<string> {
    if |writes| == 0 then table
    else AfterCall(TableAfter(table, writes[..|writes| - 1]), writes[|writes| - 1])
  }

  /** Each write that succeeds fits the table it finds. */
  predicate AllFit(table: Option<string>, writes: seq<Call>) {
    |writes| > 0 ==>
      var (init, w) := (writes[..|writes| - 1], writes[|writes| - 1]);
      AllFit(table, init) && (Lands(TableAfter(table, init), w) ==> Fits(TableAfter(table, init), w))
  }

  /** What the client with this id should read: the version of its last write that succeeded, or what was there. */
  function LastWritten(table: Option<string>, writes: seq<Call>, id: string): Option<string> {
    if |writes| == 0 then ReadTable(Lines(table), id)
    else
      var (init, w) := (writes[..|writes| - 1], writes[|writes| - 1]);
      if w.id == id && Lands(TableAfter(table, init), w) then Some(w.version) else LastWritten(table, init, id)
  }

  // ---- One write ----

  lemma TerminatedTable(file: string)
    requires Proper(Some(file))
    ensures Terminated(file)
  {
    hide IsLine, Unfinished, Sound, RowsOf, Split, Terminated;
    TerminatedIff(file);
  }

  lemma ExpectedAllLines(lines: seq<string>, id: string, version: string)
    requires AllLines(lines) && GoodId(id) && GoodVersion(version)
    ensures AllLines(Expected(lines, id, version))
  {
    hide RowText, IsLine, ParseRow, GoodId, GoodVersion, HasRow;
    RowIsLine(id, version);
    var kept := Replace(lines, id, RowText(id, version));
    forall i | 0 <= i < |kept| ensures IsLine(kept[i]) {
      assert kept[i] == RowText(id, version) || kept[i] == lines[i];
    }
  }

  lemma PutKeepsFile(file: string, w: Call)
    requires Proper(Some(file)) && Lands(Some(file), w) && Fits(Some(file), w)
    ensures var after := AfterCall(Some(file), w);
      && Proper(after)
      && forall id :: ReadTable(Lines(after), id) == NewReading(Lines(Some(file)), w.id, w.version, id)
  {
    hide Split, Flatten, RowsOf, Sound, GoodId, GoodVersion, ReadTable, SeenLines, Unharmed, Edited, Writes, IsLine, Terminated, HasRow,
      Expected;
    TerminatedTable(file);
    WrittenAsExpected(file, w.disk.reading, w.id, w.version);
    WriteThenRead(file, w.disk.reading, w.id, w.version);
    ExpectedAllLines(Split(file), w.id, w.version);
  }

  /** A missing table is like an empty one. */
  lemma MissingIsEmpty(w: Call)
    ensures Lines(None) == Lines(Some("")) == []
    ensures EditOf(None, w) == EditOf(Some(""), w.(disk := w.disk.(reading := Reads(None))))
    ensures SeenLines(Some(""), Reads(None)) == [] == SeenLines(None, w.disk.reading)
  {
    hide Edited;
    SplitNothing();
  }

  lemma PutKeepsTable(table: Option<string>, w: Call)
    requires Proper(table) && Lands(table, w) && Fits(table, w)
    ensures var after := AfterCall(table, w);
      && Proper(after)
      && forall id :: ReadTable(Lines(after), id) == NewReading(Lines(table), w.id, w.version, id)
  {
    if table.Some? {
      PutKeepsFile(table.value, w);
    } else {
      hide Split, Flatten, RowsOf, Sound, GoodId, GoodVersion, ReadTable, SeenLines, Edited, IsLine;
      MissingIsEmpty(w);
      PutKeepsFile("", w.(disk := w.disk.(reading := Reads(None))));
    }
  }

  // ---- Any number of writes ----

  /**
   Over any series of writes by any clients, of which some may fail: the table stays well formed and within the
   limits, and every id reads the version of its own last successful write, or what it read at the start.
   */
  lemma {:induction false} EveryClientReadsItsLastWrite(table: Option<string>, writes: seq<Call>)
    requires Proper(table) && AllFit(table, writes)
    ensures Proper(TableAfter(table, writes))
    ensures forall id :: ReadTable(Lines(TableAfter(table, writes)), id) == LastWritten(table, writes, id)
  {
    hide Proper, Lands, Fits, ReadTable, Lines, AfterCall;
    if |writes| > 0 {
      var (init, w) := (writes[..|writes| - 1], writes[|writes| - 1]);
      EveryClientReadsItsLastWrite(table, init);
      var before := TableAfter(table, init);
      if Lands(before, w) {
        PutKeepsTable(before, w);
      } else {
        PutFails(before, w);
      }
    }
  }

  lemma PutFails(table: Option<string>, w: Call)
    requires !Lands(table, w)
    ensures AfterCall(table, w) == table
  {
    hide Lands;
  }

  // ---- The same for what `getCurrentVersion` answers ----

  /** The answer without an inline version, with the lock and a table that reads well. */
  function CurrentOf(table: Option<string>, id: string): Option<string> {
    Current("", Seen(table, Reads(None)), id, true)
  }

  lemma CurrentIsReading(table: Option<string>, id: string)
    ensures CurrentOf(table, id) == ReadTable(Lines(table), id)
  {
    hide Split, ParseRow;
    assert RowsOf([]) == [];
  }

  /** After a write its client is at the version written, and no other client's answer has changed. */
  lemma WriteThenCurrent(table: Option<string>, w: Call, id: string)
    requires Proper(table) && Lands(table, w) && Fits(table, w)
    ensures CurrentOf(AfterCall(table, w), id) == if id == w.id then Some(w.version) else CurrentOf(table, id)
  {
    hide Proper, Lands, Fits, ReadTable, Lines, AfterCall, CurrentOf;
    PutKeepsTable(table, w);
    CurrentIsReading(AfterCall(table, w), id);
    CurrentIsReading(table, id);
  }

  /** Over any such series of writes every client is at the version of its own last one that succeeded. */
  lemma EveryClientIsCurrent(table: Option<string>, writes: seq<Call>, id: string)
    requires Proper(table) && AllFit(table, writes)
    ensures CurrentOf(TableAfter(table, writes), id) == LastWritten(table, writes, id)
  {
    hide Proper, AllFit, ReadTable, Lines, TableAfter, LastWritten, CurrentOf;
    EveryClientReadsItsLastWrite(table, writes);
    CurrentIsReading(TableAfter(table, writes), id);
  }

  /** In a proper table a write with a good row, that sees all lines, fails only for want of a free line, the lock or the disk. */
  lemma LandsIff(table: Option<string>, w: Call)
    requires Proper(table) && GoodId(w.id) && GoodVersion(w.version) && SeenLines(table, w.disk.reading) == Lines(table)
    ensures var lines := Lines(table);
      Lands(table, w) <==>
        && (HasRow(lines, w.id) || |lines| < MAX_LINES)
        && w.locked && Writes(w.disk, |lines| + (if HasRow(lines, w.id) then 0 else 1))
  {
    hide Split, RowsOf, Sound, Lookup, RowText, SeenLines, IsLine, SemVer.Valid;
    assert Head(Lines(table)) == Lines(table);
  }
}
