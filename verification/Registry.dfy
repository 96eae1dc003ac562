/** The client registry: `auth_client_status` of src/common/auth.c. */
module Registry {
  import opened Prelude
  import opened KeyValue
  import opened Text
  import opened Rows
  import Hex

  datatype Status = Ok | NotFound | Disabled | Invalid

  predicate EnabledWord(state: string) {
    state == "" || Hex.EqualIgnoringCase(state, "enabled") || Hex.EqualIgnoringCase(state, "allow") || state == "1"
  }

  predicate DisabledWord(state: string) {
    Hex.EqualIgnoringCase(state, "disabled") || Hex.EqualIgnoringCase(state, "deny") || state == "0"
  }

  /** The separator is the first colon, or the first equals sign when there is no colon. */
  function Separator(t: string): (k: nat)
    ensures k <= |t|
  {
    var colon := Find(t, ':', 0);
    if colon < |t| then colon else Find(t, '=', 0)
  }

  /** The id of a row, after trimming. */
  function IdOf(t: string): string {
    Trim(t[..Separator(t)])
  }

  function StateOf(t: string): string {
    var sep := Separator(t);
    if sep < |t| then Trim(t[sep + 1..]) else ""
  }

  predicate GoodId(id: string) { 0 < |id| < MAX_ID_LEN }

  /** One line of the registry. A piece that neither ends a line nor the file is too long. */
  function ParseRow(line: string): Row<bool> {
    var t := Trim(line);
    if !Whole(line) then Bad
    else if Ignorable(t) then Blank
    else if !GoodId(IdOf(t)) || !(EnabledWord(StateOf(t)) || DisabledWord(StateOf(t))) then Bad
    else Entry(IdOf(t), EnabledWord(StateOf(t)))
  }

  function RowsOf(lines: seq<string>): (rows: seq<Row<bool>>)
    ensures |rows| == |lines| && forall i | 0 <= i < |lines| :: rows[i] == ParseRow(lines[i])
  {
    seq(|lines|, i requires 0 <= i < |lines| => ParseRow(lines[i]))
  }

  /** The decision about one id. */
  function StatusOf(rows: seq<Row<bool>>, id: string): Status {
    if id == "" || !Sound(rows) then Invalid else Verdict(Lookup(rows, id))
  }

  function Verdict(enabled: Option<bool>): Status {
    if enabled.None? then NotFound else if enabled.value then Ok else Disabled
  }

  /** `auth_client_status`: one pass over what can be read of the file, that stops at the first bad line. */
  method AuthClientStatus(registry: Option<string>, reading: Reading, id: string) returns (status: Status)
    ensures var seen := Seen(registry, reading);
      status == if seen.None? then Invalid else StatusOf(RowsOf(Split(seen.value)), id)
    ensures forall clients :: AreClients(clients) && id != "" && Printed(clients, registry, reading) ==>
      status == if (id, true) in clients then Ok else if (id, false) in clients then Disabled else NotFound
  {
    hide Split, Sound, ParseRow, Entries, LineEnd, SeenIds, Admissible, Lookup, RowsOf, AreClients;
    var stream := Seen(registry, reading);
    forall clients | AreClients(clients) && id != "" && Printed(clients, registry, reading)
      ensures stream.Some? && StatusOf(RowsOf(Split(stream.value)), id) ==
        if (id, true) in clients then Ok else if (id, false) in clients then Disabled else NotFound
    {
      PrintedRegistry(clients, id);
    }
    if id == "" || stream.None? {
      return Invalid;
    }
    var file := stream.value;
    var seen := new string[MAX_ROWS];
    var seenCount := 0;
    var result := NotFound;
    var pos := 0;
    ghost var lines: seq<string> := [];
    NothingSeen(file, id);
    assert seen[..0] == [];
    while pos < |file|
      invariant pos <= |file| && Split(file) == lines + Split(file[pos..])
      invariant Sound(RowsOf(lines)) && seenCount <= MAX_ROWS && SeenIds(seen[..seenCount], Entries(RowsOf(lines)))
      invariant result == Verdict(Lookup(RowsOf(lines), id))
    {
      var end := pos + LineEnd(file[pos..], LINE_CAP);
      var line := file[pos..end];
      NextPiece(file, pos, lines);
      ghost var row := ParseRow(line);
      RowsSnoc(lines, line, Split(file[end..]));
      SoundSnoc(RowsOf(lines), row, seen[..seenCount]);
      AfterRow(RowsOf(lines), row, seen[..seenCount], id);
      var ok, entry, enabled := ReadLine(line, seen, seenCount);
      if !ok {
        UnsoundPrefix(RowsOf(lines + [line]), RowsOf(Split(file[end..])));
        return Invalid;
      }
      if entry.Some? {
        seenCount := seenCount + 1;
        if entry.value == id {
          result := if enabled then Ok else Disabled;
        }
      }
      lines := lines + [line];
      pos := end;
    }
    SplitNothing();
    assert file[pos..] == "" && lines + [] == lines;
    status := result;
  }

  lemma NothingSeen(file: string, id: string)
    ensures Split(file) == [] + Split(file[0..])
    ensures Sound(RowsOf([])) && SeenIds([], Entries(RowsOf([]))) && Verdict(Lookup(RowsOf([]), id)) == NotFound
  {
    hide Split;
    assert file[0..] == file;
    assert RowsOf([]) == [];
  }

  lemma RowsSnoc(lines: seq<string>, line: string, rest: seq<string>)
    ensures RowsOf(lines + [line]) == RowsOf(lines) + [ParseRow(line)]
    ensures RowsOf((lines + [line]) + rest) == RowsOf(lines + [line]) + RowsOf(rest)
  {
    hide ParseRow;
  }

  /** The body of the loop for one line: whether to go on, and the entry found, if any. */
  method ReadLine(line: string, seen: array<string>, seenCount: nat)
    returns (ok: bool, entry: Option<string>, enabled: bool)
    requires seenCount <= seen.Length == MAX_ROWS
    modifies seen
    ensures ok <==> Admissible(ParseRow(line), old(seen[..seenCount]))
    ensures ok ==> (entry.Some? <==> ParseRow(line).Entry?)
    ensures ok && entry.None? ==> seen[..seenCount] == old(seen[..seenCount])
    ensures ok && entry.Some? ==>
      && ParseRow(line) == Entry(entry.value, enabled) && seenCount < MAX_ROWS
      && seen[..seenCount + 1] == old(seen[..seenCount]) + [entry.value]
  {
    hide Trim, IdOf, StateOf, EnabledWord, DisabledWord;
    entry, enabled := None, false;
    if !Whole(line) {
      return false, None, false;
    }
    var t := Trim(line);
    if Ignorable(t) {
      return true, None, false;
    }
    var name := IdOf(t);
    if !GoodId(name) {
      return false, None, false;
    }
    var isNew := Remember(seen, seenCount, name);
    if !isNew {
      return false, None, false;
    }
    var state := StateOf(t);
    if EnabledWord(state) {
      return true, Some(name), true;
    }
    if DisabledWord(state) {
      return true, Some(name), false;
    }
    ok := false;
  }

  // ---- What a row means ----

  /** An id that a row can hold. */
  predicate IsName(id: string) {
    0 < |id| < MAX_ID_LEN && IsTrimmed(id) && ':' !in id && '=' !in id && id[0] != '#'
  }

  /** The end of a line, or of the file. */
  predicate IsEnd(end: string) {
    end == "" || end == "\n" || end == "\r\n"
  }

  /** Around the separator of a trimmed row. */
  lemma SplitAtSeparator(id: string, right: string, sep: char, rest: string)
    requires ':' !in id && '=' !in id && IsPad(right)
    requires sep == ':' || (sep == '=' && ':' !in rest)
    ensures var t := id + right + [sep] + rest;
      Separator(t) == |id + right| && t[..|id + right|] == id + right && t[|id + right| + 1..] == rest
  {
    var head := id + right;
    var t := head + [sep] + rest;
    assert t[0..|head|] == head;
    if sep == '=' {
      assert ':' !in t[0..|t|];
      FindIs(t, ':', 0, |t|);
    }
    FindIs(t, sep, 0, |head|);
  }

  /** The trimmed row, cut at its separator. */
  lemma PartsOfRow(left: string, id: string, mid: string, sep: char, pad: string, word: string, right: string, end: string)
    requires IsPad(left) && IsPad(mid) && IsPad(pad) && IsPad(right) && IsEnd(end)
    requires IsName(id) && IsTrimmed(word) && word != "" && (sep == ':' || (sep == '=' && ':' !in word))
    ensures var t := id + mid + [sep] + (pad + word);
      && Trim(left + t + right + end) == t && IdOf(t) == id && StateOf(t) == word && !Ignorable(t)
  {
    hide Trim, Separator;
    var t := id + mid + [sep] + (pad + word);
    TrimPadded(left, t, right, end);
    SplitAtSeparator(id, mid, sep, pad + word);
    TrimPadded(pad, word, "", "");
    assert pad + word + "" + "" == pad + word;
    TrimPadded("", id, mid, "");
    assert "" + id + mid + "" == id + mid;
  }

  /** The same when nothing but padding follows the separator. */
  lemma PartsWithoutWord(left: string, id: string, mid: string, sep: char, pad: string, end: string)
    requires IsPad(left) && IsPad(mid) && IsPad(pad) && IsEnd(end) && IsName(id) && (sep == ':' || sep == '=')
    ensures var t := id + mid + [sep];
      && Trim(left + t + pad + end) == t && IdOf(t) == id && StateOf(t) == "" && !Ignorable(t)
  {
    hide Trim, Separator;
    var t := id + mid + [sep];
    TrimPadded(left, t, pad, end);
    assert t == id + mid + [sep] + "";
    SplitAtSeparator(id, mid, sep, "");
    TrimKeeps("");
    TrimPadded("", id, mid, "");
    assert "" + id + mid + "" == id + mid;
  }

  /** What the word of a row says, if anything. */
  lemma RowOfParts(line: string, id: string, word: string)
    requires |line| < LINE_CAP && !Ignorable(Trim(line)) && IdOf(Trim(line)) == id && StateOf(Trim(line)) == word && IsName(id)
    ensures ParseRow(line) ==
      if word == "" || word == "1" || Hex.EqualIgnoringCase(word, "enabled") || Hex.EqualIgnoringCase(word, "allow")
      then Entry(id, true)
      else if word == "0" || Hex.EqualIgnoringCase(word, "disabled") || Hex.EqualIgnoringCase(word, "deny")
      then Entry(id, false)
      else Bad
  {
    hide Trim, Separator, IdOf, StateOf, Hex.EqualIgnoringCase;
  }

  /**
   A row with a separator, with padding anywhere around its two parts: the id is the part before the first colon
   (the first equals sign when there is none), and the words are those of the registry, in any letter case.
   */
  lemma RowWithWord(left: string, id: string, mid: string, sep: char, pad: string, word: string, right: string, end: string)
    requires IsPad(left) && IsPad(mid) && IsPad(pad) && IsPad(right) && IsEnd(end)
    requires IsName(id) && IsTrimmed(word) && (sep == ':' || (sep == '=' && ':' !in word))
    requires |left + (id + mid + [sep] + (pad + word)) + right + end| < LINE_CAP
    ensures ParseRow(left + (id + mid + [sep] + (pad + word)) + right + end) ==
      if word == "" || word == "1" || Hex.EqualIgnoringCase(word, "enabled") || Hex.EqualIgnoringCase(word, "allow")
      then Entry(id, true)
      else if word == "0" || Hex.EqualIgnoringCase(word, "disabled") || Hex.EqualIgnoringCase(word, "deny")
      then Entry(id, false)
      else Bad
  {
    hide ParseRow, Trim, IdOf, StateOf, Separator, Hex.EqualIgnoringCase, IsName, Ignorable;
    var line := left + (id + mid + [sep] + (pad + word)) + right + end;
    if word == "" {
      assert line == left + (id + mid + [sep]) + (pad + right) + end;
      PartsWithoutWord(left, id, mid, sep, pad + right, end);
    } else {
      PartsOfRow(left, id, mid, sep, pad, word, right, end);
    }
    RowOfParts(line, id, word);
  }

  /** A row without a separator enables its id. */
  lemma RowWithoutWord(left: string, id: string, right: string, end: string)
    requires IsPad(left) && IsPad(right) && IsEnd(end) && IsName(id)
    requires |left + id + right + end| < LINE_CAP
    ensures ParseRow(left + id + right + end) == Entry(id, true)
  {
    hide Trim;
    TrimPadded(left, id, right, end);
    assert id[0..|id|] == id;
    FindIs(id, ':', 0, |id|);
    FindIs(id, '=', 0, |id|);
    assert id[..|id|] == id;
    TrimKeeps(id);
  }

  /** A line with nothing on it and a comment do not count. */
  lemma BlankRows(left: string, comment: string, right: string, end: string)
    requires IsPad(left) && IsPad(right) && IsEnd(end) && IsTrimmed(comment) && (comment != "" ==> comment[0] == '#')
    requires |left + comment + right + end| < LINE_CAP
    ensures ParseRow(left + comment + right + end) == Blank
  {
    hide Trim;
    TrimPadded(left, comment, right, end);
  }

  /** A row without an id, or with a longer one, is refused whatever its word. */
  lemma RowWithoutName(id: string, sep: char, word: string, end: string)
    requires IsTrimmed(id) && ':' !in id && '=' !in id && (id == "" || |id| >= MAX_ID_LEN) && (id != "" ==> id[0] != '#')
    requires IsTrimmed(word) && (sep == ':' || (sep == '=' && ':' !in word)) && IsEnd(end)
    requires |id + [sep] + word + end| < LINE_CAP
    ensures ParseRow(id + [sep] + word + end) == Bad
  {
    hide Trim, Separator, Hex.EqualIgnoringCase;
    var t := id + [sep] + word;
    assert id + [sep] + word + end == "" + t + "" + end;
    TrimPadded("", t, "", end);
    assert t == id + "" + [sep] + word;
    SplitAtSeparator(id, "", sep, word);
    assert id + "" == id;
    TrimKeeps(id);
  }

  /** A row as an administrator writes it. */
  lemma PlainRow(id: string, sep: char, word: string)
    requires IsName(id) && IsTrimmed(word) && (sep == ':' || (sep == '=' && ':' !in word)) && |id| + |word| < LINE_CAP - 3
    ensures ParseRow(id + [sep] + word + "\n") ==
      if word == "" || word == "1" || Hex.EqualIgnoringCase(word, "enabled") || Hex.EqualIgnoringCase(word, "allow")
      then Entry(id, true)
      else if word == "0" || Hex.EqualIgnoringCase(word, "disabled") || Hex.EqualIgnoringCase(word, "deny")
      then Entry(id, false)
      else Bad
  {
    hide ParseRow, Hex.EqualIgnoringCase, IsName;
    RowWithWord("", id, "", sep, "", word, "", "\n");
    assert "" + (id + "" + [sep] + ("" + word)) + "" + "\n" == id + [sep] + word + "\n";
  }

  lemma RowExamples()
    ensures ParseRow("c1:enabled\n") == Entry("c1", true)
    ensures ParseRow("c1:disabled\n") == Entry("c1", false)
  {
    hide ParseRow;
    PlainRow("c1", ':', "enabled");
    PlainRow("c1", ':', "disabled");
    hide Hex.EqualIgnoringCase;
    assert "c1" + [':'] + "enabled" + "\n" == "c1:enabled\n";
    assert "c1" + [':'] + "disabled" + "\n" == "c1:disabled\n";
  }

  /** Letter case does not matter, and a word that the registry does not have makes the row bad. */
  lemma OtherWords()
    ensures ParseRow("c1=Deny\n") == Entry("c1", false)
    ensures ParseRow("c1:yes\n") == Bad
  {
    hide ParseRow;
    PlainRow("c1", '=', "Deny");
    PlainRow("c1", ':', "yes");
    hide Hex.EqualIgnoringCase;
    assert "c1" + ['='] + "Deny" + "\n" == "c1=Deny\n";
    assert "c1" + [':'] + "yes" + "\n" == "c1:yes\n";
  }

  // ---- A printed registry ----

  /** One row for each client, with its flag. */
  function PrintedRow(client: (string, bool)): string {
    client.0 + [':'] + (if client.1 then "enabled" else "disabled") + "\n"
  }

  function PrintedRows(clients: seq<(string, bool)>): (lines: seq<string>)
    ensures |lines| == |clients| && forall i | 0 <= i < |clients| :: lines[i] == PrintedRow(clients[i])
  {
    seq(|clients|, i requires 0 <= i < |clients| => PrintedRow(clients[i]))
  }

  predicate AreClients(clients: seq<(string, bool)>) {
    && (forall i | 0 <= i < |clients| :: IsName(clients[i].0))
    && Distinct(clients) && |clients| <= MAX_ROWS
  }

  /** The registry is the one printed for these clients, and it can be read. */
  ghost predicate Printed(clients: seq<(string, bool)>, registry: Option<string>, reading: Reading) {
    registry == Some(Flatten(PrintedRows(clients))) && reading == Reads(None)
  }

  lemma PrintedRowMeans(client: (string, bool))
    requires IsName(client.0)
    ensures ParseRow(PrintedRow(client)) == Entry(client.0, client.1) && IsLine(PrintedRow(client))
  {
    hide ParseRow;
    PlainRow(client.0, ':', if client.1 then "enabled" else "disabled");
  }

  lemma {:induction false} PrintedEntries(clients: seq<(string, bool)>)
    requires forall i | 0 <= i < |clients| :: IsName(clients[i].0)
    ensures Entries(RowsOf(PrintedRows(clients))) == clients
    ensures NoneBad(RowsOf(PrintedRows(clients)))
    ensures forall i | 0 <= i < |clients| :: IsLine(PrintedRows(clients)[i])
  {
    hide ParseRow, PrintedRow, IsName, IsLine;
    if |clients| > 0 {
      var n := |clients| - 1;
      PrintedEntries(clients[..n]);
      PrintedRowMeans(clients[n]);
      assert RowsOf(PrintedRows(clients))[..n] == RowsOf(PrintedRows(clients[..n]));
      assert clients == clients[..n] + [clients[n]];
    }
  }

  /** The registry printed for a list of clients answers with the flag of each, and knows no other. */
  lemma PrintedRegistry(clients: seq<(string, bool)>, id: string)
    requires AreClients(clients) && id != ""
    ensures StatusOf(RowsOf(Split(Flatten(PrintedRows(clients)))), id) ==
      if (id, true) in clients then Ok else if (id, false) in clients then Disabled else NotFound
  {
    hide Split, Flatten, RowsOf, Entries, ValueOf, Distinct, NoneBad, PrintedRows, IsName, IsLine;
    PrintedEntries(clients);
    SplitOfWholeLines(PrintedRows(clients));
    ValueIsMember(clients, id, true);
    ValueIsMember(clients, id, false);
  }

  // ---- The order of the lines does not matter ----

  lemma {:induction false} RowsPermute(xs: seq<string>, ys: seq<string>)
    requires multiset(xs) == multiset(ys)
    ensures multiset(RowsOf(xs)) == multiset(RowsOf(ys))
    decreases |xs|
  {
    hide ParseRow, RowsOf;
    if |xs| == 0 {
      assert |multiset(ys)| == 0;
    } else {
      var n := |xs| - 1;
      var x := xs[n];
      assert xs == xs[..n] + [x];
      assert x in multiset(ys);
      var j :| 0 <= j < |ys| && ys[j] == x;
      var before, after := ys[..j], ys[j + 1..];
      assert ys == before + [x] + after;
      RemoveFromBoth(xs[..n], x, before, after);
      RowsPermute(xs[..n], before + after);
      RowsOfMiddle(xs[..n], x, []);
      RowsOfMiddle(before, x, after);
      assert xs[..n] + [x] + [] == xs && xs[..n] + [] == xs[..n];
    }
  }

  lemma RowsOfMiddle(before: seq<string>, x: string, after: seq<string>)
    ensures multiset(RowsOf(before + [x] + after)) == multiset(RowsOf(before + after)) + multiset{ParseRow(x)}
  {
    hide ParseRow, RowsOf;
    RowsSnoc(before, x, after);
    assert RowsOf(before + after) == RowsOf(before) + RowsOf(after);
  }

  /** The answer is the same for every permutation of newline-terminated lines. */
  lemma OrderDoesNotMatter(xs: seq<string>, ys: seq<string>, id: string)
    requires multiset(xs) == multiset(ys) && forall i | 0 <= i < |xs| :: IsLine(xs[i])
    ensures StatusOf(RowsOf(Split(Flatten(xs))), id) == StatusOf(RowsOf(Split(Flatten(ys))), id)
  {
    hide Split, IsLine, Flatten, RowsOf, Sound, Lookup;
    forall i | 0 <= i < |ys| ensures IsLine(ys[i]) {
      assert ys[i] in multiset(xs);
    }
    SplitOfWholeLines(xs);
    SplitOfWholeLines(ys);
    RowsPermute(xs, ys);
    if Sound(RowsOf(xs)) {
      SoundPermutes(RowsOf(xs), RowsOf(ys));
      LookupPermutes(RowsOf(xs), RowsOf(ys), id);
    }
    if Sound(RowsOf(ys)) {
      SoundPermutes(RowsOf(ys), RowsOf(xs));
    }
  }

  /** Every row is well formed, no id has two rows, there are not too many, and the row of the id is enabled. */
  predicate Admits(lines: seq<string>, id: string) {
    id != "" && Sound(RowsOf(lines)) && Entry(id, true) in RowsOf(lines)
  }

  /** The registry decision: the whole file has to be in order, and then the row of the id decides. */
  lemma OkExactlyWhenEnabled(lines: seq<string>, id: string)
    ensures StatusOf(RowsOf(lines), id) == Ok <==> Admits(lines, id)
    ensures StatusOf(RowsOf(lines), id) == Disabled <==>
      id != "" && Sound(RowsOf(lines)) && Entry(id, false) in RowsOf(lines)
    ensures StatusOf(RowsOf(lines), id) == Invalid <==> id == "" || !Sound(RowsOf(lines))
  {
    hide ParseRow, RowsOf, Sound, Lookup;
    if Sound(RowsOf(lines)) {
      LookupIff(RowsOf(lines), id, true);
      LookupIff(RowsOf(lines), id, false);
    }
  }

  /** What a read error does to the answer for a well-formed registry: a row that was not reached is not found. */
  lemma ReadErrorHidesRows(file: string, errorAt: Option<nat>, id: string)
    requires id != "" && Sound(RowsOf(Split(file)))
    ensures var (all, seen) := (RowsOf(Split(file)), RowsOf(Split(Delivered(file, errorAt))));
      StatusOf(seen, id) == if Lookup(seen, id).Some? then StatusOf(all, id) else NotFound
  {
    hide ParseRow, Entries, Distinct, ValueOf, Split, Delivered, Fresh;
    DeliveredLines(file, errorAt);
    var (lines, part) := (Split(file), Split(Delivered(file, errorAt)));
    var rest := lines[|part|..];
    assert RowsOf(lines) == RowsOf(part) + RowsOf(rest);
    PrefixLookup(RowsOf(part), RowsOf(rest), id);
  }
}
