/** Tables of rows, each with an id: what the registry scan and the version table share. */
module Rows {
  import opened Prelude

  const MAX_ID_LEN := 64
  const MAX_ROWS := 512

  /** A line as a scan sees it. `Bad` makes the scan give up. */
  datatype Row<+T> = Blank | Bad | Entry(id: string, value: T)

  function EntryOf<T>(row: Row<T>): seq<(string, T)> {
    if row.Entry? then [(row.id, row.value)] else []
  }

  /** The entries, in order. */
  function Entries<T>(rows: seq<Row<T>>): (es: seq<(string, T)>)
    ensures |es| <= |rows|
  {
    if |rows| == 0 then [] else Entries(rows[..|rows| - 1]) + EntryOf(rows[|rows| - 1])
  }

  predicate Distinct<T>(es: seq<(string, T)>) {
    forall i, j | 0 <= i < j < |es| :: es[i].0 != es[j].0
  }

  predicate Fresh<T>(es: seq<(string, T)>, id: string) {
    forall i | 0 <= i < |es| :: es[i].0 != id
  }

  predicate NoneBad<T>(rows: seq<Row<T>>) {
    forall i | 0 <= i < |rows| :: !rows[i].Bad?
  }

  /** The whole table is in order: every row well formed, no id twice, not too many. */
  predicate Sound<T>(rows: seq<Row<T>>) {
    NoneBad(rows) && Distinct(Entries(rows)) && |Entries(rows)| <= MAX_ROWS
  }

  /** The value that a scan ends with: the last one written under the id. */
  function ValueOf<T>(es: seq<(string, T)>, id: string): (v: Option<T>)
    ensures v.None? <==> Fresh(es, id)
    ensures v.Some? ==> (id, v.value) in es
  {
    if |es| == 0 then None
    else if es[|es| - 1].0 == id then Some(es[|es| - 1].1)
    else ValueOf(es[..|es| - 1], id)
  }

  function Lookup<T>(rows: seq<Row<T>>, id: string): Option<T> {
    ValueOf(Entries(rows), id)
  }

  // ---- One more row ----

  /** The ids a scan remembers are those of the entries so far. */
  ghost predicate SeenIds<T>(seen: seq<string>, es: seq<(string, T)>) {
    |seen| == |es| && forall i | 0 <= i < |es| :: seen[i] == es[i].0
  }

  /** What a scan checks for one row, against the ids it remembers. */
  ghost predicate Admissible<T>(row: Row<T>, seen: seq<string>) {
    !row.Bad? && (row.Entry? ==> row.id !in seen && |seen| < MAX_ROWS)
  }

  lemma DistinctSnoc<T>(es: seq<(string, T)>, e: (string, T))
    requires Distinct(es)
    ensures Distinct(es + [e]) <==> Fresh(es, e.0)
  {
    var more := es + [e];
    if Distinct(more) {
      forall i | 0 <= i < |es| ensures es[i].0 != e.0 {
        assert more[i].0 != more[|es|].0;
      }
    }
  }

  lemma SeenOrFresh<T>(seen: seq<string>, es: seq<(string, T)>, id: string)
    requires SeenIds(seen, es)
    ensures Fresh(es, id) <==> id !in seen
  {
    if Fresh(es, id) {
      forall i | 0 <= i < |seen| ensures seen[i] != id {
        assert es[i].0 != id;
      }
    }
  }

  lemma NoneBadSnoc<T>(rows: seq<Row<T>>, row: Row<T>)
    ensures NoneBad(rows + [row]) <==> NoneBad(rows) && !row.Bad?
  {
    var more := rows + [row];
    if NoneBad(more) {
      assert !more[|rows|].Bad?;
      forall i | 0 <= i < |rows| ensures !rows[i].Bad? {
        assert !more[i].Bad?;
      }
    }
  }

  lemma EntriesSnoc<T>(rows: seq<Row<T>>, row: Row<T>)
    ensures Entries(rows + [row]) == Entries(rows) + EntryOf(row)
  {
    assert (rows + [row])[..|rows|] == rows;
  }

  /** The table stays in order exactly when the new row passes the check. */
  lemma SoundSnoc<T>(rows: seq<Row<T>>, row: Row<T>, seen: seq<string>)
    requires Sound(rows) && SeenIds(seen, Entries(rows))
    ensures Sound(rows + [row]) <==> Admissible(row, seen)
  {
    hide Distinct, Fresh, NoneBad, Entries;
    EntriesSnoc(rows, row);
    NoneBadSnoc(rows, row);
    var es := Entries(rows);
    if row.Entry? {
      DistinctSnoc(es, (row.id, row.value));
      SeenOrFresh(seen, es, row.id);
    } else {
      assert es + [] == es;
    }
  }

  /** What the new row adds to the remembered ids and to a lookup. */
  lemma AfterRow<T>(rows: seq<Row<T>>, row: Row<T>, seen: seq<string>, id: string)
    requires SeenIds(seen, Entries(rows))
    ensures row.Entry? ==> SeenIds(seen + [row.id], Entries(rows + [row]))
    ensures !row.Entry? ==> Entries(rows + [row]) == Entries(rows)
    ensures Lookup(rows + [row], id) == if row.Entry? && row.id == id then Some(row.value) else Lookup(rows, id)
  {
    hide Entries, Fresh, ValueOf;
    EntriesSnoc(rows, row);
    LookupSnoc(rows, row, id);
    if !row.Entry? {
      assert Entries(rows) + [] == Entries(rows);
    }
  }

  lemma LookupSnoc<T>(rows: seq<Row<T>>, row: Row<T>, id: string)
    ensures Lookup(rows + [row], id) == if row.Entry? && row.id == id then Some(row.value) else Lookup(rows, id)
  {
    hide Entries, Fresh;
    EntriesSnoc(rows, row);
    var es := Entries(rows);
    if row.Entry? {
      assert (es + [(row.id, row.value)])[..|es|] == es;
    } else {
      assert es + [] == es;
    }
  }

  /** Once a part of the table is not sound, the table is not. */
  lemma UnsoundPrefix<T>(xs: seq<Row<T>>, ys: seq<Row<T>>)
    requires !Sound(xs)
    ensures !Sound(xs + ys)
  {
    hide Entries;
    EntriesAppend(xs, ys);
    var es, all := Entries(xs), Entries(xs + ys);
    if Sound(xs + ys) {
      forall i | 0 <= i < |xs| ensures !xs[i].Bad? {
        assert !(xs + ys)[i].Bad?;
      }
      forall i, j | 0 <= i < j < |es| ensures es[i].0 != es[j].0 {
        assert all[i] == es[i] && all[j] == es[j];
      }
      assert false;
    }
  }

  lemma {:induction false} EntriesAppend<T>(xs: seq<Row<T>>, ys: seq<Row<T>>)
    ensures Entries(xs + ys) == Entries(xs) + Entries(ys)
  {
    hide EntryOf;
    if |ys| == 0 {
      assert xs + ys == xs;
    } else {
      var n := |ys| - 1;
      EntriesAppend(xs, ys[..n]);
      assert (xs + ys)[..|xs + ys| - 1] == xs + ys[..n];
      var (a, b, c) := (Entries(xs), Entries(ys[..n]), EntryOf(ys[n]));
      assert (a + b) + c == a + (b + c);
    }
  }

  lemma {:induction false} EntriesAre<T>(rows: seq<Row<T>>, e: (string, T))
    ensures e in Entries(rows) <==> Entry(e.0, e.1) in rows
  {
    if |rows| > 0 {
      var n := |rows| - 1;
      EntriesAre(rows[..n], e);
      assert rows == rows[..n] + [rows[n]];
    }
  }

  /** With distinct ids, a lookup finds an entry wherever it stands. */
  lemma ValueIsMember<T>(es: seq<(string, T)>, id: string, v: T)
    requires Distinct(es)
    ensures ValueOf(es, id) == Some(v) <==> (id, v) in es
  {
    hide ValueOf;
  }

  /** A lookup in a sound table finds a value exactly when a row says so. */
  lemma LookupIff<T>(rows: seq<Row<T>>, id: string, v: T)
    requires Sound(rows)
    ensures Lookup(rows, id) == Some(v) <==> Entry(id, v) in rows
  {
    hide Entries, ValueOf, Distinct;
    ValueIsMember(Entries(rows), id, v);
    EntriesAre(rows, (id, v));
  }

  /** The first rows of a sound table are sound, and what they have for an id is what the table has. */
  lemma PrefixLookup<T>(xs: seq<Row<T>>, ys: seq<Row<T>>, id: string)
    requires Sound(xs + ys)
    ensures Sound(xs)
    ensures Lookup(xs, id).Some? ==> Lookup(xs + ys, id) == Lookup(xs, id)
  {
    hide Entries, ValueOf, Distinct, Fresh, NoneBad;
    if !Sound(xs) {
      UnsoundPrefix(xs, ys);
    }
    EntriesAppend(xs, ys);
    if Lookup(xs, id).Some? {
      var v := Lookup(xs, id).value;
      assert (id, v) in Entries(xs) + Entries(ys);
      ValueIsMember(Entries(xs + ys), id, v);
    }
  }

  // ---- Replacing a value ----

  function PutEntry<T>(e: (string, T), id: string, v: T): (string, T) {
    if e.0 == id then (id, v) else e
  }

  function PutRow<T>(row: Row<T>, id: string, v: T): Row<T> {
    if row.Entry? && row.id == id then Entry(id, v) else row
  }

  /** The rows with the value of one id replaced. */
  function Put<T>(rows: seq<Row<T>>, id: string, v: T): (r: seq<Row<T>>)
    ensures |r| == |rows| && forall i | 0 <= i < |rows| :: r[i] == PutRow(rows[i], id, v)
  {
    seq(|rows|, i requires 0 <= i < |rows| => PutRow(rows[i], id, v))
  }

  lemma {:induction false} PutEntries<T>(rows: seq<Row<T>>, id: string, v: T)
    ensures |Entries(Put(rows, id, v))| == |Entries(rows)|
    ensures forall i | 0 <= i < |Entries(rows)| :: Entries(Put(rows, id, v))[i] == PutEntry(Entries(rows)[i], id, v)
  {
    hide Put, PutRow;
    if |rows| > 0 {
      var n := |rows| - 1;
      PutEntries(rows[..n], id, v);
      assert Put(rows, id, v)[..n] == Put(rows[..n], id, v);
      LastPut(rows[n], id, v);
    }
  }

  lemma LastPut<T>(row: Row<T>, id: string, v: T)
    ensures |EntryOf(PutRow(row, id, v))| == |EntryOf(row)|
    ensures row.Entry? ==> EntryOf(PutRow(row, id, v))[0] == PutEntry(EntryOf(row)[0], id, v)
  {
  }

  lemma PutSound<T>(rows: seq<Row<T>>, id: string, v: T)
    requires Sound(rows)
    ensures Sound(Put(rows, id, v))
  {
    hide Entries;
    PutEntries(rows, id, v);
    forall i, j | 0 <= i < j < |Entries(rows)| ensures Entries(Put(rows, id, v))[i].0 != Entries(Put(rows, id, v))[j].0 {
      assert Entries(rows)[i].0 != Entries(rows)[j].0;
    }
  }

  lemma {:induction false} PutLookup<T>(rows: seq<Row<T>>, id: string, v: T, other: string)
    ensures Lookup(Put(rows, id, v), other) ==
      if other == id && Lookup(rows, id).Some? then Some(v) else Lookup(rows, other)
  {
    hide Fresh, Entries;
    if |rows| == 0 {
      assert Put(rows, id, v) == rows;
    } else {
      var n := |rows| - 1;
      PutLookup(rows[..n], id, v, other);
      LookupSnoc(rows[..n], rows[n], other);
      LookupSnoc(rows[..n], rows[n], id);
      LookupSnoc(Put(rows[..n], id, v), PutRow(rows[n], id, v), other);
      assert rows[..n] + [rows[n]] == rows;
      assert Put(rows[..n], id, v) + [PutRow(rows[n], id, v)] == Put(rows, id, v);
    }
  }

  /** `remember_version_id`, and the same loop in the registry scan: the id must be new, and there must be room. */
  method Remember(seen: array<string>, count: nat, id: string) returns (ok: bool)
    requires count <= seen.Length == MAX_ROWS
    modifies seen
    ensures ok <==> id != "" && id !in old(seen[..count]) && count < MAX_ROWS
    ensures !ok ==> seen[..count] == old(seen[..count])
    ensures ok ==> seen[..count + 1] == old(seen[..count]) + [id]
  {
    if id == "" {
      return false;
    }
    var i := 0;
    while i < count
      invariant i <= count && id !in seen[..i] && seen[..count] == old(seen[..count])
    {
      if seen[i] == id {
        return false;
      }
      i := i + 1;
    }
    if count >= MAX_ROWS {
      return false;
    }
    seen[count] := id;
    assert seen[..count] == old(seen[..count]);
    ok := true;
  }

  // ---- The order of the rows does not matter ----

  lemma {:induction false} EntriesPermute<T>(xs: seq<Row<T>>, ys: seq<Row<T>>)
    requires multiset(xs) == multiset(ys)
    ensures multiset(Entries(xs)) == multiset(Entries(ys))
    decreases |xs|
  {
    hide EntryOf;
    if |xs| == 0 {
      assert |multiset(ys)| == 0;
    } else {
      var n := |xs| - 1;
      var x := xs[n];
      assert xs == xs[..n] + [x];
      assert x in multiset(ys);
      var j :| 0 <= j < |ys| && ys[j] == x;
      var before, after := ys[..j], ys[j + 1..];
      assert ys == before + [x] + after;
      RemoveFromBoth(xs[..n], x, before, after);
      EntriesPermute(xs[..n], before + after);
      EntriesOfMiddle(before, x, after);
    }
  }

  lemma EntriesOfMiddle<T>(before: seq<Row<T>>, x: Row<T>, after: seq<Row<T>>)
    ensures multiset(Entries(before + [x] + after)) == multiset(Entries(before + after)) + multiset(EntryOf(x))
  {
    hide EntryOf;
    EntriesAppend(before, after);
    EntriesAppend(before + [x], after);
    EntriesSnoc(before, x);
  }

  /** No entry twice, and no id with two entries: distinct ids, said without positions. */
  ghost predicate Once<T>(es: multiset<(string, T)>) {
    forall e | e in es :: es[e] == 1
  }

  ghost predicate OneEntryPerId<T>(es: multiset<(string, T)>) {
    forall e, f | e in es && f in es && e.0 == f.0 :: e == f
  }

  lemma DistinctByMembers<T>(es: seq<(string, T)>)
    ensures Distinct(es) <==> Once(multiset(es)) && OneEntryPerId(multiset(es))
  {
    if Distinct(es) {
      forall e | e in multiset(es) ensures multiset(es)[e] == 1 {
        var i :| 0 <= i < |es| && es[i] == e;
        CountedOnce(es, i);
      }
    }
    if Once(multiset(es)) && OneEntryPerId(multiset(es)) {
      forall i, j | 0 <= i < j < |es| ensures es[i].0 != es[j].0 {
        assert es[i] in multiset(es) && es[j] in multiset(es);
        if es[i] == es[j] {
          CountedTwice(es, i, j);
        }
      }
    }
  }

  lemma SoundPermutes<T>(xs: seq<Row<T>>, ys: seq<Row<T>>)
    requires multiset(xs) == multiset(ys) && Sound(xs)
    ensures Sound(ys)
  {
    hide Entries, Distinct, Once, OneEntryPerId;
    EntriesPermute(xs, ys);
    DistinctByMembers(Entries(xs));
    DistinctByMembers(Entries(ys));
    assert |Entries(ys)| == |multiset(Entries(ys))| == |multiset(Entries(xs))| == |Entries(xs)|;
    forall i | 0 <= i < |ys| ensures !ys[i].Bad? {
      assert ys[i] in multiset(xs);
    }
  }

  /** A sound table gives the same answers in any order. */
  lemma LookupPermutes<T>(xs: seq<Row<T>>, ys: seq<Row<T>>, id: string)
    requires multiset(xs) == multiset(ys) && Sound(xs)
    ensures Lookup(xs, id) == Lookup(ys, id)
  {
    hide Entries, Distinct, Fresh, ValueOf;
    SoundPermutes(xs, ys);
    EntriesPermute(xs, ys);
    var es, fs := Entries(xs), Entries(ys);
    if ValueOf(es, id).Some? {
      var v := ValueOf(es, id).value;
      assert (id, v) in multiset(fs);
      ValueIsMember(fs, id, v);
    } else if ValueOf(fs, id).Some? {
      var v := ValueOf(fs, id).value;
      assert (id, v) in multiset(es);
      ValueIsMember(es, id, v);
    }
  }
}
