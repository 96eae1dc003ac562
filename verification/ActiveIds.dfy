/** The table of client ids with an active session: `g_active_client_ids` of src/server/worker.c. */
module ActiveIds {

  const ACTIVE_CLIENT_MAX := 128

  datatype Reservation = Reserved | Duplicate | Refused

  /** The first free slot, or the length. */
  function FirstFree(slots: seq<string>): (k: nat)
    ensures k <= |slots| && forall i | 0 <= i < k :: slots[i] != ""
    ensures k < |slots| ==> slots[k] == ""
  {
    if |slots| == 0 || slots[0] == "" then 0 else 1 + FirstFree(slots[1..])
  }

  /** The outcome of a reservation: an id already there, anywhere in the table, comes before a free slot. */
  function Answer(slots: seq<string>, id: string): Reservation {
    if id == "" then Refused else if id in slots then Duplicate else if "" in slots then Reserved else Refused
  }

  function Reserve(slots: seq<string>, id: string): (after: seq<string>)
    ensures |after| == |slots|
  {
    if Answer(slots, id).Reserved? && FirstFree(slots) < |slots| then slots[FirstFree(slots) := id] else slots
  }

  /** The id has taken the place of the first empty slot, and nothing else has changed. */
  ghost predicate TakesFirst(slots: seq<string>, id: string, after: seq<string>) {
    exists k :: 0 <= k < |slots| && slots[k] == "" && "" !in slots[..k] && after == slots[k := id]
  }

  /** The first slot with the id is empty, and nothing else has changed. */
  ghost predicate ClearsFirst(slots: seq<string>, id: string, after: seq<string>) {
    exists k :: 0 <= k < |slots| && slots[k] == id && id !in slots[..k] && after == slots[k := ""]
  }

  /** The position of the first slot with the id, or the length. */
  function SlotOf(slots: seq<string>, id: string): (k: nat)
    ensures k <= |slots| && forall i | 0 <= i < k :: slots[i] != id
    ensures k < |slots| ==> slots[k] == id
  {
    if |slots| == 0 || slots[0] == id then 0 else 1 + SlotOf(slots[1..], id)
  }

  function Release(slots: seq<string>, id: string): (after: seq<string>)
    ensures |after| == |slots|
  {
    if id != "" && SlotOf(slots, id) < |slots| then slots[SlotOf(slots, id) := ""] else slots
  }

  lemma FirstIsTaken(slots: seq<string>, id: string)
    ensures Answer(slots, id).Reserved? ==> TakesFirst(slots, id, Reserve(slots, id))
    ensures !Answer(slots, id).Reserved? ==> Reserve(slots, id) == slots
  {
    if "" in slots {
      var i :| 0 <= i < |slots| && slots[i] == "";
      assert FirstFree(slots) <= i;
    }
  }

  lemma ReserveAddsOne(slots: seq<string>, id: string)
    ensures multiset(Reserve(slots, id)) ==
      if Answer(slots, id).Reserved? then multiset(slots) - multiset{""} + multiset{id} else multiset(slots)
  {
    if Answer(slots, id).Reserved? {
      var i :| 0 <= i < |slots| && slots[i] == "";
      assert FirstFree(slots) <= i;
    }
  }

  lemma ReleaseTakesOne(slots: seq<string>, id: string)
    ensures multiset(Release(slots, id)) ==
      if id != "" && id in slots then multiset(slots) - multiset{id} + multiset{""} else multiset(slots)
  {
    if id in slots {
      var i :| 0 <= i < |slots| && slots[i] == id;
      assert SlotOf(slots, id) <= i;
    }
  }

  /** Releasing what was just reserved gives back the table as it was. */
  lemma ReleaseUndoesReserve(slots: seq<string>, id: string)
    requires Answer(slots, id).Reserved?
    ensures Release(Reserve(slots, id), id) == slots
  {
    var i :| 0 <= i < |slots| && slots[i] == "";
    var k := FirstFree(slots);
    assert k <= i;
    var after := slots[k := id];
    assert SlotOf(after, id) == k by {
      assert after[k] == id;
      assert forall j | 0 <= j < |slots| && j != k :: after[j] == slots[j];
    }
  }

  /** `reserve_active_client_id` and `release_active_client_id`, each under the lock. */
  class Table {
    const slots: array<string>

    constructor ()
      ensures fresh(slots) && slots.Length == ACTIVE_CLIENT_MAX
      ensures forall i | 0 <= i < slots.Length :: slots[i] == ""
    {
      slots := new string[ACTIVE_CLIENT_MAX](_ => "");
    }

    method TryReserve(id: string) returns (r: Reservation)
      modifies slots
      ensures r == Reserved <==> id != "" && id !in old(slots[..]) && "" in old(slots[..])
      ensures r == Duplicate <==> id != "" && id in old(slots[..])
      ensures if r == Reserved then TakesFirst(old(slots[..]), id, slots[..]) else slots[..] == old(slots[..])
      ensures r == Answer(old(slots[..]), id) && slots[..] == Reserve(old(slots[..]), id)
    {
      if id == "" {
        return Refused;
      }
      var freeSlot := -1;
      var i := 0;
      while i < slots.Length
        invariant i <= slots.Length && id !in slots[..i] && slots[..] == old(slots[..])
        invariant -1 <= freeSlot < i
        invariant freeSlot >= 0 ==> slots[freeSlot] == ""
        invariant forall j | 0 <= j < if freeSlot < 0 then i else freeSlot :: slots[j] != ""
      {
        if slots[i] == "" {
          if freeSlot < 0 {
            freeSlot := i;
          }
        } else if slots[i] == id {
          assert slots[..][i] == id;
          return Duplicate;
        }
        i := i + 1;
      }
      assert slots[..i] == slots[..];
      if freeSlot < 0 {
        return Refused;
      }
      assert slots[..][freeSlot] == "";
      assert FirstFree(slots[..]) == freeSlot;
      FirstIsTaken(slots[..], id);
      slots[freeSlot] := id;
      r := Reserved;
    }

    method Free(id: string)
      modifies slots
      ensures if id != "" && id in old(slots[..]) then ClearsFirst(old(slots[..]), id, slots[..])
              else slots[..] == old(slots[..])
      ensures slots[..] == Release(old(slots[..]), id)
    {
      if id == "" {
        return;
      }
      var i := 0;
      while i < slots.Length
        invariant i <= slots.Length && slots[..] == old(slots[..])
        invariant forall j | 0 <= j < i :: slots[j] != id
      {
        if slots[i] == id {
          assert SlotOf(slots[..], id) == i && slots[..][i] == id;
          slots[i] := "";
          assert slots[..] == old(slots[..])[i := ""];
          return;
        }
        i := i + 1;
      }
      assert SlotOf(slots[..], id) == slots.Length && id !in slots[..];
    }
  }
}
