/**
 * What updateAddresses does to the address table, as a function of the table
 * before the call: first the record's rows that no incoming entry names are
 * deleted, then the entries are applied in order (an entry naming a row of
 * the record overwrites three of its fields, an entry without a put-code adds
 * a row). The lemmas state which rows survive, what they hold, and which rows
 * are added.
 */
module AddressReconcile {
  import opened AddressTypes
  import opened AddressRules

  /** The address table as a value: the rows by put-code and the next put-code the DAO hands out. */
  datatype Store = Store(rows: map<int, Row>, nextId: int)

  /** Every stored put-code was handed out before `nextId`. */
  ghost predicate IdsBelow(s: Store) {
    forall id :: id in s.rows ==> id < s.nextId
  }

  /** Owner and source ids are the fields no operation of the manager rewrites. */
  predicate SameOrigin(before: Row, after: Row) {
    after.owner == before.owner && after.sourceId == before.sourceId && after.clientSourceId == before.clientSourceId
  }

  /** The incoming list of a bulk update; a null list has no entries. */
  function Entries(list: Option<seq<Address>>): seq<Address> {
    if list.Some? then list.value else []
  }

  /** Some incoming entry carries put-code `id`. */
  predicate InList(id: int, entries: seq<Address>) {
    exists k :: 0 <= k < |entries| && entries[k].putCode == Some(id)
  }

  /**
   * The inner loop of the deletion pass: walk the entries until one carries
   * the put-code `id` (the source's `deleteMe = false; break`).
   */
  method MatchesSomeEntry(id: int, entries: seq<Address>) returns (matched: bool)
    ensures matched <==> InList(id, entries)
  {
    var k := 0;
    while k < |entries|
      invariant 0 <= k <= |entries|
      invariant forall j :: 0 <= j < k ==> entries[j].putCode != Some(id)
    {
      if entries[k].putCode == Some(id) {
        return true;
      }
      k := k + 1;
    }
    return false;
  }

  /** The record's rows that no entry names: the ones the deletion pass removes. */
  function Doomed(rows: map<int, Row>, orcid: string, entries: seq<Address>): set<int> {
    set id | id in rows && rows[id].owner == orcid && !InList(id, entries)
  }

  /** The table after the deletion pass. */
  function Pruned(s: Store, orcid: string, entries: seq<Address>): Store {
    Store(s.rows - Doomed(s.rows, orcid, entries), s.nextId)
  }

  /** The number of entries without a put-code: the rows a bulk update adds. */
  function NewCount(entries: seq<Address>): nat {
    if entries == [] then 0
    else (if entries[0].putCode.None? then 1 else 0) + NewCount(entries[1..])
  }

  /**
   * One entry of the update pass. `owned` is the record's put-codes as listed
   * before the deletion pass; an entry whose put-code names no such row is
   * ignored.
   */
  function Step(s: Store, orcid: string, owned: set<int>, entry: Address, caller: Source): Store {
    if entry.putCode.Some? then
      var p := entry.putCode.value;
      if p in owned && p in s.rows then Store(s.rows[p := WithPayloadFields(s.rows[p], entry)], s.nextId)
      else s
    else
      Store(s.rows[s.nextId := ListedRow(orcid, entry, caller)], s.nextId + 1)
  }

  /** The update pass: the entries applied in list order. */
  function ApplyEntries(s: Store, orcid: string, owned: set<int>, entries: seq<Address>, caller: Source): Store
    decreases |entries|
  {
    if entries == [] then s
    else ApplyEntries(Step(s, orcid, owned, entries[0], caller), orcid, owned, entries[1..], caller)
  }

  /** The table after a successful updateAddresses of `orcid` with incoming list `list`. */
  function Reconciled(s: Store, orcid: string, list: Option<seq<Address>>, caller: Source): Store {
    var entries := Entries(list);
    ApplyEntries(Pruned(s, orcid, entries), orcid, OwnedRows(s.rows, orcid).Keys, entries, caller)
  }

  /** The update pass adds one row per entry without a put-code, at the put-codes handed out next. */
  lemma {:induction false} ApplyEntriesGrowth(s: Store, orcid: string, owned: set<int>, entries: seq<Address>, caller: Source)
    requires IdsBelow(s)
    ensures var r := ApplyEntries(s, orcid, owned, entries, caller);
            && r.nextId == s.nextId + NewCount(entries)
            && (forall id :: id in r.rows <==> id in s.rows || s.nextId <= id < r.nextId)
            && IdsBelow(r)
    decreases |entries|
  {
    if entries != [] {
      var s1 := Step(s, orcid, owned, entries[0], caller);
      ApplyEntriesGrowth(s1, orcid, owned, entries[1..], caller);
    }
  }

  /**
   * The update pass leaves alone every row it is not told to change: rows of
   * other records, rows added along the way, and rows no entry names.
   */
  lemma {:induction false} ApplyEntriesUntouched(s: Store, orcid: string, owned: set<int>, entries: seq<Address>, caller: Source, id: int)
    requires IdsBelow(s)
    requires id in s.rows && !(id in owned && InList(id, entries))
    ensures var r := ApplyEntries(s, orcid, owned, entries, caller);
            id in r.rows && r.rows[id] == s.rows[id]
    decreases |entries|
  {
    if entries != [] {
      var s1 := Step(s, orcid, owned, entries[0], caller);
      assert s1.rows[id] == s.rows[id];
      assert IdsBelow(s1);
      if InList(id, entries[1..]) {
        var k :| 0 <= k < |entries[1..]| && entries[1..][k].putCode == Some(id);
        assert entries[k + 1].putCode == Some(id);
      }
      ApplyEntriesUntouched(s1, orcid, owned, entries[1..], caller, id);
    }
  }

  /** The update pass never changes the owner or the source ids of a row it finds. */
  lemma {:induction false} ApplyEntriesKeepsOrigin(s: Store, orcid: string, owned: set<int>, entries: seq<Address>, caller: Source, id: int)
    requires IdsBelow(s)
    requires id in s.rows
    ensures var r := ApplyEntries(s, orcid, owned, entries, caller);
            id in r.rows && SameOrigin(s.rows[id], r.rows[id])
    decreases |entries|
  {
    if entries != [] {
      var s1 := Step(s, orcid, owned, entries[0], caller);
      assert id in s1.rows && SameOrigin(s.rows[id], s1.rows[id]);
      ApplyEntriesKeepsOrigin(s1, orcid, owned, entries[1..], caller, id);
    }
  }

  /** A row named by several entries ends up with the fields of the last of them. */
  lemma {:induction false} ApplyEntriesLastWins(s: Store, orcid: string, owned: set<int>, entries: seq<Address>, caller: Source,
                                                p: int, j: int)
    requires IdsBelow(s)
    requires p in owned && p in s.rows
    requires 0 <= j < |entries| && entries[j].putCode == Some(p)
    requires forall k :: j < k < |entries| ==> entries[k].putCode != Some(p)
    ensures var r := ApplyEntries(s, orcid, owned, entries, caller);
            p in r.rows && r.rows[p] == WithPayloadFields(s.rows[p], entries[j])
    decreases |entries|
  {
    var s1 := Step(s, orcid, owned, entries[0], caller);
    assert IdsBelow(s1);
    if j == 0 {
      assert s1.rows[p] == WithPayloadFields(s.rows[p], entries[0]);
      assert !InList(p, entries[1..]) by {
        forall k | 0 <= k < |entries[1..]|
          ensures entries[1..][k].putCode != Some(p)
        {
          assert entries[1..][k] == entries[k + 1];
        }
      }
      ApplyEntriesUntouched(s1, orcid, owned, entries[1..], caller, p);
    } else {
      ApplyEntriesLastWins(s1, orcid, owned, entries[1..], caller, p, j - 1);
    }
  }

  /** The k-th entry, when it has no put-code, becomes the row at the k-th put-code handed out. */
  lemma {:induction false} ApplyEntriesAddsAt(s: Store, orcid: string, owned: set<int>, entries: seq<Address>, caller: Source, k: int)
    requires IdsBelow(s)
    requires forall id :: id in owned ==> id < s.nextId
    requires 0 <= k < |entries| && entries[k].putCode.None?
    ensures var r := ApplyEntries(s, orcid, owned, entries, caller);
            var id := s.nextId + NewCount(entries[..k]);
            id in r.rows && r.rows[id] == ListedRow(orcid, entries[k], caller)
    decreases |entries|
  {
    var s1 := Step(s, orcid, owned, entries[0], caller);
    assert IdsBelow(s1);
    if k == 0 {
      assert entries[..0] == [];
      assert s1.rows[s.nextId] == ListedRow(orcid, entries[0], caller);
      ApplyEntriesUntouched(s1, orcid, owned, entries[1..], caller, s.nextId);
    } else {
      ApplyEntriesAddsAt(s1, orcid, owned, entries[1..], caller, k - 1);
      assert entries[..k][1..] == entries[1..][..k - 1];
    }
  }

  /** Only the record's own rows can be deleted. */
  lemma PrunedRows(s: Store, orcid: string, entries: seq<Address>, id: int)
    requires id in s.rows
    ensures id in Pruned(s, orcid, entries).rows <==> s.rows[id].owner != orcid || InList(id, entries)
    ensures id in Pruned(s, orcid, entries).rows ==> Pruned(s, orcid, entries).rows[id] == s.rows[id]
  {
  }

  /**
   * After a bulk update a row of the record survives exactly when some entry
   * names its put-code, and the rows of every other record are untouched.
   */
  lemma ReconcileSurvivors(s: Store, orcid: string, list: Option<seq<Address>>, caller: Source, id: int)
    requires IdsBelow(s)
    requires id in s.rows
    ensures var r := Reconciled(s, orcid, list, caller);
            && (s.rows[id].owner == orcid ==> (id in r.rows <==> InList(id, Entries(list))))
            && (s.rows[id].owner != orcid ==> id in r.rows && r.rows[id] == s.rows[id])
  {
    var entries := Entries(list);
    var pruned := Pruned(s, orcid, entries);
    var owned := OwnedRows(s.rows, orcid).Keys;
    assert IdsBelow(pruned);
    ApplyEntriesGrowth(pruned, orcid, owned, entries, caller);
    PrunedRows(s, orcid, entries, id);
    if id in pruned.rows && !(id in owned && InList(id, entries)) {
      ApplyEntriesUntouched(pruned, orcid, owned, entries, caller, id);
    }
  }

  /** A bulk update never rewrites the owner or the source ids of a row that survives it. */
  lemma ReconcileKeepsOrigin(s: Store, orcid: string, list: Option<seq<Address>>, caller: Source, id: int)
    requires IdsBelow(s)
    requires id in s.rows && id in Reconciled(s, orcid, list, caller).rows
    ensures SameOrigin(s.rows[id], Reconciled(s, orcid, list, caller).rows[id])
  {
    var entries := Entries(list);
    var pruned := Pruned(s, orcid, entries);
    var owned := OwnedRows(s.rows, orcid).Keys;
    ApplyEntriesGrowth(pruned, orcid, owned, entries, caller);
    PrunedRows(s, orcid, entries, id);
    ApplyEntriesKeepsOrigin(pruned, orcid, owned, entries, caller, id);
  }

  /**
   * A row of the record named by some entry takes the visibility, country and
   * display index of the last entry naming it; its other fields stay.
   */
  lemma ReconcileUpdates(s: Store, orcid: string, list: Option<seq<Address>>, caller: Source, p: int, j: int)
    requires IdsBelow(s)
    requires p in s.rows && s.rows[p].owner == orcid
    requires 0 <= j < |Entries(list)| && Entries(list)[j].putCode == Some(p)
    requires forall k :: j < k < |Entries(list)| ==> Entries(list)[k].putCode != Some(p)
    ensures var r := Reconciled(s, orcid, list, caller);
            p in r.rows && r.rows[p] == WithPayloadFields(s.rows[p], Entries(list)[j])
  {
    var entries := Entries(list);
    var pruned := Pruned(s, orcid, entries);
    var owned := OwnedRows(s.rows, orcid).Keys;
    PrunedRows(s, orcid, entries, p);
    ApplyEntriesLastWins(pruned, orcid, owned, entries, caller, p, j);
  }

  /**
   * A bulk update adds exactly one row per entry without a put-code, at fresh
   * put-codes in list order, owned by the record and stamped with the
   * caller's source ids; it keeps every put-code below the next one handed out.
   */
  lemma ReconcileAdds(s: Store, orcid: string, list: Option<seq<Address>>, caller: Source)
    requires IdsBelow(s)
    ensures var r := Reconciled(s, orcid, list, caller);
            && r.nextId == s.nextId + NewCount(Entries(list))
            && IdsBelow(r)
            && (forall id :: id in r.rows && id !in s.rows ==> s.nextId <= id)
            && (forall k :: 0 <= k < |Entries(list)| && Entries(list)[k].putCode.None? ==>
                  var id := s.nextId + NewCount(Entries(list)[..k]);
                  id in r.rows && r.rows[id] == ListedRow(orcid, Entries(list)[k], caller))
  {
    var entries := Entries(list);
    var pruned := Pruned(s, orcid, entries);
    var owned := OwnedRows(s.rows, orcid).Keys;
    ApplyEntriesGrowth(pruned, orcid, owned, entries, caller);
    forall k | 0 <= k < |entries| && entries[k].putCode.None?
      ensures var id := s.nextId + NewCount(entries[..k]);
              id in Reconciled(s, orcid, list, caller).rows &&
              Reconciled(s, orcid, list, caller).rows[id] == ListedRow(orcid, entries[k], caller)
    {
      ApplyEntriesAddsAt(pruned, orcid, owned, entries, caller, k);
    }
  }
}
