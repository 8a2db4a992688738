/**
 * The per-row rules of the address manager: who a row's source is, when an
 * incoming address duplicates a stored one, which visibility a new address
 * gets, and how a stored row is built or changed from a payload.
 */
module AddressRules {
  import opened AddressTypes

  /** PojoUtil.isEmpty on a string: null or the empty string. */
  predicate IsEmpty(s: Option<string>) {
    s.None? || s.value == ""
  }

  /** SourceEntity.getSourceId: the client's id when the caller acts through a client, else the profile's. */
  function SourceIdOf(source: Source): Option<string> {
    if source.clientId.Some? then source.clientId else source.profileId
  }

  /** AddressEntity.getElementSourceId: the client source id when it is set, else the source id. */
  function ElementSourceId(row: Row): Option<string> {
    if !IsEmpty(row.clientSourceId) then row.clientSourceId else row.sourceId
  }

  /**
   * isDuplicated: the stored row `existing`, filed under put-code `id`, clashes
   * with the incoming `address` sent by `source`. Same nesting as the source.
   */
  predicate IsDuplicated(id: int, existing: Row, address: Address, source: Source) {
    if address.putCode != Some(id) then
      var existingSourceId := ElementSourceId(existing);
      if !IsEmpty(existingSourceId) && existingSourceId == SourceIdOf(source) then
        existing.country == address.country
      else
        false
    else
      false
  }

  /** Some row of `existing` clashes with the incoming address. */
  ghost predicate HasDuplicate(existing: map<int, Row>, address: Address, source: Source) {
    exists id :: id in existing && IsDuplicated(id, existing[id], address, source)
  }

  /** The exception both createAddress and updateAddress raise on a clash. */
  function DuplicateError(address: Address): (e: Error)
    ensures e.DuplicatedElement? && e.params.Keys == {"type", "value"}
    ensures e.params["type"] == "address" && e.params["value"] == address.country
  {
    DuplicatedElement(map["type" := "address", "value" := address.country])
  }

  /** The rows addressDao.getAddresses(orcid) lists: those of one record. */
  function OwnedRows(rows: map<int, Row>, orcid: string): (owned: map<int, Row>)
    ensures owned.Keys <= rows.Keys
    ensures forall id :: id in rows && rows[id].owner == orcid ==> id in owned && owned[id] == rows[id]
    ensures forall id :: id in owned ==> rows[id].owner == orcid
  {
    map id | id in rows && rows[id].owner == orcid :: rows[id]
  }

  /** A set of put-codes is empty or has a member (lets a loop pick the next row to visit). */
  lemma EmptyOrInhabited(s: set<int>)
    ensures s == {} || exists w :: w in s
  {
    if forall w :: w !in s {
      assert s == {};
    }
  }

  /**
   * The duplicate scan of createAddress and updateAddress: every stored row of
   * the record is checked with isDuplicated. The DAO's list order is not
   * modelled, so rows are visited in an arbitrary order.
   */
  method AnyDuplicate(existing: map<int, Row>, address: Address, source: Source) returns (dup: bool)
    ensures dup <==> HasDuplicate(existing, address, source)
  {
    var pending := existing.Keys;
    while pending != {}
      invariant pending <= existing.Keys
      invariant forall id :: id in existing && id !in pending ==> !IsDuplicated(id, existing[id], address, source)
      decreases pending
    {
      EmptyOrInhabited(pending);
      var id :| id in pending;
      if IsDuplicated(id, existing[id], address, source) {
        return true;
      }
      pending := pending - {id};
    }
    return false;
  }

  /** The visibility setIncomingPrivacy falls back to: the profile's default for activities, else PRIVATE. */
  function DefaultVisibility(profile: Profile): Visibility {
    if profile.activitiesVisibilityDefault.None? then Private else profile.activitiesVisibilityDefault.value
  }

  /**
   * setIncomingPrivacy: the visibility a newly created address is stored with,
   * given the visibility the payload carried.
   */
  function IncomingPrivacy(incoming: Option<Visibility>, profile: Profile): (v: Option<Visibility>)
    ensures v.Some?
    ensures profile.claimed == Some(true) ==> v == Some(DefaultVisibility(profile))
    ensures profile.claimed != Some(true) && incoming.None? ==> v == Some(Private)
    ensures profile.claimed != Some(true) && incoming.Some? ==> v == incoming
  {
    var defaultVisibility := DefaultVisibility(profile);
    if profile.claimed.Some? && profile.claimed.value then
      Some(defaultVisibility)
    else if incoming.None? then
      Some(Private)
    else
      incoming
  }

  /**
   * The fields the adapter and the bulk update copy from a payload onto a row:
   * country, visibility and display index. Nothing else of the row changes.
   */
  function WithPayloadFields(row: Row, address: Address): (r: Row)
    ensures r.owner == row.owner && r.sourceId == row.sourceId && r.clientSourceId == row.clientSourceId
  {
    row.(country := address.country, visibility := address.visibility, displayIndex := address.displayIndex)
  }

  /** adapter.toAddressEntity(address): a row with no owner and no source yet. */
  function Adapted(address: Address): Row {
    WithPayloadFields(Row("", "", None, None, None, None), address)
  }

  /**
   * A new row handed to `orcid` and stamped with the caller's source ids
   * (createAddress, updateAddresses): each id the caller has overwrites the row's.
   */
  function Stamped(row: Row, orcid: string, caller: Source): (r: Row)
    ensures r.owner == orcid
    ensures r.sourceId == if caller.profileId.Some? then caller.profileId else row.sourceId
    ensures r.clientSourceId == if caller.clientId.Some? then caller.clientId else row.clientSourceId
    ensures r.country == row.country && r.visibility == row.visibility && r.displayIndex == row.displayIndex
  {
    var owned := row.(owner := orcid);
    var withProfile := if caller.profileId.Some? then owned.(sourceId := caller.profileId) else owned;
    if caller.clientId.Some? then withProfile.(clientSourceId := caller.clientId) else withProfile
  }

  /**
   * The row createAddress persists: the payload's country, the display index
   * the display-index helper assigns, the visibility setIncomingPrivacy picks,
   * and the source ids of the caller, whatever the payload says its source is.
   */
  function CreatedRow(orcid: string, address: Address, caller: Source, profile: Profile, assignedIndex: int): (r: Row)
    ensures r.owner == orcid && r.country == address.country
    ensures r.sourceId == caller.profileId && r.clientSourceId == caller.clientId
    ensures r.displayIndex == Some(assignedIndex)
    ensures r.visibility.Some?
    ensures profile.claimed == Some(true) ==> r.visibility == Some(DefaultVisibility(profile))
    ensures profile.claimed != Some(true) ==> r.visibility == if address.visibility.None? then Some(Private) else address.visibility
  {
    var stamped := Stamped(Adapted(address), orcid, caller);
    var indexed := stamped.(displayIndex := Some(assignedIndex));
    indexed.(visibility := IncomingPrivacy(indexed.visibility, profile))
  }

  /**
   * The row updateAddress merges: the payload's fields copied by the adapter,
   * then the source ids saved before the copy written back.
   */
  function UpdatedRow(stored: Row, address: Address): (r: Row)
    ensures r.sourceId == stored.sourceId && r.clientSourceId == stored.clientSourceId
    ensures r.owner == stored.owner
    ensures r.country == address.country && r.visibility == address.visibility
    ensures r.displayIndex == address.displayIndex
  {
    var existingSourceId := stored.sourceId;
    var existingClientSourceId := stored.clientSourceId;
    var merged := WithPayloadFields(stored, address);
    merged.(sourceId := existingSourceId, clientSourceId := existingClientSourceId)
  }

  /** The row updateAddresses adds for an entry without a put-code: no privacy defaulting here. */
  function ListedRow(orcid: string, entry: Address, caller: Source): (r: Row)
    ensures r.owner == orcid && r.sourceId == caller.profileId && r.clientSourceId == caller.clientId
    ensures r.country == entry.country && r.visibility == entry.visibility && r.displayIndex == entry.displayIndex
  {
    var stamped := Stamped(Adapted(entry), orcid, caller);
    stamped.(visibility := entry.visibility, displayIndex := entry.displayIndex)
  }

  /** isDuplicated holds exactly when its three conditions do. */
  lemma DuplicateExactly(id: int, existing: Row, address: Address, source: Source)
    ensures IsDuplicated(id, existing, address, source) <==>
      && address.putCode != Some(id)
      && !IsEmpty(ElementSourceId(existing)) && ElementSourceId(existing) == SourceIdOf(source)
      && existing.country == address.country
  {
  }

  /** A row with no element source id never clashes, whoever asks. */
  lemma NoSourceNoDuplicate(id: int, existing: Row, address: Address, source: Source)
    requires IsEmpty(existing.sourceId) && IsEmpty(existing.clientSourceId)
    ensures !IsDuplicated(id, existing, address, source)
  {
  }

  /**
   * A row created by a caller with a non-empty source id clashes with a later
   * address of that caller exactly when the country is the same (and the later
   * payload does not carry the row's own put-code).
   */
  lemma CreatedRowClashesWithSameCaller(id: int, orcid: string, address: Address, caller: Source,
                                        profile: Profile, assignedIndex: int, incoming: Address)
    requires !IsEmpty(SourceIdOf(caller))
    ensures IsDuplicated(id, CreatedRow(orcid, address, caller, profile, assignedIndex), incoming, caller) <==>
      incoming.putCode != Some(id) && incoming.country == address.country
  {
  }

  /** A row written by another caller is never a duplicate, whatever its country. */
  lemma OtherCallerNeverClashes(id: int, existing: Row, address: Address, source: Source)
    requires ElementSourceId(existing) != SourceIdOf(source)
    ensures !IsDuplicated(id, existing, address, source)
  {
  }

  /**
   * When the payload carries the put-code of the row being updated, that row
   * has no say in the duplicate scan: the scan over the whole record and the
   * scan over the other rows agree.
   */
  lemma OwnRowNeverDuplicate(existing: map<int, Row>, putCode: int, address: Address, source: Source)
    requires address.putCode == Some(putCode)
    ensures HasDuplicate(existing, address, source) <==> HasDuplicate(existing - {putCode}, address, source)
  {
    if HasDuplicate(existing, address, source) {
      var id :| id in existing && IsDuplicated(id, existing[id], address, source);
      assert id in existing - {putCode};
    }
    if HasDuplicate(existing - {putCode}, address, source) {
      var id :| id in existing - {putCode} && IsDuplicated(id, (existing - {putCode})[id], address, source);
      assert id in existing;
    }
  }
}
