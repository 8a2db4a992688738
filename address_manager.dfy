/**
 * The address manager (AddressManagerImpl): the address rows of all records,
 * held by put-code, and the operations that create, update, delete and
 * bulk-reconcile one record's addresses.
 *
 * The verdicts of collaborators whose code is not part of this model arrive
 * as parameters: `validatorAccepts` (PersonValidator.validateAddress),
 * `sourceCheckPasses` (OrcidSecurityManager.checkSource), `assignedIndex`
 * (DisplayIndexCalculatorHelper), `profile` (the profile cache),
 * `removeSucceeds` and `deleteFails` (whether the DAO's delete throws).
 */
module AddressManager {
  import opened AddressTypes
  import opened AddressRules
  import opened AddressReconcile

  /** What createAddress answers for table `s`; on `Ok` the row is persisted under the returned put-code. */
  ghost function CreateOutcome(s: Store, orcid: string, address: Address, caller: Source, profile: Profile,
                               validatorAccepts: bool, assignedIndex: int): Result<Stored>
  {
    if !validatorAccepts then Err(InvalidAddress)
    else if HasDuplicate(OwnedRows(s.rows, orcid), address, caller) then Err(DuplicateError(address))
    else Ok(Stored(s.nextId, CreatedRow(orcid, address, caller, profile, assignedIndex)))
  }

  /** The row updateAddress finds: addressDao.getAddress(orcid, putCode). */
  predicate Found(rows: map<int, Row>, orcid: string, putCode: int) {
    putCode in rows && rows[putCode].owner == orcid
  }

  /**
   * What updateAddress answers; on `Ok` the row is merged back under its put-code.
   * The duplicate scan excludes rows by the payload's put-code, as the source does.
   */
  ghost function UpdateOutcome(rows: map<int, Row>, orcid: string, putCode: int, address: Address, isApiRequest: bool,
                               caller: Source, sourceCheckPasses: bool, validatorAccepts: bool): Result<Stored>
  {
    if !Found(rows, orcid, putCode) then Err(NoResult)
    else if rows[putCode].visibility.None? then Err(NullPointer)
    else if isApiRequest && !sourceCheckPasses then Err(WrongSource)
    else if !validatorAccepts then Err(InvalidAddress)
    else if HasDuplicate(OwnedRows(rows, orcid), address, caller) then Err(DuplicateError(address))
    else Ok(Stored(putCode, UpdatedRow(rows[putCode], address)))
  }

  /** What deleteAddress answers; the row is gone exactly when the answer is `Ok(true)`. */
  function DeleteOutcome(rows: map<int, Row>, orcid: string, putCode: int, sourceCheckPasses: bool,
                         removeSucceeds: bool): Result<bool>
  {
    if !Found(rows, orcid, putCode) then Err(NoResult)
    else if !sourceCheckPasses then Err(WrongSource)
    else Ok(removeSucceeds)
  }

  class AddressTable {
    var rows: map<int, Row>
    var nextId: int

    /** Every stored put-code was handed out by the id sequence. */
    ghost predicate Valid()
      reads this
    {
      IdsBelow(Store(rows, nextId))
    }

    function Contents(): Store
      reads this
    {
      Store(rows, nextId)
    }

    constructor ()
      ensures Valid() && rows == map[] && nextId == 1
    {
      rows := map[];
      nextId := 1;
    }

    /** addressDao.persist: the row is stored under the next put-code of the sequence. */
    method Persist(row: Row) returns (putCode: int)
      requires Valid()
      modifies this
      ensures Valid()
      ensures putCode == old(nextId) && putCode !in old(rows)
      ensures rows == old(rows)[putCode := row] && nextId == old(nextId) + 1
    {
      putCode := nextId;
      rows := rows[putCode := row];
      nextId := nextId + 1;
    }

    /**
     * createAddress: validate, reject a duplicate of a row the caller wrote,
     * stamp the caller's source ids, pick the visibility, persist.
     */
    method CreateAddress(orcid: string, address: Address, caller: Source, profile: Profile,
                         validatorAccepts: bool, assignedIndex: int) returns (r: Result<Stored>)
      requires Valid()
      modifies this
      ensures Valid()
      ensures r == CreateOutcome(old(Contents()), orcid, address, caller, profile, validatorAccepts, assignedIndex)
      ensures r.Ok? ==> rows == old(rows)[r.value.putCode := r.value.row] && nextId == old(nextId) + 1
      ensures r.Err? ==> rows == old(rows) && nextId == old(nextId)
    {
      if !validatorAccepts {
        return Err(InvalidAddress);
      }
      var dup := AnyDuplicate(OwnedRows(rows, orcid), address, caller);
      if dup {
        return Err(DuplicateError(address));
      }
      var entity := Adapted(address);
      entity := entity.(owner := orcid);
      if caller.profileId.Some? {
        entity := entity.(sourceId := caller.profileId);
      }
      if caller.clientId.Some? {
        entity := entity.(clientSourceId := caller.clientId);
      }
      entity := entity.(displayIndex := Some(assignedIndex));
      entity := entity.(visibility := IncomingPrivacy(entity.visibility, profile));
      var putCode := Persist(entity);
      r := Ok(Stored(putCode, entity));
    }

    /**
     * updateAddress: find the row, check the caller and the payload, reject a
     * duplicate, copy the payload's fields while keeping the row's source ids.
     */
    method UpdateAddress(orcid: string, putCode: int, address: Address, isApiRequest: bool, caller: Source,
                         sourceCheckPasses: bool, validatorAccepts: bool) returns (r: Result<Stored>)
      requires Valid()
      modifies this
      ensures Valid() && nextId == old(nextId)
      ensures r == UpdateOutcome(old(rows), orcid, putCode, address, isApiRequest, caller, sourceCheckPasses, validatorAccepts)
      ensures r.Ok? ==> rows == old(rows)[putCode := r.value.row]
      ensures r.Err? ==> rows == old(rows)
    {
      if !Found(rows, orcid, putCode) {
        return Err(NoResult);
      }
      var updatedEntity := rows[putCode];
      if updatedEntity.visibility.None? {
        return Err(NullPointer);
      }
      var existingSourceId := updatedEntity.sourceId;
      var existingClientSourceId := updatedEntity.clientSourceId;
      if isApiRequest && !sourceCheckPasses {
        return Err(WrongSource);
      }
      if !validatorAccepts {
        return Err(InvalidAddress);
      }
      // The source tests `existing.id != address.putCode` before calling
      // isDuplicated, which tests it again: one scan covers both.
      var dup := AnyDuplicate(OwnedRows(rows, orcid), address, caller);
      if dup {
        return Err(DuplicateError(address));
      }
      updatedEntity := WithPayloadFields(updatedEntity, address);
      updatedEntity := updatedEntity.(sourceId := existingSourceId, clientSourceId := existingClientSourceId);
      rows := rows[putCode := updatedEntity];
      r := Ok(Stored(putCode, updatedEntity));
    }

    /** deleteAddress: a failing remove is reported as `false`, a failing source check escapes. */
    method DeleteAddress(orcid: string, putCode: int, sourceCheckPasses: bool, removeSucceeds: bool)
      returns (r: Result<bool>)
      requires Valid()
      modifies this
      ensures Valid() && nextId == old(nextId)
      ensures r == DeleteOutcome(old(rows), orcid, putCode, sourceCheckPasses, removeSucceeds)
      ensures rows == if r == Ok(true) then old(rows) - {putCode} else old(rows)
    {
      if !Found(rows, orcid, putCode) {
        return Err(NoResult);
      }
      if !sourceCheckPasses {
        return Err(WrongSource);
      }
      if !removeSucceeds {
        return Ok(false);
      }
      rows := rows - {putCode};
      return Ok(true);
    }

    /**
     * updateAddresses: delete the record's rows no entry names, then apply the
     * entries in order. The DAO's list order is not modelled, so the deletion
     * pass visits the record's rows in an arbitrary order; when some deletion
     * throws, the rows deleted before it stay deleted.
     */
    method UpdateAddresses(orcid: string, addresses: Option<Addresses>, caller: Source, deleteFails: set<int>)
      returns (r: Result<Option<Addresses>>)
      requires Valid()
      modifies this
      ensures Valid()
      ensures addresses.None? && OwnedRows(old(rows), orcid) != map[] ==>
                r == Err(NullPointer) && rows == old(rows) && nextId == old(nextId)
      ensures addresses.None? && OwnedRows(old(rows), orcid) == map[] ==>
                r == Ok(None) && rows == old(rows) && nextId == old(nextId)
      ensures addresses.Some? && !(Doomed(old(rows), orcid, Entries(addresses.value.address)) !! deleteFails) ==>
                && r.Err? && r.error.UnableToDelete?
                && r.error.putCode in Doomed(old(rows), orcid, Entries(addresses.value.address)) * deleteFails
                && r.error.putCode in rows
                && nextId == old(nextId)
                && rows.Keys <= old(rows).Keys
                && (forall id :: id in rows ==> rows[id] == old(rows)[id])
                && (forall id :: id in old(rows) && id !in Doomed(old(rows), orcid, Entries(addresses.value.address)) ==> id in rows)
      ensures addresses.Some? && Doomed(old(rows), orcid, Entries(addresses.value.address)) !! deleteFails ==>
                r == Ok(addresses) && Contents() == Reconciled(old(Contents()), orcid, addresses.value.address, caller)
    {
      var owned := OwnedRows(rows, orcid).Keys;
      ghost var entries := if addresses.Some? then Entries(addresses.value.address) else [];
      ghost var doomed := Doomed(rows, orcid, entries);
      assert doomed <= owned;
      // Deletion pass.
      var pending := owned;
      while pending != {}
        invariant pending <= owned
        invariant nextId == old(nextId)
        invariant rows == old(rows) - (owned - pending) * doomed
        invariant (owned - pending) * doomed !! deleteFails
        invariant addresses.None? ==> pending == owned
        decreases pending
      {
        EmptyOrInhabited(pending);
        var id :| id in pending;
        var deleteMe := true;
        if addresses.None? {
          return Err(NullPointer);
        }
        if addresses.value.address.Some? {
          var matched := MatchesSomeEntry(id, addresses.value.address.value);
          deleteMe := !matched;
        }
        assert deleteMe <==> id in doomed;
        if deleteMe {
          if id in deleteFails {
            return Err(UnableToDelete(id));
          }
          rows := rows - {id};
        }
        pending := pending - {id};
      }
      // Update pass.
      if addresses.Some? && addresses.value.address.Some? {
        var list := addresses.value.address.value;
        assert rows == Pruned(old(Contents()), orcid, list).rows;
        assert list[0..] == list;
        var i := 0;
        while i < |list|
          invariant 0 <= i <= |list|
          invariant Valid()
          invariant ApplyEntries(Contents(), orcid, owned, list[i..], caller) ==
                    Reconciled(old(Contents()), orcid, addresses.value.address, caller)
        {
          var entry := list[i];
          assert list[i..][1..] == list[i + 1..];
          if entry.putCode.Some? {
            // The source's inner loop over the listed rows matches at most the row with this put-code.
            var p := entry.putCode.value;
            if p in owned && p in rows {
              rows := rows[p := WithPayloadFields(rows[p], entry)];
            }
          } else {
            var _ := Persist(ListedRow(orcid, entry, caller));
          }
          i := i + 1;
        }
      }
      r := Ok(addresses);
    }
  }

  /** A created row belongs to the record, carries the caller's source ids and a visibility, at a fresh put-code. */
  lemma CreateStampsCaller(s: Store, orcid: string, address: Address, caller: Source, profile: Profile,
                           validatorAccepts: bool, assignedIndex: int)
    requires IdsBelow(s)
    ensures var r := CreateOutcome(s, orcid, address, caller, profile, validatorAccepts, assignedIndex);
            r.Ok? ==>
              && r.value.putCode !in s.rows
              && r.value.row.owner == orcid
              && r.value.row.sourceId == caller.profileId && r.value.row.clientSourceId == caller.clientId
              && r.value.row.visibility.Some?
  {
  }

  /**
   * Once a caller with a source id has created an address, creating another
   * address of the same country for the same record is rejected as a duplicate.
   */
  lemma CreateTwiceIsDuplicate(s: Store, orcid: string, first: Address, second: Address, caller: Source,
                               profile: Profile, firstIndex: int, secondIndex: int)
    requires !IsEmpty(SourceIdOf(caller))
    requires CreateOutcome(s, orcid, first, caller, profile, true, firstIndex).Ok?
    requires second.country == first.country && second.putCode != Some(s.nextId)
    ensures var created := CreateOutcome(s, orcid, first, caller, profile, true, firstIndex).value;
            CreateOutcome(Store(s.rows[created.putCode := created.row], s.nextId + 1), orcid, second, caller, profile, true, secondIndex)
              == Err(DuplicateError(second))
  {
    var created := CreateOutcome(s, orcid, first, caller, profile, true, firstIndex).value;
    var rows' := s.rows[created.putCode := created.row];
    CreatedRowClashesWithSameCaller(s.nextId, orcid, first, caller, profile, firstIndex, second);
    var owned := OwnedRows(rows', orcid);
    assert s.nextId in owned && IsDuplicated(s.nextId, owned[s.nextId], second, caller);
  }

  /** A successful update keeps the row's put-code, owner and source ids and takes the payload's fields. */
  lemma UpdateKeepsOrigin(rows: map<int, Row>, orcid: string, putCode: int, address: Address, isApiRequest: bool,
                          caller: Source, sourceCheckPasses: bool, validatorAccepts: bool)
    ensures var r := UpdateOutcome(rows, orcid, putCode, address, isApiRequest, caller, sourceCheckPasses, validatorAccepts);
            r.Ok? ==>
              && r.value.putCode == putCode && putCode in rows
              && SameOrigin(rows[putCode], r.value.row)
              && r.value.row.country == address.country && r.value.row.visibility == address.visibility
  {
  }

  /**
   * When the payload carries the put-code being updated, only the record's
   * other rows can make the update fail as a duplicate.
   */
  lemma UpdateIgnoresOwnRow(rows: map<int, Row>, orcid: string, putCode: int, address: Address, isApiRequest: bool,
                            caller: Source, sourceCheckPasses: bool, validatorAccepts: bool)
    requires address.putCode == Some(putCode)
    requires !HasDuplicate(OwnedRows(rows, orcid) - {putCode}, address, caller)
    ensures UpdateOutcome(rows, orcid, putCode, address, isApiRequest, caller, sourceCheckPasses, validatorAccepts)
              != Err(DuplicateError(address))
  {
    OwnRowNeverDuplicate(OwnedRows(rows, orcid), putCode, address, caller);
  }

  /**
   * The exclusion in updateAddress goes by the payload's put-code, not by the
   * put-code of the row being updated: when the payload names another put-code
   * or none, is sent by the row's own source and keeps the row's country, the
   * update is rejected as a duplicate of the very row it updates.
   */
  lemma UpdatedRowCanClashWithItself(rows: map<int, Row>, orcid: string, putCode: int, address: Address,
                                     isApiRequest: bool, caller: Source, sourceCheckPasses: bool)
    requires Found(rows, orcid, putCode) && rows[putCode].visibility.Some?
    requires !isApiRequest || sourceCheckPasses
    requires address.putCode != Some(putCode)
    requires !IsEmpty(ElementSourceId(rows[putCode])) && ElementSourceId(rows[putCode]) == SourceIdOf(caller)
    requires rows[putCode].country == address.country
    ensures UpdateOutcome(rows, orcid, putCode, address, isApiRequest, caller, sourceCheckPasses, true)
              == Err(DuplicateError(address))
  {
    assert putCode in OwnedRows(rows, orcid);
  }

  /** After a successful delete, the put-code is gone for every later update or delete of the record. */
  lemma DeleteThenGone(rows: map<int, Row>, orcid: string, putCode: int, sourceCheckPasses: bool, removeSucceeds: bool,
                       laterCheckPasses: bool, laterRemoveSucceeds: bool,
                       address: Address, isApiRequest: bool, caller: Source, validatorAccepts: bool)
    requires DeleteOutcome(rows, orcid, putCode, sourceCheckPasses, removeSucceeds) == Ok(true)
    ensures DeleteOutcome(rows - {putCode}, orcid, putCode, laterCheckPasses, laterRemoveSucceeds) == Err(NoResult)
    ensures UpdateOutcome(rows - {putCode}, orcid, putCode, address, isApiRequest, caller, laterCheckPasses, validatorAccepts)
              == Err(NoResult)
  {
  }

  /**
   * The bulk path adds rows without privacy defaulting: an entry without a
   * put-code and without a visibility is stored with none, and a later
   * updateAddress of that row fails on the null visibility.
   */
  lemma BulkRowWithoutVisibilityBlocksUpdate(s: Store, orcid: string, list: Option<seq<Address>>, caller: Source, k: int,
                                             address: Address, isApiRequest: bool, sourceCheckPasses: bool,
                                             validatorAccepts: bool)
    requires IdsBelow(s)
    requires 0 <= k < |Entries(list)| && Entries(list)[k].putCode.None? && Entries(list)[k].visibility.None?
    ensures var id := s.nextId + NewCount(Entries(list)[..k]);
            UpdateOutcome(Reconciled(s, orcid, list, caller).rows, orcid, id, address, isApiRequest, caller,
                          sourceCheckPasses, validatorAccepts) == Err(NullPointer)
  {
    ReconcileAdds(s, orcid, list, caller);
  }
}
