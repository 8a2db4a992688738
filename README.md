# ORCID address manager, modelled in Dafny

This project models the address manager of the ORCID registry
(`AddressManagerImpl`). It keeps the country addresses attached to ORCID
records. Each address is a row filed under a put-code and holds:

- the owning record (its ORCID iD);
- an ISO 3166 alpha-2 country;
- a visibility;
- a display index;
- the ids of the profile and of the client application that wrote it (its source).

The manager's operations on that table are modelled:

- **Duplicate rule** (`isDuplicated`). An incoming address clashes with a stored row of the same record when all three hold:
  - the row is not the one the payload names;
  - the row was written by the calling source;
  - the row has the same country.
- **Privacy defaulting** (`setIncomingPrivacy`). Picks the visibility of a newly created address.
- **`createAddress`**: validate, reject duplicates, stamp the caller's source, choose the visibility, persist.
- **`updateAddress`**: find the row, check the caller, validate, reject duplicates, copy the payload's fields and keep the row's source.
- **`deleteAddress`**: remove a row and report success as a boolean.
- **`updateAddresses`**: a bulk reconciliation. It first deletes every row of the record that no incoming entry names. It then applies the entries in order:
  - an entry naming a row of the record overwrites that row's visibility, country and display index;
  - an entry with no put-code adds a row stamped with the caller's source.

Layout:

- `address_types.dfy` (module `AddressTypes`): the row, the payload, the caller, the profile and the exceptions. A Java reference that may be null is an `Option`.
- `address_rules.dfy` (module `AddressRules`): the per-row rules.
  - The duplicate predicate and the imperative duplicate scan.
  - Privacy defaulting.
  - The rows that create, update and bulk-add build.
- `address_reconcile.dfy` (module `AddressReconcile`): `updateAddresses` as a function of the table before the call (`Reconciled`), with lemmas about which rows survive, what they hold and which rows are added.
- `address_manager.dfy` (module `AddressManager`): the class `AddressTable`.
  - It holds the rows (`map<int, Row>`) and the DAO's id sequence (`nextId`).
  - Its methods follow the Java methods statement by statement, with two departures listed under "## Left out": the inner loop of the update pass is a map lookup, and the two put-code exclusion tests of `updateAddress` are one scan.
  - Each method is proved against a specification function: `CreateOutcome`, `UpdateOutcome`, `DeleteOutcome` or `Reconciled`.
  - Lemmas relate the operations to one another.

Three behaviours of the code are worth noting. The model follows the code in each:

- The comment at line 76 says the duplicate scan of `updateAddress` skips "the same element", but the test at line 77 compares against the payload's put-code (`address.getPutCode()`), not the `putCode` argument. The guarantee that a row is never its own duplicate therefore holds only when the two agree (`UpdateIgnoresOwnRow`). A payload sent by the row's own source that names another put-code or none and keeps the country is reported as a duplicate of the very row it updates (`UpdatedRowCanClashWithItself`).
- Rows added by `updateAddresses` skip validation, the duplicate check and privacy defaulting. An entry without a visibility is stored with none. A later `updateAddress` of that row then dereferences the null visibility (line 60) and fails (`BulkRowWithoutVisibilityBlocksUpdate`).
- `updateAddresses` dereferences the wrapper at line 176 before it tests it for null at line 193. A null wrapper therefore fails with a null-pointer error when the record has rows, and returns null when it has none.

## Model

| member | source | states |
|---|---|---|
| `AddressRules.IsDuplicated` | orcid-core/src/main/java/org/orcid/core/manager/impl/AddressManagerImpl.java:147-158 | reference definition of isDuplicated, with the source's nesting: a clash needs a different put-code, a non-empty element source equal to the caller's, and the same country; `DuplicateExactly` states it flat |
| `AddressRules.DuplicateExactly` | orcid-core/src/main/java/org/orcid/core/manager/impl/AddressManagerImpl.java:147-158 | isDuplicated holds exactly when the row is not the payload's put-code, its element source id is non-empty and equals the caller's source id, and the countries match |
| `AddressRules.NoSourceNoDuplicate` | orcid-core/src/main/java/org/orcid/core/manager/impl/AddressManagerImpl.java:150-151 | a row with no source id and no client source id is never a duplicate, whoever asks |
| `AddressRules.OtherCallerNeverClashes` | orcid-core/src/main/java/org/orcid/core/manager/impl/AddressManagerImpl.java:151-155 | a row whose element source differs from the caller's source id is never a duplicate, whatever its country |
| `AddressRules.AnyDuplicate` | orcid-core/src/main/java/org/orcid/core/manager/impl/AddressManagerImpl.java:104-112 | the loop over the record's rows answers true exactly when some row is a duplicate of the payload |
| `AddressRules.DuplicateError` | orcid-core/src/main/java/org/orcid/core/manager/impl/AddressManagerImpl.java:107-110 | the duplicate exception carries exactly the params type = "address" and value = the payload's country |
| `AddressRules.OwnedRows` | orcid-core/src/main/java/org/orcid/core/manager/impl/AddressManagerImpl.java:104 | the rows listed for a record are exactly the stored rows owned by that record, unchanged |
| `AddressRules.DefaultVisibility` | orcid-core/src/main/java/org/orcid/core/manager/impl/AddressManagerImpl.java:162 | reference definition of the fallback visibility: the profile's activities default, or PRIVATE when it is unset; `IncomingPrivacy` uses it for claimed profiles |
| `AddressRules.IncomingPrivacy` | orcid-core/src/main/java/org/orcid/core/manager/impl/AddressManagerImpl.java:160-168 | the result is never null; a claimed profile gets its default (PRIVATE when unset) whatever the payload says; otherwise a null visibility becomes PRIVATE and a set one is kept |
| `AddressRules.WithPayloadFields` | orcid-core/src/main/java/org/orcid/core/manager/impl/AddressManagerImpl.java:199-202 | copying a payload's visibility, country and display index onto a row never changes its owner or source ids |
| `AddressRules.Stamped` | orcid-core/src/main/java/org/orcid/core/manager/impl/AddressManagerImpl.java:119-125 | a new row belongs to the given record; each source id the caller has replaces the row's, each one it lacks is left as it was |
| `AddressRules.CreatedRow` | orcid-core/src/main/java/org/orcid/core/manager/impl/AddressManagerImpl.java:114-128 | the created row's source ids are the caller's, never the payload's; it belongs to the record, has the payload's country, the assigned display index and a non-null visibility chosen by the privacy table |
| `AddressRules.UpdatedRow` | orcid-core/src/main/java/org/orcid/core/manager/impl/AddressManagerImpl.java:87-92 | the updated row keeps its owner, source id and client source id, and takes the payload's country, visibility and display index |
| `AddressRules.ListedRow` | orcid-core/src/main/java/org/orcid/core/manager/impl/AddressManagerImpl.java:208-223 | a row added by the bulk update belongs to the record, carries the caller's source ids and the entry's country, visibility and display index, with no privacy defaulting |
| `AddressRules.CreatedRowClashesWithSameCaller` | orcid-core/src/main/java/org/orcid/core/manager/impl/AddressManagerImpl.java:147-158 | a row created by a caller with a non-empty source id clashes with that caller's later payload exactly when the country matches and the payload does not name the row |
| `AddressRules.OwnRowNeverDuplicate` | orcid-core/src/main/java/org/orcid/core/manager/impl/AddressManagerImpl.java:147-148 | when the payload names a put-code, scanning all rows and scanning all other rows give the same verdict |
| `AddressReconcile.MatchesSomeEntry` | orcid-core/src/main/java/org/orcid/core/manager/impl/AddressManagerImpl.java:175-183 | the inner loop finds a match exactly when some incoming entry carries the row's put-code |
| `AddressReconcile.Doomed` | orcid-core/src/main/java/org/orcid/core/manager/impl/AddressManagerImpl.java:172-183 | reference definition of the rows the deletion pass removes: the record's rows whose put-code no entry carries (all of them for a null list) |
| `AddressReconcile.Pruned` | orcid-core/src/main/java/org/orcid/core/manager/impl/AddressManagerImpl.java:184-191 | reference definition of the table after the deletion pass: the doomed rows removed, the id sequence unchanged |
| `AddressReconcile.Step` | orcid-core/src/main/java/org/orcid/core/manager/impl/AddressManagerImpl.java:194-225 | reference definition of one entry of the update pass: a put-code naming a listed row of the record overwrites its visibility, country and display index; a put-code naming no such row changes nothing; no put-code adds a `ListedRow` at the next id |
| `AddressReconcile.ApplyEntries` | orcid-core/src/main/java/org/orcid/core/manager/impl/AddressManagerImpl.java:193-227 | reference definition of the update pass: `Step` applied to the entries in list order |
| `AddressReconcile.Reconciled` | orcid-core/src/main/java/org/orcid/core/manager/impl/AddressManagerImpl.java:170-230 | reference definition of a successful updateAddresses, against which `UpdateAddresses` is proved: the deletion pass, then the update pass with the put-codes listed before it |
| `AddressReconcile.PrunedRows` | orcid-core/src/main/java/org/orcid/core/manager/impl/AddressManagerImpl.java:173-191 | the deletion pass keeps a row exactly when it belongs to another record or an entry names it, and keeps it unchanged |
| `AddressReconcile.ApplyEntriesGrowth` | orcid-core/src/main/java/org/orcid/core/manager/impl/AddressManagerImpl.java:193-228 | the update pass hands out one new put-code per entry without a put-code; the new key set is the old one plus exactly those put-codes |
| `AddressReconcile.ApplyEntriesUntouched` | orcid-core/src/main/java/org/orcid/core/manager/impl/AddressManagerImpl.java:195-205 | a row the update pass is not told to change (another record's, or named by no entry) comes out unchanged |
| `AddressReconcile.ApplyEntriesKeepsOrigin` | orcid-core/src/main/java/org/orcid/core/manager/impl/AddressManagerImpl.java:197-204 | the update pass never changes a row's owner or source ids |
| `AddressReconcile.ApplyEntriesLastWins` | orcid-core/src/main/java/org/orcid/core/manager/impl/AddressManagerImpl.java:194-205 | a row named by several entries ends with the visibility, country and display index of the last of them |
| `AddressReconcile.ApplyEntriesAddsAt` | orcid-core/src/main/java/org/orcid/core/manager/impl/AddressManagerImpl.java:206-225 | the k-th entry without a put-code becomes the row at the next put-code after those handed to the earlier such entries |
| `AddressReconcile.ReconcileSurvivors` | orcid-core/src/main/java/org/orcid/core/manager/impl/AddressManagerImpl.java:172-191 | after a bulk update a row of the record survives exactly when some entry names it (none survive a null list); rows of other records are untouched |
| `AddressReconcile.ReconcileKeepsOrigin` | orcid-core/src/main/java/org/orcid/core/manager/impl/AddressManagerImpl.java:193-205 | a bulk update never rewrites the owner or source ids of a row that survives it |
| `AddressReconcile.ReconcileUpdates` | orcid-core/src/main/java/org/orcid/core/manager/impl/AddressManagerImpl.java:195-205 | a named row of the record takes the last naming entry's visibility, country and display index and keeps everything else |
| `AddressReconcile.ReconcileAdds` | orcid-core/src/main/java/org/orcid/core/manager/impl/AddressManagerImpl.java:206-225 | a bulk update adds exactly one row per entry without a put-code, at fresh put-codes in list order, owned by the record and stamped with the caller's source |
| `AddressManager.CreateOutcome` | orcid-core/src/main/java/org/orcid/core/manager/impl/AddressManagerImpl.java:98-131 | reference definition of createAddress, against which `CreateAddress` is proved: validation failure, then duplicate, else the `CreatedRow` at the next put-code |
| `AddressManager.UpdateOutcome` | orcid-core/src/main/java/org/orcid/core/manager/impl/AddressManagerImpl.java:55-96 | reference definition of updateAddress, against which `UpdateAddress` is proved: no row, null stored visibility, failed API source check, failed validation, duplicate, in that order, else the `UpdatedRow` under the same put-code |
| `AddressManager.DeleteOutcome` | orcid-core/src/main/java/org/orcid/core/manager/impl/AddressManagerImpl.java:133-145 | reference definition of deleteAddress, against which `DeleteAddress` is proved: no row, then failed source check, else the remove verdict as a boolean |
| `AddressManager.AddressTable.Persist` | orcid-core/src/main/java/org/orcid/core/manager/impl/AddressManagerImpl.java:129 | persisting stores the row under a put-code no row had and advances the id sequence |
| `AddressManager.AddressTable.CreateAddress` | orcid-core/src/main/java/org/orcid/core/manager/impl/AddressManagerImpl.java:98-131 | the answer is CreateOutcome; on a validation failure or a duplicate the table is unchanged; on success exactly one row is added |
| `AddressManager.AddressTable.UpdateAddress` | orcid-core/src/main/java/org/orcid/core/manager/impl/AddressManagerImpl.java:55-96 | the answer is UpdateOutcome: no row, null stored visibility, failed source check, failed validation and duplicate each leave the table unchanged; on success only the updated row changes |
| `AddressManager.AddressTable.DeleteAddress` | orcid-core/src/main/java/org/orcid/core/manager/impl/AddressManagerImpl.java:133-145 | the row is removed exactly when the answer is true; a failed remove answers false and changes nothing |
| `AddressManager.AddressTable.UpdateAddresses` | orcid-core/src/main/java/org/orcid/core/manager/impl/AddressManagerImpl.java:170-230 | returns its argument and leaves the table equal to Reconciled when no needed delete fails; a failing delete raises UnableToDelete for one doomed row, with no update or add applied; a null wrapper fails or returns null as the record has rows or not |
| `AddressManager.CreateStampsCaller` | orcid-core/src/main/java/org/orcid/core/manager/impl/AddressManagerImpl.java:115-128 | a created row lands at a put-code not in use, belongs to the record, carries the caller's source ids and has a visibility |
| `AddressManager.CreateTwiceIsDuplicate` | orcid-core/src/main/java/org/orcid/core/manager/impl/AddressManagerImpl.java:104-112 | after a caller with a source id creates an address, creating another of the same country for that record is rejected with the duplicate exception |
| `AddressManager.UpdateKeepsOrigin` | orcid-core/src/main/java/org/orcid/core/manager/impl/AddressManagerImpl.java:62-92 | a successful update keeps the row's put-code, owner and source ids, whatever the payload holds, and takes the payload's country and visibility |
| `AddressManager.UpdateIgnoresOwnRow` | orcid-core/src/main/java/org/orcid/core/manager/impl/AddressManagerImpl.java:74-85 | when the payload names the row being updated, only the record's other rows can make the update fail as a duplicate |
| `AddressManager.UpdatedRowCanClashWithItself` | orcid-core/src/main/java/org/orcid/core/manager/impl/AddressManagerImpl.java:74-85 | for every table: when the payload, sent by the row's own source, names another put-code or none and keeps the row's country, updateAddress of that row fails with the duplicate exception |
| `AddressManager.DeleteThenGone` | orcid-core/src/main/java/org/orcid/core/manager/impl/AddressManagerImpl.java:133-145 | after a successful delete, a later delete or update of that put-code finds no row, whatever its source-check and remove verdicts |
| `AddressManager.BulkRowWithoutVisibilityBlocksUpdate` | orcid-core/src/main/java/org/orcid/core/manager/impl/AddressManagerImpl.java:222 | a bulk-added entry with neither put-code nor visibility is stored without a visibility, and updating that row then fails on the null |

## Left out

- Persistence is an in-memory map. A new row's put-code comes from a counter standing in for the database id sequence. The `getLastModified(orcid)` cache key is dropped.
- Transactions and injection (`@Transactional`, `@Resource`) are not modelled. In particular, rollback of an exception raised inside `updateAddress` or `deleteAddress` is not modelled; every model error path leaves the table as the Java statements before the throw left it.
- Timestamps (`lastModified`, `dateCreated`) are wall-clock values and are left out.
- The code of several collaborators is not part of this model. Their verdicts arrive as parameters:
  - `PersonValidator.validateAddress`: `validatorAccepts`;
  - `OrcidSecurityManager.checkSource`: `sourceCheckPasses`;
  - `DisplayIndexCalculatorHelper.setDisplayIndexOnNewEntity`: `assignedIndex`;
  - `ProfileEntityCacheManager.retrieve`: `profile`;
  - the DAO's `remove` and `deleteAddress` throwing: `removeSucceeds`, `deleteFails`.
- `createAddress` passes `isApiRequest` only to the validator and the display-index helper, so the model drops that parameter there.
- Code that is not part of this model is given these definitions:
  - `SourceEntity.getSourceId` is the client id when the caller acts through a client, else the profile id.
  - `getElementSourceId` is the client source id when non-empty, else the source id.
  - The adapter copies country, visibility and display index between payload and row. It never copies the payload's source.
  - `addressDao.getAddress` on a missing or foreign put-code raises an exception (`NoResult`).
- `PojoUtil.isEmpty` is modelled as "null or the empty string". Whitespace-only ids are not treated as empty.
- A payload with a null country is not modelled: `country` is a required field. In the code that case dereferences null at lines 81, 109, 152 and 201.
- The returned DTO (`adapter.toAddress`) is modelled as the stored row with its put-code.
- The update pass of `updateAddresses` looks for an entry's row with an inner loop over the rows listed before the deletion pass (lines 197-205). Put-codes are unique, so that loop finds at most one row, and the model does a map lookup instead. The loop itself is not modelled.
- `updateAddress` tests the put-code at line 77 and again inside `isDuplicated` at line 148. The model runs one scan with the test of line 148 only; the two tests are the same test.
- `UpdateAddresses`: when a delete fails, the contract says which rows may already be gone, not which ones are. The DAO's list order is not modelled, so the deletion pass visits the record's rows in an arbitrary order.
- The tests of the email manager and of the works API in the same repository are not modelled. They test components whose code is not part of this model.
