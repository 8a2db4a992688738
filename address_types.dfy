/**
 * The entities the address manager works on: the stored address row
 * (AddressEntity), the incoming address payload (Address / Addresses), the
 * acting caller (SourceEntity), the owner's profile (ProfileEntity) and the
 * exceptions the manager raises.
 *
 * A Java reference that may be null is an `Option`; an id that is a Java
 * `Long` is an unbounded `int`.
 */
module AddressTypes {

  datatype Option<+T> = None | Some(value: T)

  /** Record-level privacy setting of the rc3 record model. */
  datatype Visibility = Public | Limited | RegisteredOnly | Private

  /** One stored address row (AddressEntity); its put-code is the table key. */
  datatype Row = Row(
    owner: string,                    // ORCID iD of the record the row belongs to
    country: string,                  // ISO 3166 alpha-2 country code
    visibility: Option<Visibility>,
    displayIndex: Option<int>,
    sourceId: Option<string>,         // profile that created the row
    clientSourceId: Option<string>)   // client application that created the row

  /** An incoming address payload (Address). `source` is whatever the payload claims. */
  datatype Address = Address(
    putCode: Option<int>,
    country: string,
    visibility: Option<Visibility>,
    displayIndex: Option<int>,
    source: Option<string>)

  /** The wrapper of a bulk update (Addresses); its list may itself be null. */
  datatype Addresses = Addresses(address: Option<seq<Address>>)

  /** The acting caller (SourceEntity): a user profile, a client application, or both. */
  datatype Source = Source(profileId: Option<string>, clientId: Option<string>)

  /** The two profile settings address creation reads. */
  datatype Profile = Profile(claimed: Option<bool>, activitiesVisibilityDefault: Option<Visibility>)

  /** A row as the manager hands it back: with its put-code. */
  datatype Stored = Stored(putCode: int, row: Row)

  /** The exceptions the manager lets escape to its caller. */
  datatype Error =
    | InvalidAddress                                  // PersonValidator.validateAddress rejected the payload
    | DuplicatedElement(params: map<string, string>)  // OrcidDuplicatedElementException
    | WrongSource                                     // OrcidSecurityManager.checkSource rejected the caller
    | NoResult                                        // addressDao.getAddress found no row for (orcid, put-code)
    | NullPointer                                     // a null reference was dereferenced
    | UnableToDelete(putCode: int)                    // ApplicationException raised by a failed bulk delete

  datatype Result<+T> = Ok(value: T) | Err(error: Error)
}
