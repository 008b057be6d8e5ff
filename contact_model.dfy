/** The shape of a stored contact: its required fields, their defaults and
    the timestamps the store keeps. */
module ContactModel {
  import opened Wrappers

  /** One contact document. `userId` is the owning account; `deletedAt` is
      null (None) unless the contact is in the trash. */
  datatype Contact = Contact(
    id: nat,
    userId: nat,
    name: string,
    email: string,
    phone: string,
    isFavorite: bool,
    isDeleted: bool,
    deletedAt: Option<nat>,
    createdAt: nat,
    updatedAt: nat)

  /** The schema's required string fields hold a value (an empty string fails
      a required check): none of the three is blank. */
  predicate HasRequiredFields(c: Contact): (r: bool)
    ensures r <==> "" !in [c.name, c.email, c.phone]
  {
    c.name != "" && c.email != "" && c.phone != ""
  }

  /** The trash invariant: a contact carries a deletion time exactly while it
      is in the trash. */
  predicate WellFormed(c: Contact) {
    c.isDeleted <==> c.deletedAt.Some?
  }

  /** A new document: the given fields, the defaults `isFavorite = false`,
      `isDeleted = false`, `deletedAt = null`, and both timestamps set to the
      time of creation. */
  function NewContact(id: nat, owner: nat, name: string, email: string, phone: string, now: nat): (c: Contact)
    ensures c.id == id && c.userId == owner
    ensures c.name == name && c.email == email && c.phone == phone
    ensures !c.isFavorite && !c.isDeleted && c.deletedAt == None
    ensures c.createdAt == now && c.updatedAt == now
    ensures WellFormed(c)
    ensures HasRequiredFields(c) <==> name != "" && email != "" && phone != ""
  {
    Contact(id, owner, name, email, phone, false, false, None, now, now)
  }
}
