/** The contact handlers: a per-owner keyed store of contact documents with
    a live / trash lifecycle. Every handler that changes a contact (update,
    toggle, soft delete, restore, permanent delete) checks, in this order,
    that it exists (404), that the caller owns it (403), and only then any
    state condition; a failed check leaves the store unchanged. The single
    read `getContact` checks only that the id exists. */
module ContactRepository {
  import opened Wrappers
  import opened ContactModel
  import opened ContactQueries

  const NotFound := "Contact not found"
  const MissingFields := "All fields are mandatory!"
  const NotInTrash := "Contact is not in trash"
  /** A `save()` whose document fails the schema's required checks throws;
      the error carries no status of its own. */
  const SaveFailed: nat := 500
  const ValidationFailed := "Contact validation failed"

  /** The 403 message of a handler, `verb` naming what it does. */
  function Denied(verb: string): string {
    "User doesn't have permission to " + verb + " other user's contact"
  }

  /** The fields a request body may set on an update; None leaves a field as it is. */
  datatype Patch = Patch(name: Option<string>, email: Option<string>, phone: Option<string>)

  /** The shared prologue of the handlers that name a contact: 404 when the
      id is unknown, else 403 when another account owns it, else the record. */
  function Authorize(contacts: map<nat, Contact>, caller: nat, id: nat, verb: string): (r: Result<Contact>)
    ensures id !in contacts ==> r == Err(404, NotFound)
    ensures id in contacts && contacts[id].userId != caller ==> r == Err(403, Denied(verb))
    ensures r.Ok? <==> id in contacts && contacts[id].userId == caller
    ensures r.Ok? ==> r.value == contacts[id]
  {
    if id !in contacts then Err(404, NotFound)
    else if contacts[id].userId != caller then Err(403, Denied(verb))
    else Ok(contacts[id])
  }

  /** An update: the fields the body carries replace the stored ones, empty
      strings included; nothing else but `updatedAt` changes. */
  function Patched(c: Contact, p: Patch, now: nat): (r: Contact)
    ensures r.name == (if p.name.Some? then p.name.value else c.name)
    ensures r.email == (if p.email.Some? then p.email.value else c.email)
    ensures r.phone == (if p.phone.Some? then p.phone.value else c.phone)
    ensures r.(name := c.name, email := c.email, phone := c.phone, updatedAt := c.updatedAt) == c
    ensures r.updatedAt == now
    ensures WellFormed(c) ==> WellFormed(r)
  {
    c.(name := p.name.GetOr(c.name), email := p.email.GetOr(c.email), phone := p.phone.GetOr(c.phone), updatedAt := now)
  }

  /** Flips the favourite flag, in the trash as well; only `updatedAt` also changes. */
  function Toggled(c: Contact, now: nat): (r: Contact)
    ensures r.isFavorite != c.isFavorite
    ensures r.(isFavorite := c.isFavorite, updatedAt := c.updatedAt) == c
    ensures WellFormed(c) ==> WellFormed(r)
  {
    c.(isFavorite := !c.isFavorite, updatedAt := now)
  }

  /** Moves a contact to the trash, stamping the deletion time; a contact
      already in the trash gets a new deletion time. */
  function Trashed(c: Contact, now: nat): (r: Contact)
    ensures r.isDeleted && r.deletedAt == Some(now)
    ensures r.(isDeleted := c.isDeleted, deletedAt := c.deletedAt, updatedAt := c.updatedAt) == c
    ensures WellFormed(r)
  {
    c.(isDeleted := true, deletedAt := Some(now), updatedAt := now)
  }

  /** Takes a contact out of the trash, clearing the deletion time. */
  function Restored(c: Contact, now: nat): (r: Contact)
    ensures !r.isDeleted && r.deletedAt == None
    ensures r.(isDeleted := c.isDeleted, deletedAt := c.deletedAt, updatedAt := c.updatedAt) == c
    ensures WellFormed(r)
  {
    c.(isDeleted := false, deletedAt := None, updatedAt := now)
  }

  /** Toggling twice gives back the original flag and the original record,
      up to the update time. */
  lemma ToggleTwice(c: Contact, t1: nat, t2: nat)
    ensures Toggled(Toggled(c, t1), t2).isFavorite == c.isFavorite
    ensures Toggled(Toggled(c, t1), t2) == c.(updatedAt := t2)
  {
  }

  /** Restoring a contact that was live before it was trashed gives it back
      unchanged, up to the update time. */
  lemma RestoreUndoesTrash(c: Contact, t1: nat, t2: nat)
    requires WellFormed(c) && !c.isDeleted
    ensures Restored(Trashed(c, t1), t2) == c.(updatedAt := t2)
  {
  }

  /** No two elements share an id. */
  predicate DistinctIds(s: seq<Contact>) {
    forall i, j :: 0 <= i < j < |s| ==> s[i].id != s[j].id
  }

  /** A sequence without repeated ids holds each value at most once. */
  lemma {:induction false} DistinctIdsOnce(s: seq<Contact>, c: Contact)
    requires DistinctIds(s)
    ensures multiset(s)[c] <= 1
    decreases |s|
  {
    if s != [] {
      assert s == [s[0]] + s[1..];
      DistinctIdsOnce(s[1..], c);
      forall k | 0 <= k < |s[1..]| ensures s[1..][k] != s[0] {
        assert s[k + 1].id != s[0].id;
      }
    }
  }

  /** A value found at two positions is counted twice. */
  lemma CountAtTwoPositions(r: seq<Contact>, i: nat, j: nat)
    requires i < j < |r|
    ensures multiset(r)[r[i]] >= if r[j] == r[i] then 2 else 1
  {
    assert r == r[..j] + r[j..];
    assert r[i] in multiset(r[..j]);
    assert r[j] in multiset(r[j..]);
  }

  /** Reordering documents of a keyed store keeps their ids distinct. */
  lemma PermutationKeepsDistinct(m: map<nat, Contact>, t: seq<Contact>, r: seq<Contact>)
    requires KeyedById(m) && DistinctIds(t)
    requires forall i :: 0 <= i < |t| ==> t[i].id in m && m[t[i].id] == t[i]
    requires multiset(r) == multiset(t)
    ensures DistinctIds(r)
  {
    forall i, j | 0 <= i < j < |r| ensures r[i].id != r[j].id {
      assert r[i] in multiset(t) && r[j] in multiset(t);
      var a :| 0 <= a < |t| && t[a] == r[i];
      var b :| 0 <= b < |t| && t[b] == r[j];
      DistinctIdsOnce(t, r[i]);
      CountAtTwoPositions(r, i, j);
    }
  }

  /** Scanning every id of a keyed store finds exactly the matching records,
      each stored under its own id, none twice. */
  lemma ScanStore(m: map<nat, Contact>, bound: nat, f: Filter)
    requires KeyedById(m) && forall k :: k in m ==> k < bound
    ensures forall c :: c in Scan(m, bound, f) <==> c in m.Values && Matches(f, c)
    ensures forall i :: 0 <= i < |Scan(m, bound, f)| ==>
              Scan(m, bound, f)[i].id in m && m[Scan(m, bound, f)[i].id] == Scan(m, bound, f)[i]
    ensures DistinctIds(Scan(m, bound, f))
  {
    var found := Scan(m, bound, f);
    forall c ensures c in found <==> c in m.Values && Matches(f, c) {
      if c in m.Values {
        var k :| k in m && m[k] == c;
      }
    }
    forall i | 0 <= i < |found| ensures found[i].id in m && m[found[i].id] == found[i] {
      assert found[i] in found;
    }
  }

  class ContactStore {
    /** The contact collection, keyed by id. */
    var contacts: map<nat, Contact>
    /** The id the next created contact receives. */
    var nextId: nat

    ghost predicate Valid()
      reads this
    {
      && KeyedById(contacts)
      && (forall k :: k in contacts ==> k < nextId)
      && (forall k :: k in contacts ==> WellFormed(contacts[k]))
    }

    constructor ()
      ensures Valid() && contacts == map[] && nextId == 0
    {
      contacts := map[];
      nextId := 0;
    }

    /** The documents passing `f`, in the order `o`, each once. */
    function Query(f: Filter, o: SortOrder): (r: seq<Contact>)
      reads this
      requires Valid()
      ensures forall c :: c in r <==> c in contacts.Values && Matches(f, c)
      ensures Sorted(r, o)
      ensures DistinctIds(r)
    {
      var found := Scan(contacts, nextId, f);
      ScanStore(contacts, nextId, f);
      var r := SortBy(found, o);
      PermutationKeepsDistinct(contacts, found, r);
      SameElements(r, found);
      r
    }

    /** `getContacts`: the caller's live contacts, those matching a non-empty
        search term, in the order the `sort` parameter selects. */
    function GetContacts(caller: nat, search: string, sort: string): (r: seq<Contact>)
      reads this
      requires Valid()
      ensures forall c :: c in r <==>
                c in contacts.Values && c.userId == caller && !c.isDeleted && (search == "" || MatchesSearch(c, search))
      ensures Sorted(r, OrderOf(sort))
      ensures DistinctIds(r)
    {
      Query(Live(caller, search), OrderOf(sort))
    }

    /** `getTrash`: the caller's trashed contacts, most recently deleted first. */
    function GetTrash(caller: nat): (r: seq<Contact>)
      reads this
      requires Valid()
      ensures forall c :: c in r <==> c in contacts.Values && c.userId == caller && c.isDeleted
      ensures forall i, j :: 0 <= i < j < |r| ==> r[j].deletedAt.value <= r[i].deletedAt.value
      ensures DistinctIds(r)
    {
      var r := Query(Trash(caller), DeletedDesc);
      assert forall i :: 0 <= i < |r| ==> r[i] in contacts.Values && r[i].deletedAt.Some? by {
        forall i | 0 <= i < |r| ensures r[i] in contacts.Values && r[i].deletedAt.Some? {
          assert r[i] in r;
          var k :| k in contacts && contacts[k] == r[i];
        }
      }
      r
    }

    /** `getContact`: the record of any id, whoever owns it; 404 for an unknown id. */
    function GetContact(id: nat): (r: Result<Contact>)
      reads this
      ensures r.Ok? <==> id in contacts
      ensures r.Ok? ==> r.value == contacts[id]
      ensures r.Err? ==> r == Err(404, NotFound)
    {
      if id in contacts then Ok(contacts[id]) else Err(404, NotFound)
    }

    /** `getContact` with the ownership check of the other handlers. */
    function GetOwnedContact(caller: nat, id: nat): (r: Result<Contact>)
      reads this
      ensures r.Ok? ==> id in contacts && r.value == contacts[id] && r.value.userId == caller
      ensures r.Err? <==> id !in contacts || contacts[id].userId != caller
      ensures id in contacts && contacts[id].userId != caller ==> r.Err? && r.status == 403
    {
      Authorize(contacts, caller, id, "access")
    }

    /** `createContact`: 400 unless name, email and phone are all non-empty;
        otherwise one new live, non-favourite contact owned by the caller. */
    method CreateContact(caller: nat, name: string, email: string, phone: string, now: nat) returns (r: Result<Contact>)
      requires Valid()
      modifies this
      ensures Valid()
      ensures name == "" || email == "" || phone == "" ==>
                r == Err(400, MissingFields) && contacts == old(contacts) && nextId == old(nextId)
      ensures name != "" && email != "" && phone != "" ==>
                && r == Ok(NewContact(old(nextId), caller, name, email, phone, now))
                && r.value.id !in old(contacts)
                && contacts == old(contacts)[r.value.id := r.value]
                && nextId == old(nextId) + 1
    {
      if name == "" || email == "" || phone == "" {
        return Err(400, MissingFields);
      }
      var c := NewContact(nextId, caller, name, email, phone, now);
      contacts := contacts[nextId := c];
      nextId := nextId + 1;
      r := Ok(c);
    }

    /** `updateContact`: after the existence and ownership checks, the body's
        fields are written as they are, whatever the contact's trash state. */
    method UpdateContact(caller: nat, id: nat, patch: Patch, now: nat) returns (r: Result<Contact>)
      requires Valid()
      modifies this
      ensures Valid() && nextId == old(nextId)
      ensures id !in old(contacts) ==> r == Err(404, NotFound)
      ensures id in old(contacts) && old(contacts)[id].userId != caller ==> r == Err(403, Denied("update"))
      ensures r.Err? ==> contacts == old(contacts)
      ensures id in old(contacts) && old(contacts)[id].userId == caller ==>
                r == Ok(Patched(old(contacts)[id], patch, now)) && contacts == old(contacts)[id := r.value]
    {
      var found := Authorize(contacts, caller, id, "update");
      if found.Err? {
        return found;
      }
      var c := Patched(found.value, patch, now);
      contacts := contacts[id := c];
      r := Ok(c);
    }

    /** `toggleFavorite`: flips the flag of an owned contact, trashed or not.
        The save fails validation when an update has blanked a required field. */
    method ToggleFavorite(caller: nat, id: nat, now: nat) returns (r: Result<Contact>)
      requires Valid()
      modifies this
      ensures Valid() && nextId == old(nextId)
      ensures id !in old(contacts) ==> r == Err(404, NotFound)
      ensures id in old(contacts) && old(contacts)[id].userId != caller ==> r == Err(403, Denied("modify"))
      ensures r.Err? ==> contacts == old(contacts)
      ensures id in old(contacts) && old(contacts)[id].userId == caller && !HasRequiredFields(old(contacts)[id]) ==>
                r == Err(SaveFailed, ValidationFailed)
      ensures id in old(contacts) && old(contacts)[id].userId == caller && HasRequiredFields(old(contacts)[id]) ==>
                r == Ok(Toggled(old(contacts)[id], now)) && contacts == old(contacts)[id := r.value]
    {
      var found := Authorize(contacts, caller, id, "modify");
      if found.Err? {
        return found;
      }
      if !HasRequiredFields(found.value) {
        return Err(SaveFailed, ValidationFailed);
      }
      var c := Toggled(found.value, now);
      contacts := contacts[id := c];
      r := Ok(c);
    }

    /** `deleteContact`: moves an owned contact to the trash, with no check of
        its current state; the save fails validation as for a toggle. */
    method DeleteContact(caller: nat, id: nat, now: nat) returns (r: Result<Contact>)
      requires Valid()
      modifies this
      ensures Valid() && nextId == old(nextId)
      ensures id !in old(contacts) ==> r == Err(404, NotFound)
      ensures id in old(contacts) && old(contacts)[id].userId != caller ==> r == Err(403, Denied("delete"))
      ensures r.Err? ==> contacts == old(contacts)
      ensures id in old(contacts) && old(contacts)[id].userId == caller && !HasRequiredFields(old(contacts)[id]) ==>
                r == Err(SaveFailed, ValidationFailed)
      ensures id in old(contacts) && old(contacts)[id].userId == caller && HasRequiredFields(old(contacts)[id]) ==>
                r == Ok(Trashed(old(contacts)[id], now)) && contacts == old(contacts)[id := r.value]
    {
      var found := Authorize(contacts, caller, id, "delete");
      if found.Err? {
        return found;
      }
      if !HasRequiredFields(found.value) {
        return Err(SaveFailed, ValidationFailed);
      }
      var c := Trashed(found.value, now);
      contacts := contacts[id := c];
      r := Ok(c);
    }

    /** `restoreContact`: 400 for an owned contact that is not in the trash;
        otherwise takes it out of the trash, unless the save fails validation. */
    method RestoreContact(caller: nat, id: nat, now: nat) returns (r: Result<Contact>)
      requires Valid()
      modifies this
      ensures Valid() && nextId == old(nextId)
      ensures id !in old(contacts) ==> r == Err(404, NotFound)
      ensures id in old(contacts) && old(contacts)[id].userId != caller ==> r == Err(403, Denied("restore"))
      ensures id in old(contacts) && old(contacts)[id].userId == caller && !old(contacts)[id].isDeleted ==>
                r == Err(400, NotInTrash)
      ensures r.Err? ==> contacts == old(contacts)
      ensures id in old(contacts) && old(contacts)[id].userId == caller && old(contacts)[id].isDeleted && !HasRequiredFields(old(contacts)[id]) ==>
                r == Err(SaveFailed, ValidationFailed)
      ensures id in old(contacts) && old(contacts)[id].userId == caller && old(contacts)[id].isDeleted && HasRequiredFields(old(contacts)[id]) ==>
                r == Ok(Restored(old(contacts)[id], now)) && contacts == old(contacts)[id := r.value]
    {
      var found := Authorize(contacts, caller, id, "restore");
      if found.Err? {
        return found;
      }
      if !found.value.isDeleted {
        return Err(400, NotInTrash);
      }
      if !HasRequiredFields(found.value) {
        return Err(SaveFailed, ValidationFailed);
      }
      var c := Restored(found.value, now);
      contacts := contacts[id := c];
      r := Ok(c);
    }

    /** `permanentDelete`: removes an owned contact, live or trashed, and
        answers with the removed record; every other record stays as it was. */
    method PermanentDelete(caller: nat, id: nat) returns (r: Result<Contact>)
      requires Valid()
      modifies this
      ensures Valid() && nextId == old(nextId)
      ensures id !in old(contacts) ==> r == Err(404, NotFound)
      ensures id in old(contacts) && old(contacts)[id].userId != caller ==> r == Err(403, Denied("delete"))
      ensures r.Err? ==> contacts == old(contacts)
      ensures id in old(contacts) && old(contacts)[id].userId == caller ==>
                r == Ok(old(contacts)[id]) && contacts == old(contacts) - {id}
      ensures r.Ok? ==> GetContact(id) == Err(404, NotFound)
    {
      var found := Authorize(contacts, caller, id, "delete");
      if found.Err? {
        return found;
      }
      contacts := contacts - {id};
      r := found;
    }
  }

  /** `getContact` answers any authenticated caller with a record another
      account owns, where the ownership check of the other handlers answers 403. */
  lemma GetContactIgnoresOwner(store: ContactStore, caller: nat, id: nat)
    requires id in store.contacts && store.contacts[id].userId != caller
    ensures store.GetContact(id) == Ok(store.contacts[id])
    ensures store.GetOwnedContact(caller, id) == Err(403, Denied("access"))
  {
  }

  /** A search only narrows the live list: whatever a term finds, the list
      without a term holds too. */
  lemma SearchNarrows(store: ContactStore, caller: nat, term: string, sort: string, otherSort: string)
    requires store.Valid()
    ensures forall c :: c in store.GetContacts(caller, term, sort) ==> c in store.GetContacts(caller, "", otherSort)
  {
  }

  /** The trash lifecycle of one contact: created live, it leaves the live
      list and enters the trash when deleted, and comes back to the live list
      when restored. */
  method TrashAndRestore(store: ContactStore, caller: nat, name: string, email: string, phone: string, t0: nat, t1: nat, t2: nat)
    returns (created: Result<Contact>, liveAfterDelete: bool, trashedAfterDelete: bool, liveAfterRestore: bool)
    requires store.Valid()
    requires name != "" && email != "" && phone != ""
    modifies store
    ensures store.Valid()
    ensures created.Ok? && created.value.userId == caller
    ensures !liveAfterDelete && trashedAfterDelete && liveAfterRestore
  {
    created := store.CreateContact(caller, name, email, phone, t0);
    var id := created.value.id;
    var trashed := store.DeleteContact(caller, id, t1);
    assert store.contacts[id] == trashed.value && trashed.value.isDeleted;
    var live := store.GetContacts(caller, "", "");
    assert forall c :: c in live ==> c.id != id by {
      forall c | c in live ensures c.id != id {
        var k :| k in store.contacts && store.contacts[k] == c;
      }
    }
    liveAfterDelete := exists c :: c in live && c.id == id;
    assert store.contacts[id] in store.contacts.Values;
    trashedAfterDelete := trashed.value in store.GetTrash(caller);
    var restored := store.RestoreContact(caller, id, t2);
    assert store.contacts[id] == restored.value && restored.value in store.contacts.Values;
    liveAfterRestore := restored.value in store.GetContacts(caller, "", "");
  }

  /** An update may blank a required field, since it runs no validators; a
      later toggle of that contact then fails its save and changes nothing. */
  method BlankedFieldBlocksToggle(store: ContactStore, caller: nat, id: nat, t1: nat, t2: nat)
    returns (updated: Result<Contact>, toggled: Result<Contact>)
    requires store.Valid()
    requires id in store.contacts && store.contacts[id].userId == caller
    modifies store
    ensures store.Valid()
    ensures updated.Ok? && updated.value.name == ""
    ensures toggled == Err(SaveFailed, ValidationFailed)
    ensures store.contacts == old(store.contacts)[id := updated.value]
  {
    updated := store.UpdateContact(caller, id, Patch(Some(""), None, None), t1);
    toggled := store.ToggleFavorite(caller, id, t2);
  }
}
