/** The contact-form handler (`api/contacts.js`) over `data/contacts.json`.
    Contacts are submitted, listed and deleted, never updated. */
module ContactsApi {
  import opened Util
  import opened Json
  import opened Store

  /** What `contactsRouter` dispatches a request to. */
  datatype Route = ListContacts | GetContact | AddContact | DeleteContact | RejectMethod

  /** `contactsRouter`: GET (one or all, on a truthy `id`), POST and DELETE; every
      other method, PUT included, is refused with 405. */
  function ContactsRouter(httpMethod: string, id: Option<string>): (r: Route)
    ensures r == RejectMethod <==> httpMethod !in {"GET", "POST", "DELETE"}
    ensures r == GetContact <==> httpMethod == "GET" && id.Some? && id.value != ""
    ensures r == ListContacts <==> httpMethod == "GET" && (id.None? || id.value == "")
    ensures r == AddContact <==> httpMethod == "POST"
    ensures r == DeleteContact <==> httpMethod == "DELETE"
  {
    if httpMethod == "GET" then
      if id.Some? && id.value != "" then GetContact else ListContacts
    else if httpMethod == "POST" then AddContact
    else if httpMethod == "DELETE" then DeleteContact
    else RejectMethod
  }

  /** The `!name || !email || !message` guard. */
  predicate ValidContact(body: Fields) {
    Truthy(Get(body, "name")) && Truthy(Get(body, "email")) && Truthy(Get(body, "message"))
  }

  /** The stored contact: exactly these properties, whatever else the form sent,
      and no `updatedAt`. */
  function NewContact(id: int, body: Fields, now: string): (r: Record)
    requires ValidContact(body)
    ensures r.id == id && Defined(r.fields)
    ensures r.fields.Keys == {"name", "email", "message", "createdAt"}
    ensures forall k :: k in {"name", "email", "message"} ==> r.fields[k] == body[k]
    ensures r.fields["createdAt"] == Str(now)
  {
    Record(id, map[
      "name" := body["name"],
      "email" := body["email"],
      "message" := body["message"],
      "createdAt" := Str(now)])
  }

  /** `addContact`: 400 with nothing written, or push the new contact. */
  method AddContactTo(file: Collection, body: Fields, now: string) returns (resp: Response)
    modifies file
    ensures !ValidContact(body) ==> resp == BadRequest && file.records == old(file.records) && file.saved == old(file.saved)
    ensures ValidContact(body) ==>
      resp == Created(NewContact(NextId(old(file.records)), body, now))
      && file.records == old(file.records) + [resp.record]
      && file.saved == old(file.saved) + [file.records]
    ensures old(UniqueIds(file.records)) ==> UniqueIds(file.records)
  {
    if !ValidContact(body) {
      return BadRequest;
    }
    var contact := NewContact(NextId(file.records), body, now);
    file.Push(contact);
    resp := Created(contact);
  }
}
