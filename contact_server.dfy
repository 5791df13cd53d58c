/**
 * The contact API of server.js: POST `/api/contact` checks that the four fields are
 * present, builds a normalised entry, writes it to its own file and appends it to the
 * contacts list; GET `/api/contacts` returns the list; DELETE `/api/contacts/:id`
 * removes the entry's file and filters the entry out of the list.
 *
 * The two kinds of file are the state of a `ContactStore`: the list file is an
 * optional sequence (absent, or present with its entries) and the per-entry files are
 * a map from id to entry. The clock and `Date.now()` are parameters.
 */
module ContactServer {
  import opened Wrappers
  import opened JsString

  const FieldsRequired := "All fields are required"
  const SentMessage := "Message sent successfully!"
  const InternalError := "Internal server error"
  const NotFound := "Contact not found"
  const DeletedMessage := "Contact deleted successfully"

  datatype EntryStatus = New

  /** One stored submission. */
  datatype Contact = Contact(
    id: string,
    name: string,
    email: string,
    subject: string,
    message: string,
    timestamp: string,
    status: EntryStatus)

  /** A field of the parsed JSON body, as far as the handler tells values apart: missing,
      a string, or another JSON value with its truthiness (`null`, `false` and `0` are
      falsy; numbers, arrays and objects otherwise truthy). */
  datatype Field = Absent | Text(text: string) | NonText(truthy: bool)

  predicate Truthy(f: Field) {
    (f.Text? && f.text != "") || (f.NonText? && f.truthy)
  }

  /** The body of a POST; a `timestamp` that is missing, `null` or `''` is `None` or `Some("")`. */
  datatype PostBody = PostBody(name: Field, email: Field, subject: Field, message: Field, timestamp: Option<string>)

  /** What `!name || !email || !subject || !message` lets through. */
  predicate AllPresent(b: PostBody) {
    Truthy(b.name) && Truthy(b.email) && Truthy(b.subject) && Truthy(b.message)
  }

  /** Whether every field has a `trim()` method, i.e. is a string. */
  predicate AllText(b: PostBody) {
    b.name.Text? && b.email.Text? && b.subject.Text? && b.message.Text?
  }

  /** A JSON response: a failure with its status code, or one of the three successes
      (all status 200 with `success: true`). */
  datatype Reply =
    | Failure(code: nat, message: string)
    | Saved(message: string, id: string)
    | Listing(contacts: seq<Contact>)
    | Deleted(message: string)
  {
    function Status(): nat {
      if Failure? then code else 200
    }

    predicate Success() {
      !Failure?
    }
  }

  /** The shape of every entry a POST stores: trimmed text, a trimmed lower-case e-mail
      and status `new`. */
  predicate Normalised(c: Contact) {
    && IsTrimmed(c.name) && IsTrimmed(c.email) && IsTrimmed(c.subject) && IsTrimmed(c.message)
    && (forall i | 0 <= i < |c.email| :: !IsAsciiUpper(c.email[i]))
    && c.status == New
  }

  /** The `contactEntry` object of a POST. */
  function NewEntry(id: string, name: string, email: string, subject: string, message: string,
                    timestamp: Option<string>, now: string): (e: Contact)
    ensures Normalised(e)
    ensures e.id == id
    ensures e.name == Trim(name) && e.subject == Trim(subject) && e.message == Trim(message)
    ensures e.email == ToLower(Trim(email))
    ensures e.timestamp == if timestamp.Some? && timestamp.value != "" then timestamp.value else now
  {
    ToLowerOfTrimmed(Trim(email));
    Contact(
      id,
      Trim(name),
      ToLower(Trim(email)),
      Trim(subject),
      Trim(message),
      if timestamp.Some? && timestamp.value != "" then timestamp.value else now,
      New)
  }

  /** Normalising an entry's own fields again gives back the same entry. */
  lemma NewEntryIdempotent(e: Contact, now: string)
    requires Normalised(e) && e.timestamp != ""
    ensures NewEntry(e.id, e.name, e.email, e.subject, e.message, Some(e.timestamp), now) == e
  {
    TrimOfTrimmed(e.name);
    TrimOfTrimmed(e.email);
    TrimOfTrimmed(e.subject);
    TrimOfTrimmed(e.message);
    assert ToLower(e.email) == e.email;
  }

  /** `contactsList.filter(contact => contact.id !== id)`: exactly the entries with
      another id are kept. */
  function RemoveId(list: seq<Contact>, id: string): (r: seq<Contact>)
    ensures forall c :: c in r <==> c in list && c.id != id
    ensures |r| <= |list|
  {
    if |list| == 0 then []
    else (if list[0].id != id then [list[0]] else []) + RemoveId(list[1..], id)
  }

  /** The filter keeps the order of what it keeps: it distributes over concatenation. */
  lemma {:induction false} RemoveIdAppend(a: seq<Contact>, b: seq<Contact>, id: string)
    ensures RemoveId(a + b, id) == RemoveId(a, id) + RemoveId(b, id)
  {
    if |a| > 0 {
      var head := if a[0].id != id then [a[0]] else [];
      assert (a + b)[0] == a[0];
      assert (a + b)[1..] == a[1..] + b;
      assert RemoveId(a + b, id) == head + RemoveId(a[1..] + b, id);
      RemoveIdAppend(a[1..], b, id);
      assert head + (RemoveId(a[1..], id) + RemoveId(b, id))
          == (head + RemoveId(a[1..], id)) + RemoveId(b, id);
    } else {
      assert a + b == b;
    }
  }

  /** A list with no entry for `id` passes through the filter unchanged. */
  lemma {:induction false} RemoveIdAbsent(list: seq<Contact>, id: string)
    requires forall c | c in list :: c.id != id
    ensures RemoveId(list, id) == list
  {
    if |list| > 0 {
      assert list[0] in list;
      RemoveIdAbsent(list[1..], id);
    }
  }

  /** Filtering twice is filtering once. */
  lemma RemoveIdIdempotent(list: seq<Contact>, id: string)
    ensures RemoveId(RemoveId(list, id), id) == RemoveId(list, id)
  {
    RemoveIdAbsent(RemoveId(list, id), id);
  }

  /** Deleting the id of the entry just appended restores the list, provided no earlier
      entry shares that id. */
  lemma DeleteUndoesAppend(list: seq<Contact>, e: Contact)
    requires forall c | c in list :: c.id != e.id
    ensures RemoveId(list + [e], e.id) == list
  {
    RemoveIdAppend(list, [e], e.id);
    RemoveIdAbsent(list, e.id);
  }

  /** The `contacts/` directory. */
  class ContactStore {
    /** `contacts_list.json`: `None` when it does not exist or cannot be parsed. */
    var list: Option<seq<Contact>>
    /** The files `contact_<id>.json`, by id. */
    var files: map<string, Contact>

    /** Every entry the handlers wrote is normalised, and each file holds the entry of
        its own id. */
    ghost predicate Valid()
      reads this
    {
      && (list.Some? ==> forall c | c in list.value :: Normalised(c))
      && forall id | id in files :: files[id].id == id && Normalised(files[id])
    }

    /** A fresh, empty directory. */
    constructor ()
      ensures Valid() && list == None && files == map[]
    {
      list := None;
      files := map[];
    }

    /** POST `/api/contact`. */
    method Post(body: PostBody, id: string, now: string) returns (reply: Reply)
      requires Valid()
      modifies this
      ensures Valid()
      ensures !AllPresent(body) ==>
        reply == Failure(400, FieldsRequired) && list == old(list) && files == old(files)
      ensures AllPresent(body) && !AllText(body) ==>
        reply == Failure(500, InternalError) && list == old(list) && files == old(files)
      ensures AllPresent(body) && AllText(body) ==>
        var e := NewEntry(id, body.name.text, body.email.text, body.subject.text,
                          body.message.text, body.timestamp, now);
        && reply == Saved(SentMessage, e.id)
        && files == old(files)[e.id := e]
        && list == Some(old(list).GetOr([]) + [e])
    {
      if !AllPresent(body) {
        return Failure(400, FieldsRequired);
      }
      if !AllText(body) {
        // `.trim()` on a value that is not a string throws before anything is written.
        return Failure(500, InternalError);
      }
      var entry := NewEntry(id, body.name.text, body.email.text, body.subject.text,
                            body.message.text, body.timestamp, now);
      files := files[entry.id := entry];
      var contactsList: seq<Contact> := [];
      if list.Some? {
        contactsList := list.value;
      }
      contactsList := contactsList + [entry];
      list := Some(contactsList);
      reply := Saved(SentMessage, entry.id);
    }

    /** GET `/api/contacts`: the stored list, or an empty one when there is none; always
        a success, and every entry listed is normalised. */
    method Get() returns (reply: Reply)
      requires Valid()
      ensures reply.Success() && reply.Status() == 200
      ensures reply == Listing(if list.Some? then list.value else [])
      ensures forall c | c in reply.contacts :: Normalised(c)
    {
      if list.Some? {
        reply := Listing(list.value);
      } else {
        reply := Listing([]);
      }
    }

    /** DELETE `/api/contacts/:id`: the entry's file is removed first (its absence is a
        500); a missing list is then a 404, with the file already gone; otherwise the
        list is filtered and the call succeeds, whether or not an entry matched. */
    method Delete(id: string) returns (reply: Reply)
      requires Valid()
      modifies this
      ensures Valid()
      ensures id !in old(files) ==>
        reply == Failure(500, InternalError) && list == old(list) && files == old(files)
      ensures id in old(files) ==> files == old(files) - {id}
      ensures id in old(files) && old(list).None? ==>
        reply == Failure(404, NotFound) && list == None
      ensures id in old(files) && old(list).Some? ==>
        reply == Deleted(DeletedMessage) && list == Some(RemoveId(old(list).value, id))
    {
      if id !in files {
        // `fs.unlink` rejects.
        return Failure(500, InternalError);
      }
      files := files - {id};
      if list.None? {
        return Failure(404, NotFound);
      }
      var contactsList := RemoveId(list.value, id);
      list := Some(contactsList);
      reply := Deleted(DeletedMessage);
    }
  }
}
