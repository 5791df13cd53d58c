/**
 * The contact form and the server together. `handleSubmit` sends the collected
 * `FormData` through `JSON.stringify`, and `express.json()` hands it to the POST
 * handler: every value the form accepts therefore reaches the server as a non-empty
 * string, and the entry the server stores still passes the form's own rules.
 */
module ContactPipeline {
  import opened Wrappers
  import opened JsString
  import opened ContactForm
  import opened ContactServer

  /** One form value after the JSON round trip: a string stays a string, and the `null`
      of a missing field arrives as a falsy non-string. */
  function Wire(v: Option<string>): ContactServer.Field {
    if v.Some? then Text(v.value) else NonText(false)
  }

  /** The body the POST handler receives for the data `handleSubmit` collected. */
  function RequestBody(d: FormData): PostBody {
    PostBody(Wire(d.name), Wire(d.email), Wire(d.subject), Wire(d.message), Some(d.timestamp))
  }

  /** Whether the POST handler gets past both of its checks. */
  predicate Accepted(b: PostBody) {
    AllPresent(b) && AllText(b)
  }

  /** The entry the POST handler stores for an accepted body. */
  function StoredEntry(b: PostBody, id: string, now: string): Contact
    requires AllText(b)
  {
    NewEntry(id, b.name.text, b.email.text, b.subject.text, b.message.text, b.timestamp, now)
  }

  /** A stored entry read back as form data. */
  function AsFormData(e: Contact): FormData {
    FormData(Some(e.name), Some(e.email), Some(e.subject), Some(e.message), e.timestamp)
  }

  /** The server accepts a request from the form exactly when all four values are
      non-empty strings. */
  lemma AcceptedIff(d: FormData)
    ensures Accepted(RequestBody(d)) <==>
      ContactForm.Truthy(d.name) && ContactForm.Truthy(d.email)
      && ContactForm.Truthy(d.subject) && ContactForm.Truthy(d.message)
  {
  }

  /** Everything the form lets through is accepted by the server. */
  lemma ValidDataIsAccepted(d: FormData)
    requires ValidateData(d) == Valid
    ensures Accepted(RequestBody(d))
  {
    ValidateDataIff(d);
    var at, dot :| SplitsAt(d.email.value, at, dot);
  }

  /** The server only checks presence: it stores a one-letter name the form refuses. */
  lemma ServerAcceptsWhatFormRejects()
    ensures exists d :: ValidateData(d).Invalid? && Accepted(RequestBody(d))
  {
    var d := FormData(Some("J"), Some("j@x.io"), Some("Hello"), Some("Hello there"), "");
    assert TrimStart("J") == "J";
    assert TrimEnd("J") == "J";
    assert ValidateData(d) == Invalid(NameError);
    assert Accepted(RequestBody(d));
  }

  /** A run the regular expression accepts keeps that property through `toLowerCase()`. */
  lemma LowerSegment(s: string, a: int, b: int)
    requires 0 <= a <= b <= |s| && Segment(s[a..b])
    ensures Segment(ToLower(s)[a..b])
  {
    forall i | 0 <= i < b - a
      ensures !IsWhitespace(ToLower(s)[a..b][i]) && ToLower(s)[a..b][i] != '@'
    {
      assert s[a..b][i] == s[a + i];
      ToLowerKeepsSeparators(s, a + i);
    }
  }

  /** Lower-casing an address that matches the regular expression gives one that does. */
  lemma LowerKeepsRegex(s: string)
    requires MatchesEmailRegex(s)
    ensures MatchesEmailRegex(ToLower(s))
  {
    var at, dot :| SplitsAt(s, at, dot);
    LowerSegment(s, 0, at);
    LowerSegment(s, at + 1, dot);
    LowerSegment(s, dot + 1, |s|);
    ToLowerKeepsSeparators(s, at);
    ToLowerKeepsSeparators(s, dot);
    assert ToLower(s)[..at] == ToLower(s)[0..at];
    assert ToLower(s)[dot + 1..] == ToLower(s)[dot + 1..|s|];
    assert s[..at] == s[0..at];
    assert s[dot + 1..] == s[dot + 1..|s|];
    assert SplitsAt(ToLower(s), at, dot);
  }

  /** The entry stored for data the form accepted passes the form's rules again, and
      keeps the form's timestamp. */
  lemma StoredEntryRevalidates(d: FormData, id: string, now: string)
    requires ValidateData(d) == Valid
    ensures Accepted(RequestBody(d))
    ensures ValidateData(AsFormData(StoredEntry(RequestBody(d), id, now))) == Valid
    ensures d.timestamp != "" ==> StoredEntry(RequestBody(d), id, now).timestamp == d.timestamp
  {
    ValidDataIsAccepted(d);
    ValidateDataIff(d);
    var e := StoredEntry(RequestBody(d), id, now);
    var email := d.email.value;
    var at, dot :| SplitsAt(email, at, dot);
    SplitHasNoWhitespace(email, at, dot);
    NoWhitespaceIsTrimmed(email);
    LowerKeepsRegex(email);
    assert e.email == ToLower(email);
    TrimOfTrimmed(e.name);
    TrimOfTrimmed(e.subject);
    TrimOfTrimmed(e.message);
    ValidateDataIff(AsFormData(e));
  }

  /** A submission the form accepts is saved under the id it was given and appears at
      the end of the next listing, after everything that was listed before. */
  method SubmitThenList(store: ContactStore, d: FormData, id: string, now: string)
    returns (saved: Reply, listing: Reply)
    requires store.Valid() && ValidateData(d) == Valid
    modifies store
    ensures store.Valid()
    ensures saved == Saved(SentMessage, id)
    ensures listing == Listing(old(store.list).GetOr([]) + [StoredEntry(RequestBody(d), id, now)])
  {
    ValidDataIsAccepted(d);
    saved := store.Post(RequestBody(d), id, now);
    listing := store.Get();
  }

  /** Deleting a freshly posted entry by its id puts both the list and the entry files
      back as they were, when the id was new; the list comes back even when it did not
      exist before, as an empty one. */
  method PostThenDelete(store: ContactStore, body: PostBody, id: string, now: string)
    returns (saved: Reply, deleted: Reply)
    requires store.Valid() && Accepted(body)
    requires id !in store.files
    requires forall c | c in store.list.GetOr([]) :: c.id != id
    modifies store
    ensures store.Valid()
    ensures saved == Saved(SentMessage, id) && deleted == Deleted(DeletedMessage)
    ensures store.files == old(store.files)
    ensures store.list == Some(old(store.list).GetOr([]))
  {
    saved := store.Post(body, id, now);
    ghost var e := StoredEntry(body, id, now);
    deleted := store.Delete(id);
    DeleteUndoesAppend(old(store.list).GetOr([]), e);
    AddThenRemove(old(store.files), id, e);
  }

  /** Adding a new key and removing it again gives back the map. */
  lemma AddThenRemove<K, V>(m: map<K, V>, k: K, v: V)
    requires k !in m
    ensures m[k := v] - {k} == m
  {
  }
}
