/**
 * The contact-form handlers of controllers/contactController.js.
 * `createContact` checks that the five fields are there, then runs a loose
 * email check, and only then builds a document, which is cast (trimmed and
 * lower-cased) as it is built; `save()` then validates it against the schema
 * before the store is written.
 * `getContacts` lists every stored contact, newest first.
 *
 * The document store is an oracle: `insert` writes a validated document and
 * reports its id and creation time, or fails; `fetched` is what the query
 * returned, or `None` when it failed.
 */
module ContactController {
  import opened Wrappers
  import opened JsStrings
  import opened ContactModel

  /** `req.body`: the string fields the client sent; a missing key is `undefined`. */
  type Body = map<string, string>

  /** A saved contact: the store's id and `createdAt` timestamp (from `timestamps: true`) and the document. */
  datatype StoredContact = StoredContact(id: string, createdAt: int, doc: ContactDoc)

  datatype InsertResult = Inserted(id: string, createdAt: int) | InsertFailed

  /** `Created` is status 201 with the saved record; everything else is an error reply. */
  datatype CreateReply = Created(saved: StoredContact) | CreateRejected(status: int, message: string)
  {
    function Status(): int {
      match this
      case Created(_) => 201
      case CreateRejected(status, _) => status
    }
  }

  /** `Listed` is status 200 with the contacts in the order returned. */
  datatype ListReply = Listed(contacts: seq<StoredContact>) | ListFailed(status: int, message: string)

  const FieldsRequiredMessage: string := "All fields are required."
  const InvalidEmailMessage: string := "Invalid email address."
  const CreateFailedMessage: string := "Failed to create contact."
  const ListFailedMessage: string := "Failed to fetch contacts."

  /** `!field` is false: the field was sent and is not the empty string. */
  predicate Present(body: Body, key: string) {
    key in body && body[key] != ""
  }

  /** None of `firstname`, `lastname`, `email`, `phone`, `message` is missing or empty. */
  predicate AllPresent(body: Body) {
    && Present(body, "firstname") && Present(body, "lastname") && Present(body, "email")
    && Present(body, "phone") && Present(body, "message")
  }

  /** The fields as handed to `new Contact({...})`, before casting. */
  function RawDoc(body: Body): ContactDoc
    requires AllPresent(body)
  {
    ContactDoc(body["firstname"], body["lastname"], body["email"], body["phone"], body["message"])
  }

  /** `createContact` (controllers/contactController.js:2-48). */
  function CreateContact(body: Body, insert: ContactDoc -> InsertResult): (r: CreateReply)
    ensures r.Status() in {201, 400, 500}
    ensures r.Created? ==>
      && AllPresent(body) && LooseEmail(body["email"])
      && r.saved.doc == Cast(RawDoc(body)) && SchemaValid(r.saved.doc)
      && insert(r.saved.doc) == Inserted(r.saved.id, r.saved.createdAt)
    ensures r.Status() == 400 <==> !AllPresent(body) || !LooseEmail(body["email"])
  {
    if !AllPresent(body) then CreateRejected(400, FieldsRequiredMessage)
    else if !LooseEmail(body["email"]) then CreateRejected(400, InvalidEmailMessage)
    else
      var doc := Cast(RawDoc(body));
      if !SchemaValid(doc) then CreateRejected(500, CreateFailedMessage)
      else match insert(doc)
        case InsertFailed => CreateRejected(500, CreateFailedMessage)
        case Inserted(id, createdAt) => Created(StoredContact(id, createdAt, doc))
  }

  /** Contacts ordered by `createdAt`, newest first: no contact is newer than the one before it. */
  predicate NewestFirst(s: seq<StoredContact>) {
    forall i :: 0 < i < |s| ==> s[i - 1].createdAt >= s[i].createdAt
  }

  /** In a newest-first list every contact is at least as new as every later one. */
  lemma {:induction false} NewestFirstOrdered(s: seq<StoredContact>)
    requires NewestFirst(s)
    ensures forall i, j :: 0 <= i < j < |s| ==> s[i].createdAt >= s[j].createdAt
    decreases |s|
  {
    if |s| > 1 {
      NewestFirstOrdered(s[1..]);
      forall i, j | 0 <= i < j < |s| ensures s[i].createdAt >= s[j].createdAt {
        if 0 < i {
          assert s[i] == s[1..][i - 1] && s[j] == s[1..][j - 1];
        } else if 1 < j {
          assert s[1] == s[1..][0] && s[j] == s[1..][j - 1];
        }
      }
    }
  }

  /** Puts `c` into a newest-first list, ahead of any contact no newer than it. */
  function InsertByDate(c: StoredContact, s: seq<StoredContact>): (r: seq<StoredContact>)
    requires NewestFirst(s)
    ensures NewestFirst(r)
    ensures multiset(r) == multiset(s) + multiset{c}
    ensures |r| == |s| + 1 && (r[0] == c || (s != [] && r[0] == s[0]))
  {
    if s == [] || c.createdAt >= s[0].createdAt then [c] + s
    else
      assert s == [s[0]] + s[1..];
      [s[0]] + InsertByDate(c, s[1..])
  }

  /** `.sort({ createdAt: -1 })`: the same contacts, newest first. */
  function SortNewestFirst(s: seq<StoredContact>): (r: seq<StoredContact>)
    ensures NewestFirst(r)
    ensures multiset(r) == multiset(s)
  {
    if s == [] then []
    else
      assert s == [s[0]] + s[1..];
      InsertByDate(s[0], SortNewestFirst(s[1..]))
  }

  /** `getContacts` (controllers/contactController.js:52-70). */
  function GetContacts(fetched: Option<seq<StoredContact>>): (r: ListReply)
    ensures fetched.None? <==> r == ListFailed(500, ListFailedMessage)
    ensures fetched.Some? <==> r.Listed?
    ensures r.Listed? ==> multiset(r.contacts) == multiset(fetched.value)
    ensures r.Listed? ==> forall i, j :: 0 <= i < j < |r.contacts| ==> r.contacts[i].createdAt >= r.contacts[j].createdAt
  {
    match fetched
    case None => ListFailed(500, ListFailedMessage)
    case Some(all) =>
      var sorted := SortNewestFirst(all);
      NewestFirstOrdered(sorted);
      Listed(sorted)
  }

  // ----- Order of the checks -----

  /** A missing or empty field gives 400 "All fields are required." whatever the email, and nothing is saved. */
  lemma MissingFieldRejected(body: Body, insert: ContactDoc -> InsertResult, other: ContactDoc -> InsertResult)
    requires !AllPresent(body)
    ensures CreateContact(body, insert) == CreateRejected(400, FieldsRequiredMessage)
    ensures CreateContact(body, insert) == CreateContact(body, other)
  {
  }

  /** With every field present, an email failing the loose check gives 400 "Invalid email address.", and nothing is saved. */
  lemma MalformedEmailRejected(body: Body, insert: ContactDoc -> InsertResult, other: ContactDoc -> InsertResult)
    requires AllPresent(body) && !LooseEmail(body["email"])
    ensures CreateContact(body, insert) == CreateRejected(400, InvalidEmailMessage)
    ensures CreateContact(body, insert) == CreateContact(body, other)
  {
  }

  /** Once both checks pass, the outcome is decided by the schema and the store: 201 or 500. */
  lemma ChecksPassedSaves(body: Body, insert: ContactDoc -> InsertResult)
    requires AllPresent(body) && LooseEmail(body["email"])
    ensures var doc := Cast(RawDoc(body));
      && (CreateContact(body, insert).Created? <==> SchemaValid(doc) && insert(doc).Inserted?)
      && (CreateContact(body, insert).CreateRejected? ==> CreateContact(body, insert) == CreateRejected(500, CreateFailedMessage))
  {
  }

  /** A `message` of white space only passes the controller's `!message` check but fails `required`
      after trimming: 500. */
  lemma BlankMessageFailsAtSave(body: Body, insert: ContactDoc -> InsertResult)
    requires AllPresent(body) && LooseEmail(body["email"])
    requires forall i :: 0 <= i < |body["message"]| ==> IsSpace(body["message"][i])
    ensures CreateContact(body, insert) == CreateRejected(500, CreateFailedMessage)
  {
    TrimEmptyIffBlank(body["message"]);
  }

  /** An `email` of white space only passes `!email` but not the loose pattern, so it is refused
      with 400 before anything is built or saved. */
  lemma BlankEmailRejectedEarly(body: Body, insert: ContactDoc -> InsertResult)
    requires AllPresent(body)
    requires forall i :: 0 <= i < |body["email"]| ==> IsSpace(body["email"][i])
    ensures CreateContact(body, insert) == CreateRejected(400, InvalidEmailMessage)
  {
  }

  /** The loose check never turns away an email the schema would keep once cast. */
  lemma SchemaEmailPassesLooseCheck(body: Body, insert: ContactDoc -> InsertResult)
    requires AllPresent(body) && EmailValid(ToLower(Trim(body["email"])))
    ensures CreateContact(body, insert) != CreateRejected(400, InvalidEmailMessage)
  {
    RawEmailValidIsLoose(body["email"]);
  }

  /** An email that passes the loose check but not the schema reaches `save()` and fails there: 500. */
  lemma LooseButInvalidEmailFailsAtSave(body: Body, insert: ContactDoc -> InsertResult)
    requires AllPresent(body) && LooseEmail(body["email"]) && !EmailValid(ToLower(Trim(body["email"])))
    ensures CreateContact(body, insert) == CreateRejected(500, CreateFailedMessage)
  {
  }

  /** Scenario: `local@host.c`, with a one-letter top-level label, gets 500 rather than 400. */
  lemma OneLetterTopLevelFailsAtSave(body: Body, insert: ContactDoc -> InsertResult, local: string, host: string, top: char)
    requires AllPresent(body) && body["email"] == local + ['@'] + host + ['.', top]
    requires IsAtom(local) && IsAtom(host) && IsAsciiLetter(top)
    ensures CreateContact(body, insert) == CreateRejected(500, CreateFailedMessage)
  {
    OneLetterTopLevelLoose(local, host, top);
    OneLetterTopLevelCastRejected(local, host, top);
    LooseButInvalidEmailFailsAtSave(body, insert);
  }

  /** A record that is saved holds the cast fields: trimmed, the email lower-case and accepted by the schema. */
  lemma SavedRecordIsNormalised(body: Body, insert: ContactDoc -> InsertResult)
    requires CreateContact(body, insert).Created?
    ensures var d := CreateContact(body, insert).saved.doc;
      && d.email == ToLower(Trim(body["email"]))
      && Cast(d) == d
      && NoSpace(d.email) && Count(d.email, '@') == 1
  {
    var d := CreateContact(body, insert).saved.doc;
    CastIdempotent(RawDoc(body));
    EmailHasNoSpace(d.email);
    EmailHasOneAt(d.email);
  }
}
