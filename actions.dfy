/** The server actions on contact records: create, update, delete, list with
    an optional search text, fetch by id, and the image upload they share.
    The database and the blob store are reached through `Services`, which
    carries the outcome each outside call has in one run. */
module Actions {
  import opened Js
  import opened ContactStore

  /** `{ success: true }` or `{ error: message }`. */
  datatype ActionResult = Success | Error(message: string)

  /** The entries of a submitted contact form (`formData.get(name)`); an
      entry that was not sent is None. */
  datatype ContactForm = ContactForm(
    firstName: Option<string>,
    lastName: Option<string>,
    phoneNumber: Option<string>,
    email: Option<string>,
    company: Option<string>,
    jobTitle: Option<string>,
    notes: Option<string>,
    profileImage: Option<File>,
    currentImageUrl: Option<string>,
    deleteImage: Option<string>)

  /** What the outside world does in one run: whether the database call
      succeeds, what the blob store's `put` returns (None when it throws),
      the uid `nanoid()` draws, and the id and creation time the database
      gives a new row. */
  datatype Services = Services(dbUp: bool, putUrl: Option<string>, newUid: string, newId: int, now: int)

  /** The result of `uploadImage`, and whether it called the blob store. */
  datatype Upload = Upload(url: Option<string>, putCalled: bool)

  const FirstNameRequired := "First name is required."

  function UpdateFailed(id: int): string {
    "Failed to update contact with ID " + IntToString(id) + "."
  }

  function DeleteFailed(id: int): string {
    "Failed to delete contact with ID " + IntToString(id) + "."
  }

  /** `uploadImage`: a missing or empty file gives null without touching the
      blob store; otherwise the URL `put` returns, or null when `put` throws.
      It never fails. */
  function UploadImage(file: Option<File>, putUrl: Option<string>): (r: Upload)
    ensures r.putCalled <==> file.Some? && file.value.size > 0
    ensures !r.putCalled ==> r.url == None
    ensures r.putCalled ==> r.url == putUrl
  {
    if file.None? || file.value.size == 0 then Upload(None, false)
    else Upload(putUrl, true)
  }

  /** `createContact`. A falsy first name is an error before anything else
      happens. Otherwise the image, if a file entry was sent at all, goes
      through `uploadImage`, and a new row is inserted carrying a fresh uid
      and the form's fields; a database failure is reported as an error and
      leaves the table as it was. */
  method CreateContact(table: Table, form: ContactForm, env: Services)
    returns (result: ActionResult, table': Table, putCalled: bool)
    ensures !Truthy(form.firstName) ==> result == Error(FirstNameRequired) && table' == table && !putCalled
    ensures Truthy(form.firstName) ==>
      putCalled == (form.profileImage.Some? && form.profileImage.value.size > 0)
    ensures result == Success <==> Truthy(form.firstName) && env.dbUp
    ensures Truthy(form.firstName) && !env.dbUp ==>
      result == Error("Failed to create contact.") && table' == table
    ensures result == Success ==> |table'| == |table| + 1 && table'[..|table|] == table
    ensures result == Success ==>
      var row := table'[|table|];
      && row.id == env.newId
      && row.uid == Some(env.newUid)
      && row.createdAt == Some(env.now)
      && Some(row.firstName) == form.firstName
      && row.lastName == form.lastName && row.phoneNumber == form.phoneNumber
      && row.email == form.email && row.company == form.company
      && row.jobTitle == form.jobTitle && row.notes == form.notes
      && row.profileImageUrl == (if putCalled then env.putUrl else None)
  {
    if !Truthy(form.firstName) {
      return Error(FirstNameRequired), table, false;
    }
    var profileImageUrl: Option<string> := None;
    putCalled := false;
    if form.profileImage.Some? {
      var upload := UploadImage(form.profileImage, env.putUrl);
      profileImageUrl, putCalled := upload.url, upload.putCalled;
    }
    if env.dbUp {
      var row := Contact(env.newId, Some(env.newUid), form.firstName.value, form.lastName,
                         form.phoneNumber, form.email, form.company, form.jobTitle, form.notes,
                         profileImageUrl, Some(env.now));
      result, table' := Success, table + [row];
    } else {
      result, table' := Error("Failed to create contact."), table;
    }
  }

  /** `updateContact`. A falsy first name is an error before anything else
      happens. Otherwise the new image URL is null when "delete image" is
      `on`, else the upload result when a non-empty file was sent, else the
      current URL; the row with that id then takes the form's fields and that
      URL. A missing row or a database failure is reported as an error and
      leaves the table as it was (an upload already done stays done). */
  method UpdateContact(table: Table, id: int, form: ContactForm, env: Services)
    returns (result: ActionResult, table': Table, putCalled: bool)
    ensures !Truthy(form.firstName) ==> result == Error(FirstNameRequired) && table' == table && !putCalled
    ensures putCalled <==> Truthy(form.firstName) && form.deleteImage != Some("on")
                           && form.profileImage.Some? && form.profileImage.value.size > 0
    ensures result == Success <==> Truthy(form.firstName) && env.dbUp && HasId(table, id)
    ensures Truthy(form.firstName) && !(env.dbUp && HasId(table, id)) ==>
      result == Error(UpdateFailed(id)) && table' == table
    ensures result == Success ==> |table'| == |table|
    ensures result == Success ==> forall k :: 0 <= k < |table| ==>
      && table'[k].id == table[k].id && table'[k].uid == table[k].uid
      && table'[k].createdAt == table[k].createdAt
      && (table[k].id != id ==> table'[k] == table[k])
    ensures result == Success ==> forall k :: 0 <= k < |table| && table[k].id == id ==>
      && Some(table'[k].firstName) == form.firstName
      && table'[k].lastName == form.lastName && table'[k].phoneNumber == form.phoneNumber
      && table'[k].email == form.email && table'[k].company == form.company
      && table'[k].jobTitle == form.jobTitle && table'[k].notes == form.notes
      && table'[k].profileImageUrl ==
           if form.deleteImage == Some("on") then None
           else if form.profileImage.Some? && form.profileImage.value.size > 0 then env.putUrl
           else form.currentImageUrl
  {
    if !Truthy(form.firstName) {
      return Error(FirstNameRequired), table, false;
    }
    var newProfileImageUrl := form.currentImageUrl;
    putCalled := false;
    if form.deleteImage == Some("on") {
      newProfileImageUrl := None;
    } else if form.profileImage.Some? && form.profileImage.value.size > 0 {
      var upload := UploadImage(form.profileImage, env.putUrl);
      newProfileImageUrl, putCalled := upload.url, upload.putCalled;
    }
    var data := UpdateData(form.firstName.value, form.lastName, form.phoneNumber, form.email,
                           form.company, form.jobTitle, form.notes, newProfileImageUrl);
    var updated := UpdateById(table, id, data);
    if env.dbUp && updated.Some? {
      result, table' := Success, updated.value;
    } else {
      result, table' := Error(UpdateFailed(id)), table;
    }
  }

  /** `deleteContact`: removes the row with that id, or reports an error
      (a missing row or a database failure) with the table unchanged. */
  function DeleteContact(table: Table, id: int, dbUp: bool): (r: (ActionResult, Table))
    ensures r.0 == Success <==> dbUp && HasId(table, id)
    ensures r.0 != Success ==> r.0 == Error(DeleteFailed(id)) && r.1 == table
    ensures r.0 == Success ==> !HasId(r.1, id)
    ensures r.0 == Success ==> forall c: Contact :: c.id != id ==> multiset(r.1)[c] == multiset(table)[c]
  {
    var deleted := DeleteById(table, id);
    if dbUp && deleted.Some? then (Success, deleted.value) else (Error(DeleteFailed(id)), table)
  }

  /** The where clause of `getContacts`: none for a falsy query, otherwise a
      case-insensitive `contains` on any of the seven searchable fields. */
  function SearchClause(query: Option<string>): (w: Where)
    ensures !Truthy(query) <==> w == Everything
    ensures Truthy(query) ==> w == AnyFieldContains(query.value)
  {
    if Truthy(query) then AnyFieldContains(query.value) else Everything
  }

  /** `getContacts`: the rows matching the query, newest first; a database
      failure gives the empty list. */
  function GetContacts(table: Table, query: Option<string>, dbUp: bool): (r: Table)
    ensures !dbUp ==> r == []
    ensures dbUp ==> NewestFirst(r)
    ensures dbUp ==> forall c ::
                       multiset(r)[c] == if Satisfies(c, SearchClause(query)) then multiset(table)[c] else 0
  {
    if dbUp then FindMany(table, SearchClause(query)) else []
  }

  /** `getContactById`: the row with that id; null when there is none or the
      database call fails. */
  function GetContactById(table: Table, id: int, dbUp: bool): (r: Option<Contact>)
    ensures r.Some? <==> dbUp && HasId(table, id)
    ensures r.Some? ==> r.value in table && r.value.id == id
  {
    if dbUp then FindUnique(table, id) else None
  }

  // ---------------------------------------------------------------------
  // properties of the search

  /** Without a query text every row is listed; the listing is then a
      reordering of the whole table. */
  lemma NoQueryListsEverything(table: Table, query: Option<string>)
    requires !Truthy(query)
    ensures multiset(GetContacts(table, query, true)) == multiset(table)
    ensures |GetContacts(table, query, true)| == |table|
  {
    var r := GetContacts(table, query, true);
    assert forall c :: multiset(r)[c] == multiset(table)[c];
    assert multiset(r) == multiset(table);
    assert |multiset(r)| == |multiset(table)|;
  }

  /** With a query text, a row is listed iff at least one of its seven
      searchable fields contains the text, ignoring case. */
  lemma SearchMatchesAnyField(table: Table, query: string, c: Contact)
    requires query != ""
    ensures c in GetContacts(table, Some(query), true) <==>
      c in table &&
      (FieldContains(Some(c.firstName), query)
       || FieldContains(c.lastName, query) || FieldContains(c.phoneNumber, query)
       || FieldContains(c.email, query) || FieldContains(c.company, query)
       || FieldContains(c.jobTitle, query) || FieldContains(c.notes, query))
  {
    ListedIffSatisfies(table, Some(query), c);
    SatisfiesAnyField(c, query);
  }

  lemma SatisfiesAnyField(c: Contact, query: string)
    ensures Satisfies(c, AnyFieldContains(query)) <==>
      (FieldContains(Some(c.firstName), query)
       || FieldContains(c.lastName, query) || FieldContains(c.phoneNumber, query)
       || FieldContains(c.email, query) || FieldContains(c.company, query)
       || FieldContains(c.jobTitle, query) || FieldContains(c.notes, query))
  {
    var f := SearchFields(c);
    assert f[0] == Some(c.firstName) && f[1] == c.lastName && f[2] == c.phoneNumber && f[3] == c.email;
    assert f[4] == c.company && f[5] == c.jobTitle && f[6] == c.notes;
    if Satisfies(c, AnyFieldContains(query)) {
      var k :| 0 <= k < 7 && FieldContains(f[k], query);
      assert k == 0 || k == 1 || k == 2 || k == 3 || k == 4 || k == 5 || k == 6;
    }
  }

  lemma ListedIffSatisfies(table: Table, query: Option<string>, c: Contact)
    ensures c in GetContacts(table, query, true) <==> c in table && Satisfies(c, SearchClause(query))
  {
    var r := GetContacts(table, query, true);
    assert c in r <==> multiset(r)[c] > 0;
    assert c in table <==> multiset(table)[c] > 0;
  }

  /** A field always contains itself, so searching for a row's own first
      name lists it. */
  lemma SearchFindsOwnFirstName(table: Table, c: Contact)
    requires c in table && c.firstName != ""
    ensures c in GetContacts(table, Some(c.firstName), true)
  {
    assert ToLower(c.firstName) <= ToLower(c.firstName)[0..];
    assert IncludesIgnoringCase(c.firstName, c.firstName);
    SearchMatchesAnyField(table, c.firstName, c);
  }
}
