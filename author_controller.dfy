/** The Author request handlers (controller/authorController.js): the validation chain
    shared by create and update, and the list, detail, create, delete and update handlers
    over the document store. */
module AuthorController {
  import opened Base
  import opened Validators
  import opened AuthorModel
  import opened CatalogRecords
  import opened Views
  import opened Store

  /** The submitted form body. A field the request leaves out is the empty string, which is
      what the sanitizers make of it. */
  datatype AuthorForm = AuthorForm(
    firstName: string,
    familyName: string,
    dateOfBirth: string,
    dateOfDeath: string)

  const FirstNameLengthMessage := "First name must be longer than 3 characters."
  const FirstNameAlnumMessage := "First name has non-alphanumeric characters."
  const FamilyNameLengthMessage := "Last name must be longer than 2 characters."
  const FamilyNameAlnumMessage := "Last name has non-alphanumeric characters."
  const BirthDateMessage := "Invalid date of birth"
  const DeathDateMessage := "Invalid date of death"

  const AuthorsPath := "/catalog/authors"

  // ---------------------------------------------------------------- validation chain

  /** A name field passes `trim().isLength({min})...isAlphanumeric()`. */
  predicate NameAccepted(raw: string, min: nat) {
    IsLength(Trim(raw), min) && IsAlphanumeric(Trim(raw))
  }

  /** `body(path).trim().isLength({min}).escape().withMessage(m1).isAlphanumeric().withMessage(m2)`:
      the length test sees the trimmed text, the alphanumeric test the escaped text, and both
      report. Escaping never changes the alphanumeric verdict, so the errors are those of the
      two tests on the trimmed text, in chain order. */
  function NameErrors(path: string, raw: string, min: nat, lengthMessage: string, alnumMessage: string)
    : (errs: seq<FieldError>)
    ensures errs ==
      (if IsLength(Trim(raw), min) then [] else [FieldError(path, lengthMessage)])
      + (if IsAlphanumeric(Trim(raw)) then [] else [FieldError(path, alnumMessage)])
    ensures errs == [] <==> NameAccepted(raw, min)
  {
    var t := Trim(raw);
    var lengthErrors := if IsLength(t, min) then [] else [FieldError(path, lengthMessage)];
    var u := Escape(t);
    EscapeAlphanumeric(t);
    lengthErrors + (if IsAlphanumeric(u) then [] else [FieldError(path, alnumMessage)])
  }

  /** The four chains in declaration order, as `validationResult(req).array()` lists them. */
  function AuthorErrors(form: AuthorForm, lib: DateLib): (errs: seq<FieldError>)
    ensures errs == [] <==>
      NameAccepted(form.firstName, 3) && NameAccepted(form.familyName, 2)
      && DateAccepted(form.dateOfBirth, lib) && DateAccepted(form.dateOfDeath, lib)
    ensures |errs| <= 6
  {
    NameErrors("first_name", form.firstName, 3, FirstNameLengthMessage, FirstNameAlnumMessage)
    + NameErrors("family_name", form.familyName, 2, FamilyNameLengthMessage, FamilyNameAlnumMessage)
    + DateErrors("date_of_birth", form.dateOfBirth, BirthDateMessage, lib)
    + DateErrors("date_of_death", form.dateOfDeath, DeathDateMessage, lib)
  }

  /** `new Author({...})` built from the sanitized body: trimmed and escaped names, converted
      dates. */
  function SubmittedAuthor(id: Id, form: AuthorForm, lib: DateLib): (a: Author)
    ensures a.id == id
    ensures form.dateOfBirth == "" ==> a.dateOfBirth.None?
    ensures form.dateOfDeath == "" ==> a.dateOfDeath.None?
  {
    Author(id, Escape(Trim(form.firstName)), Escape(Trim(form.familyName)),
           SubmittedDate(form.dateOfBirth, lib), SubmittedDate(form.dateOfDeath, lib))
  }

  /** A name that passed its chain is stored exactly as trimmed: escaping changed nothing. */
  lemma AcceptedNamesStoredTrimmed(id: Id, form: AuthorForm, lib: DateLib)
    ensures var a := SubmittedAuthor(id, form, lib);
      (NameAccepted(form.firstName, 3) ==> a.firstName == Trim(form.firstName))
      && (NameAccepted(form.familyName, 2) ==> a.familyName == Trim(form.familyName))
  {
    EscapeAlnum(Trim(form.firstName));
    EscapeAlnum(Trim(form.familyName));
  }

  /** An accepted form yields names of at least 3 and 2 letters or digits with no surrounding
      blanks, so the schema's `required` checks hold and only its 100-unit limit can fail. */
  lemma AcceptedAuthorMeetsSchemaUpToLength(id: Id, form: AuthorForm, lib: DateLib)
    requires AuthorErrors(form, lib) == []
    ensures var a := SubmittedAuthor(id, form, lib);
      IsAlphanumeric(a.firstName) && |a.firstName| >= 3
      && IsAlphanumeric(a.familyName) && |a.familyName| >= 2
      && (SchemaValid(a) <==> JsLength(a.firstName) <= MaxNameLength && JsLength(a.familyName) <= MaxNameLength)
  {
    var a := SubmittedAuthor(id, form, lib);
    AcceptedNamesStoredTrimmed(id, form, lib);
    assert |a.firstName| >= CountedLength(a.firstName) >= 3;
    assert |a.familyName| >= CountedLength(a.familyName) >= 2;
  }

  // ---------------------------------------------------------------- handlers

  /** author_list: every stored Author once, in ascending family-name order. */
  method AuthorList(db: Database) returns (resp: Response)
    requires db.Valid()
    ensures resp.Render? && resp.view == "author_list" && resp.title == "Author List"
    ensures resp.data.AuthorListData?
    ensures SortedBy(resp.data.authorList, FamilyNameOf)
    ensures multiset(resp.data.authorList) == multiset(db.authors.Values)
  {
    var all := db.AuthorsByFamilyName();
    resp := Render("author_list", "Author List", AuthorListData(all));
  }

  /** author_detail: a missing Author is a 404 error; otherwise the Author with every Book
      that references it. */
  method AuthorDetail(db: Database, id: Id) returns (resp: Response)
    requires db.Valid()
    ensures id !in db.authors ==> resp == Error(NotFound, "Author not found")
    ensures id in db.authors ==>
      resp.Render? && resp.view == "author_detail" && resp.title == "Author Detail"
      && resp.data.AuthorDetailData? && resp.data.author == db.authors[id]
      && multiset(resp.data.books) == multiset(BooksByAuthor(db.books, id))
  {
    var books := db.BooksOf(id);
    if id !in db.authors {
      return Error(NotFound, "Author not found");
    }
    resp := Render("author_detail", "Author Detail", AuthorDetailData(db.authors[id], books));
  }

  /** author_create_post: an invalid form re-renders with the submitted values and the errors;
      a valid one that matches a stored Author (names ignoring case, equal dates) redirects
      there; otherwise the new Author is saved and the answer redirects to it. A save the
      schema refuses is an error and writes nothing. Other collections never change. */
  method AuthorCreatePost(db: Database, form: AuthorForm, newId: Id, lib: DateLib) returns (resp: Response)
    requires db.Valid() && newId !in db.authors
    modifies db`authors
    ensures db.Valid()
    ensures var errs, a := AuthorErrors(form, lib), SubmittedAuthor(newId, form, lib);
      errs != [] ==>
        db.authors == old(db.authors)
        && resp == Render("author_form", "Create author", AuthorFormData(a, errs))
    ensures var errs, a := AuthorErrors(form, lib), SubmittedAuthor(newId, form, lib);
      errs == [] && HasMatch(old(db.authors), a) ==>
        db.authors == old(db.authors)
        && exists k :: k in db.authors && Matches(db.authors[k], a) && resp == Redirect(Url(k))
    ensures var errs, a := AuthorErrors(form, lib), SubmittedAuthor(newId, form, lib);
      errs == [] && !HasMatch(old(db.authors), a) && SchemaValid(a) ==>
        db.authors == old(db.authors)[newId := a] && resp == Redirect(Url(newId))
    ensures var errs, a := AuthorErrors(form, lib), SubmittedAuthor(newId, form, lib);
      errs == [] && !HasMatch(old(db.authors), a) && !SchemaValid(a) ==>
        db.authors == old(db.authors) && resp == Error(ServerError, "Author validation failed")
  {
    var errs := AuthorErrors(form, lib);
    var author := SubmittedAuthor(newId, form, lib);
    if errs != [] {
      return Render("author_form", "Create author", AuthorFormData(author, errs));
    }
    var existing := db.FindMatchingAuthor(author);
    if existing.Some? {
      var k :| k in db.authors && db.authors[k] == existing.value;
      assert k == existing.value.id;
      return Redirect(Url(k));
    }
    var saved := db.SaveAuthor(author);
    if !saved {
      return Error(ServerError, "Author validation failed");
    }
    resp := Redirect(Url(author.id));
  }

  /** author_delete_post: while a Book references `id` nothing changes and the confirmation
      page lists those Books; otherwise the Author named by the body's `authorid` is removed
      and nothing else changes. When the two ids agree, no Book is left without its Author. */
  method AuthorDeletePost(db: Database, id: Id, authorId: Id) returns (resp: Response)
    requires db.Valid()
    modifies db`authors
    ensures db.Valid()
    ensures BooksByAuthor(db.books, id) != {} ==>
      db.authors == old(db.authors)
      && resp.Render? && resp.view == "author_delete" && resp.title == "Delete Author"
      && resp.data.AuthorDeleteData?
      && resp.data.deleteAuthor == (if id in db.authors then Some(db.authors[id]) else None)
      && SortedBy(resp.data.bookList, TitleOf)
      && multiset(resp.data.bookList) == multiset(BooksByAuthor(db.books, id))
    ensures BooksByAuthor(db.books, id) == {} ==>
      db.authors == old(db.authors) - {authorId} && resp == Redirect(AuthorsPath)
    ensures authorId == id && old(BooksReferToAuthors(db.authors, db.books)) ==>
      BooksReferToAuthors(db.authors, db.books)
  {
    var author := if id in db.authors then Some(db.authors[id]) else None;
    var bookList := db.BooksOf(id);
    if |bookList| > 0 {
      assert bookList[0] in multiset(BooksByAuthor(db.books, id));
      return Render("author_delete", "Delete Author", AuthorDeleteData(author, bookList));
    }
    assert BooksByAuthor(db.books, id) == {} by {
      assert multiset(BooksByAuthor(db.books, id)) == multiset{};
    }
    forall k | k in db.books
      ensures db.books[k].author != id
    {
      assert db.books[k] in db.books.Values;
      assert db.books[k] !in BooksByAuthor(db.books, id);
    }
    db.DeleteAuthorById(authorId);
    resp := Redirect(AuthorsPath);
  }

  /** author_update_get: a missing Author redirects to the list; otherwise the form is shown
      filled with the stored Author and no errors. */
  method AuthorUpdateGet(db: Database, id: Id) returns (resp: Response)
    ensures id !in db.authors ==> resp == Redirect(AuthorsPath)
    ensures id in db.authors ==> resp == Render("author_form", "Update form", AuthorFormData(db.authors[id], []))
  {
    if id !in db.authors {
      return Redirect(AuthorsPath);
    }
    resp := Render("author_form", "Update form", AuthorFormData(db.authors[id], []));
  }

  /** author_update_post: an invalid form re-renders with the submitted values (under the
      same id) and the errors; a valid one replaces the fields of the Author stored at `id`,
      keeping that id and every other document, and redirects to its url. Updating an id
      that is not stored writes nothing and fails reading `.url` of null. */
  method AuthorUpdatePost(db: Database, form: AuthorForm, id: Id, lib: DateLib) returns (resp: Response)
    requires db.Valid()
    modifies db`authors
    ensures db.Valid()
    ensures var errs, a := AuthorErrors(form, lib), SubmittedAuthor(id, form, lib);
      errs != [] ==>
        db.authors == old(db.authors)
        && resp == Render("author_form", "Update Author", AuthorFormData(a, errs))
    ensures var errs, a := AuthorErrors(form, lib), SubmittedAuthor(id, form, lib);
      errs == [] && id in old(db.authors) ==>
        db.authors == old(db.authors)[id := a] && db.authors[id].id == id && resp == Redirect(Url(id))
    ensures AuthorErrors(form, lib) == [] && id !in old(db.authors) ==>
      db.authors == old(db.authors) && resp == Error(ServerError, NullUrlMessage)
  {
    var errs := AuthorErrors(form, lib);
    var author := SubmittedAuthor(id, form, lib);
    if errs != [] {
      return Render("author_form", "Update Author", AuthorFormData(author, errs));
    }
    ghost var stored := db.authors;
    var before := db.UpdateAuthorById(id, author);
    if before.None? {
      return Error(ServerError, NullUrlMessage);
    }
    assert before.value == stored[id];
    assert before.value.id == id;
    resp := Redirect(Url(before.value.id));
  }

  /** Submitting the same valid create twice stores the Author once: the second submission
      finds the first one (or an earlier match) and only redirects. */
  method CreateTwiceStoresOnce(db: Database, form: AuthorForm, id1: Id, id2: Id, lib: DateLib)
    returns (first: Response, second: Response)
    requires db.Valid() && id1 !in db.authors && id2 !in db.authors && id1 != id2
    requires AuthorErrors(form, lib) == []
    modifies db`authors
    ensures |db.authors| <= |old(db.authors)| + 1
    ensures second.Redirect? || second == first
  {
    first := AuthorCreatePost(db, form, id1, lib);
    ghost var afterFirst := db.authors;
    second := AuthorCreatePost(db, form, id2, lib);
    var a1, a2 := SubmittedAuthor(id1, form, lib), SubmittedAuthor(id2, form, lib);
    assert a1.(id := id2) == a2;
    if first.Redirect? && afterFirst == old(db.authors)[id1 := a1] {
      Collation.EqualsIgnoringCaseIsEquivalence(a1.firstName, a1.firstName, a1.firstName);
      Collation.EqualsIgnoringCaseIsEquivalence(a1.familyName, a1.familyName, a1.familyName);
      assert Matches(afterFirst[id1], a2);
    }
  }

  /** Submitting the same valid update twice leaves the store as the first submission left it. */
  method UpdateTwiceIsIdempotent(db: Database, form: AuthorForm, id: Id, lib: DateLib)
    returns (first: Response, second: Response)
    requires db.Valid()
    modifies db`authors
    ensures second == first
    ensures db.authors == if AuthorErrors(form, lib) == [] && id in old(db.authors)
                          then old(db.authors)[id := SubmittedAuthor(id, form, lib)]
                          else old(db.authors)
  {
    first := AuthorUpdatePost(db, form, id, lib);
    ghost var afterFirst := db.authors;
    second := AuthorUpdatePost(db, form, id, lib);
    if AuthorErrors(form, lib) == [] && id in old(db.authors) {
      var a := SubmittedAuthor(id, form, lib);
      assert afterFirst[id] == a;
      assert afterFirst[id := a] == afterFirst;
    }
  }
}
