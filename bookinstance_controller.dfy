/** The BookInstance request handlers (controller/bookinstanceController.js): the validation
    chain shared by create and update, and the detail, create, delete and update handlers
    over the document store. */
module BookInstanceController {
  import opened Base
  import opened Validators
  import opened CatalogRecords
  import opened Views
  import opened Store

  /** The submitted form body; a field the request leaves out is the empty string. */
  datatype InstanceForm = InstanceForm(
    book: string,
    imprint: string,
    status: string,
    dueBack: string)

  const BookMessage := "Please select a book."
  const ImprintMessage := "Imprint must be longer than 1 character."
  const DueBackMessage := "Invalid date"

  const InstancesPath := "/catalog/bookinstances"
  /** Where the update form sends a request for a missing copy (a different path from the list). */
  const MissingInstancePath := "/catalog/instances"

  // ---------------------------------------------------------------- validation chain

  /** `body(path, message).trim().isLength({min: 1})`: the trimmed text must count at least one
      character, or the field reports its message. */
  function NonBlankErrors(path: string, raw: string, message: string): (errs: seq<FieldError>)
    ensures errs == [] <==> IsLength(Trim(raw), 1)
    ensures errs != [] ==> errs == [FieldError(path, message)]
    ensures AllWhitespace(raw) ==> errs == [FieldError(path, message)]
  {
    if IsLength(Trim(raw), 1) then [] else [FieldError(path, message)]
  }

  /** The chains in declaration order. `status` is only escaped, so it never reports. */
  function InstanceErrors(form: InstanceForm, lib: DateLib): (errs: seq<FieldError>)
    ensures errs == [] <==>
      IsLength(Trim(form.book), 1) && IsLength(Trim(form.imprint), 1) && DateAccepted(form.dueBack, lib)
    ensures |errs| <= 3
  {
    NonBlankErrors("book", form.book, BookMessage)
    + NonBlankErrors("imprint", form.imprint, ImprintMessage)
    + DateErrors("due_back", form.dueBack, DueBackMessage, lib)
  }

  /** The status text takes no part in validation: any status gives the same errors. */
  lemma StatusNeverRejected(form: InstanceForm, status: string, lib: DateLib)
    ensures InstanceErrors(form.(status := status), lib) == InstanceErrors(form, lib)
  {
  }

  /** `new BookInstance({...})` built from the sanitized body: book and imprint trimmed and
      escaped, status escaped, the due date converted. */
  function SubmittedInstance(id: Id, form: InstanceForm, lib: DateLib): (c: BookInstance)
    ensures c.id == id
    ensures form.dueBack == "" ==> c.dueBack.None?
  {
    BookInstance(id, Escape(Trim(form.book)), Escape(Trim(form.imprint)), Escape(form.status),
                 SubmittedDate(form.dueBack, lib))
  }

  /** An accepted form stores a non-empty book reference and imprint, and no stored text
      field holds a markup character. */
  lemma AcceptedInstanceFields(id: Id, form: InstanceForm, lib: DateLib)
    requires InstanceErrors(form, lib) == []
    ensures var c := SubmittedInstance(id, form, lib);
      c.book != [] && c.imprint != []
      && (forall i :: 0 <= i < |c.status| ==> !IsMarkup(c.status[i]))
      && (forall i :: 0 <= i < |c.imprint| ==> !IsMarkup(c.imprint[i]))
  {
    var c := SubmittedInstance(id, form, lib);
    assert |c.book| >= |Trim(form.book)| >= CountedLength(Trim(form.book)) >= 1;
    assert |c.imprint| >= |Trim(form.imprint)| >= CountedLength(Trim(form.imprint)) >= 1;
  }

  // ---------------------------------------------------------------- handlers

  /** The Book a copy references, as `populate("book")` fills it in: None when it is gone. */
  function PopulatedBook(books: map<Id, Book>, c: BookInstance): (r: Option<Book>)
    ensures r.Some? <==> c.book in books
    ensures r.Some? ==> r.value == books[c.book]
  {
    if c.book in books then Some(books[c.book]) else None
  }

  /** bookinstance_detail: a missing copy is a 404 error; otherwise the copy with its Book. */
  method BookInstanceDetail(db: Database, id: Id) returns (resp: Response)
    requires db.Valid()
    ensures id !in db.instances ==> resp == Error(NotFound, "Instance not found")
    ensures id in db.instances ==>
      resp.Render? && resp.view == "bookinstance_detail" && resp.title == "Instance Detail"
      && resp.data.InstanceDetailData? && resp.data.instance == db.instances[id]
      && (resp.data.populatedBook.Some? <==> db.instances[id].book in db.books)
      && (resp.data.populatedBook.Some? ==> resp.data.populatedBook.value == db.books[db.instances[id].book])
  {
    if id !in db.instances {
      return Error(NotFound, "Instance not found");
    }
    var c := db.instances[id];
    resp := Render("bookinstance_detail", "Instance Detail", InstanceDetailData(c, PopulatedBook(db.books, c)));
  }

  /** `resp` renders the copy form under `title` with every Book by title, the copy `c` with
      its Book selected, and the errors `errs`. */
  predicate InstanceFormPage(resp: Response, title: string, c: BookInstance, errs: seq<FieldError>,
                             books: map<Id, Book>) {
    resp.Render? && resp.view == "bookinstance_form" && resp.title == title
    && resp.data.InstanceFormData? && resp.data.bookInstance == c
    && resp.data.selectedBook == c.book && resp.data.errors == errs
    && SortedBy(resp.data.books, TitleOf) && multiset(resp.data.books) == multiset(books.Values)
  }

  /** bookinstance_create_post: an invalid form re-renders with every Book by title, the
      submitted copy and the errors, and writes nothing; a valid one stores the copy under a
      fresh id and redirects to it. Other collections never change. */
  method BookInstanceCreatePost(db: Database, form: InstanceForm, newId: Id, lib: DateLib)
    returns (resp: Response)
    requires db.Valid() && newId !in db.instances
    modifies db`instances
    ensures db.Valid()
    ensures var errs, c := InstanceErrors(form, lib), SubmittedInstance(newId, form, lib);
      errs != [] ==>
        db.instances == old(db.instances)
        && InstanceFormPage(resp, "Create a Copy", c, errs, db.books)
    ensures var errs, c := InstanceErrors(form, lib), SubmittedInstance(newId, form, lib);
      errs == [] ==>
        db.instances == old(db.instances)[newId := c] && resp == Redirect(InstanceUrl(newId))
  {
    var errs := InstanceErrors(form, lib);
    var c := SubmittedInstance(newId, form, lib);
    if errs != [] {
      var books := db.BooksByTitle();
      return Render("bookinstance_form", "Create a Copy", InstanceFormData(books, c.book, c, errs));
    }
    db.SaveInstance(c);
    resp := Redirect(InstanceUrl(c.id));
  }

  /** bookinstance_delete_post: when no copy is stored under `id` nothing changes; otherwise
      the copy named by the body's `instanceid` is removed. Either way the answer is the list. */
  method BookInstanceDeletePost(db: Database, id: Id, instanceId: Id) returns (resp: Response)
    requires db.Valid()
    modifies db`instances
    ensures db.Valid()
    ensures id !in old(db.instances) ==> db.instances == old(db.instances)
    ensures id in old(db.instances) ==> db.instances == old(db.instances) - {instanceId}
    ensures resp == Redirect(InstancesPath)
  {
    if id !in db.instances {
      return Redirect(InstancesPath);
    }
    db.DeleteInstanceById(instanceId);
    resp := Redirect(InstancesPath);
  }

  /** bookinstance_update_get: a missing copy redirects away; otherwise the form is shown
      with every Book by title, the stored copy selected, and no errors. */
  method BookInstanceUpdateGet(db: Database, id: Id) returns (resp: Response)
    requires db.Valid()
    ensures id !in db.instances ==> resp == Redirect(MissingInstancePath)
    ensures id in db.instances ==>
      InstanceFormPage(resp, "Update copy", db.instances[id], [], db.books)
  {
    var books := db.BooksByTitle();
    if id !in db.instances {
      return Redirect(MissingInstancePath);
    }
    var c := db.instances[id];
    resp := Render("bookinstance_form", "Update copy", InstanceFormData(books, c.book, c, []));
  }

  /** bookinstance_update_post: an invalid form re-renders and writes nothing; a valid one
      replaces the copy stored at `id`, keeping that id and every other document, and
      redirects to it. Updating an id that is not stored writes nothing and fails reading
      `.url` of null. */
  method BookInstanceUpdatePost(db: Database, form: InstanceForm, id: Id, lib: DateLib)
    returns (resp: Response)
    requires db.Valid()
    modifies db`instances
    ensures db.Valid()
    ensures var errs, c := InstanceErrors(form, lib), SubmittedInstance(id, form, lib);
      errs != [] ==>
        db.instances == old(db.instances)
        && InstanceFormPage(resp, "Update copy", c, errs, db.books)
    ensures var errs, c := InstanceErrors(form, lib), SubmittedInstance(id, form, lib);
      errs == [] && id in old(db.instances) ==>
        db.instances == old(db.instances)[id := c] && db.instances[id].id == id
        && resp == Redirect(InstanceUrl(id))
    ensures InstanceErrors(form, lib) == [] && id !in old(db.instances) ==>
      db.instances == old(db.instances) && resp == Error(ServerError, NullUrlMessage)
  {
    var errs := InstanceErrors(form, lib);
    var c := SubmittedInstance(id, form, lib);
    if errs != [] {
      var books := db.BooksByTitle();
      return Render("bookinstance_form", "Update copy", InstanceFormData(books, c.book, c, errs));
    }
    ghost var stored := db.instances;
    var before := db.UpdateInstanceById(id, c);
    if before.None? {
      return Error(ServerError, NullUrlMessage);
    }
    assert before.value == stored[id];
    assert before.value.id == id;
    resp := Redirect(InstanceUrl(before.value.id));
  }

  /** A copy created from a valid form is then shown by its detail page exactly as submitted. */
  method CreateThenDetail(db: Database, form: InstanceForm, newId: Id, lib: DateLib)
    returns (created: Response, shown: Response)
    requires db.Valid() && newId !in db.instances
    requires InstanceErrors(form, lib) == []
    modifies db`instances
    ensures created == Redirect(InstanceUrl(newId))
    ensures shown.Render? && shown.data.InstanceDetailData?
    ensures shown.data.instance == SubmittedInstance(newId, form, lib)
  {
    created := BookInstanceCreatePost(db, form, newId, lib);
    shown := BookInstanceDetail(db, newId);
  }

  /** Once a stored copy is deleted through its own page, its detail page is a 404. */
  method DeleteThenDetail(db: Database, id: Id) returns (deleted: Response, shown: Response)
    requires db.Valid() && id in db.instances
    modifies db`instances
    ensures shown == Error(NotFound, "Instance not found")
  {
    deleted := BookInstanceDeletePost(db, id, id);
    shown := BookInstanceDetail(db, id);
  }
}
