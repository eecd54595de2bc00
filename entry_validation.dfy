/** The `validateAddEntry` rule list (middlewares/validation.js): three independent chains,
    one per field of a library entry, each with a fixed message. */
module EntryValidation {
  import opened Validators

  /** The submitted entry; a field the request leaves out is the empty string. */
  datatype EntryForm = EntryForm(title: string, author: string, pages: string)

  const TitleMessage := "Title is required"
  const AuthorMessage := "Author is required"
  const PagesMessage := "Pages must be a number"

  /** `body('title').trim().notEmpty()`. */
  predicate TitleAccepted(form: EntryForm) {
    NotEmpty(Trim(form.title))
  }

  /** `body('author').trim().notEmpty()`. */
  predicate AuthorAccepted(form: EntryForm) {
    NotEmpty(Trim(form.author))
  }

  /** `body('pages').trim().isNumeric()`. */
  predicate PagesAccepted(form: EntryForm) {
    IsNumeric(Trim(form.pages))
  }

  /** The position of a field in the rule list. */
  function Rank(path: string): nat {
    if path == "title" then 0 else if path == "author" then 1 else 2
  }

  /** The errors of the three rules given their verdicts, in declaration order: each message
      is present exactly when its rule failed, so there are between none and three. */
  function Reported(titleOk: bool, authorOk: bool, pagesOk: bool): (errs: seq<FieldError>)
    ensures FieldError("title", TitleMessage) in errs <==> !titleOk
    ensures FieldError("author", AuthorMessage) in errs <==> !authorOk
    ensures FieldError("pages", PagesMessage) in errs <==> !pagesOk
    ensures |errs| == (if titleOk then 0 else 1) + (if authorOk then 0 else 1) + (if pagesOk then 0 else 1)
    ensures forall i, j :: 0 <= i < j < |errs| ==> Rank(errs[i].path) < Rank(errs[j].path)
  {
    (if titleOk then [] else [FieldError("title", TitleMessage)])
    + (if authorOk then [] else [FieldError("author", AuthorMessage)])
    + (if pagesOk then [] else [FieldError("pages", PagesMessage)])
  }

  /** The errors `validationResult` collects for an entry. */
  function EntryErrors(form: EntryForm): (errs: seq<FieldError>)
    ensures FieldError("title", TitleMessage) in errs <==> !TitleAccepted(form)
    ensures FieldError("author", AuthorMessage) in errs <==> !AuthorAccepted(form)
    ensures FieldError("pages", PagesMessage) in errs <==> !PagesAccepted(form)
    ensures errs == [] <==> TitleAccepted(form) && AuthorAccepted(form) && PagesAccepted(form)
  {
    Reported(TitleAccepted(form), AuthorAccepted(form), PagesAccepted(form))
  }

  /** A title or author made only of blanks is reported as missing: trimming runs first. */
  lemma BlankFieldsAreMissing(form: EntryForm)
    ensures AllWhitespace(form.title) ==> FieldError("title", TitleMessage) in EntryErrors(form)
    ensures AllWhitespace(form.author) ==> FieldError("author", AuthorMessage) in EntryErrors(form)
  {
  }

  /** The rules are independent: changing one field leaves the verdicts on the others. */
  lemma RulesAreIndependent(form: EntryForm, title: string, author: string, pages: string)
    ensures var errs, changed := EntryErrors(form), EntryErrors(form.(title := title));
      (FieldError("author", AuthorMessage) in changed <==> FieldError("author", AuthorMessage) in errs)
      && (FieldError("pages", PagesMessage) in changed <==> FieldError("pages", PagesMessage) in errs)
    ensures var errs, changed := EntryErrors(form), EntryErrors(form.(author := author));
      (FieldError("title", TitleMessage) in changed <==> FieldError("title", TitleMessage) in errs)
      && (FieldError("pages", PagesMessage) in changed <==> FieldError("pages", PagesMessage) in errs)
    ensures var errs, changed := EntryErrors(form), EntryErrors(form.(pages := pages));
      (FieldError("title", TitleMessage) in changed <==> FieldError("title", TitleMessage) in errs)
      && (FieldError("author", AuthorMessage) in changed <==> FieldError("author", AuthorMessage) in errs)
  {
  }

  /** A page count already written as a number, with no blanks around it, passes as it is. */
  lemma NumericPagesAccepted(form: EntryForm)
    requires IsNumeric(form.pages)
    ensures FieldError("pages", PagesMessage) !in EntryErrors(form)
  {
    NumericHasNoWhitespace(form.pages);
    TrimKeepsTrimmed(form.pages);
  }
}
