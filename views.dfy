/** What a request handler answers with: a template rendered with a data bag, a redirect,
    or an error passed on to the error handler (whose status becomes the HTTP status). */
module Views {
  import opened Base
  import opened AuthorModel
  import opened CatalogRecords
  import opened Validators

  /** The data bag of each template, one constructor per template and key set. */
  datatype ViewData =
    | AuthorListData(authorList: seq<Author>)
    | AuthorDetailData(author: Author, books: seq<Book>)
    | AuthorFormData(formAuthor: Author, errors: seq<FieldError>)
    | AuthorDeleteData(deleteAuthor: Option<Author>, bookList: seq<Book>)
    | InstanceDetailData(instance: BookInstance, populatedBook: Option<Book>)
    | InstanceFormData(books: seq<Book>, selectedBook: Id, bookInstance: BookInstance, errors: seq<FieldError>)

  datatype Response =
    | Render(view: string, title: string, data: ViewData)
    | Redirect(url: string)
    | Error(status: nat, message: string)

  /** The status an error without its own status is reported with. */
  const ServerError: nat := 500
  const NotFound: nat := 404

  /** The error thrown when a handler reads `.url` of the null an update by a missing id returns. */
  const NullUrlMessage := "Cannot read properties of null (reading 'url')"
}
