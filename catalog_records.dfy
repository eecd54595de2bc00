/** The two other documents the Author and BookInstance handlers touch: a Book, which
    they only read, and a BookInstance (a physical copy of a Book). */
module CatalogRecords {
  import opened Base

  /** A Book: its title and summary, and the Author it references. */
  datatype Book = Book(id: Id, title: string, summary: string, author: Id)

  /** A copy of a Book: which Book, its imprint, its status text and when it is due back. */
  datatype BookInstance = BookInstance(
    id: Id,
    book: Id,
    imprint: string,
    status: string,
    dueBack: Option<Date>)

  const InstanceUrlPrefix := "/catalog/bookinstance/"

  /** The canonical path of a copy, built from its id alone. */
  function InstanceUrl(id: Id): (r: string)
    ensures |r| == |InstanceUrlPrefix| + |id|
    ensures r[..|InstanceUrlPrefix|] == InstanceUrlPrefix
    ensures r[|InstanceUrlPrefix|..] == id
  {
    InstanceUrlPrefix + id
  }
}
