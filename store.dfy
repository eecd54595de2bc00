/** The document store the handlers talk to: one collection of Authors, Books and
    BookInstances each, held as maps from id to document, with the queries and commands the
    handlers issue (`findById`, `find(...).sort(...)`, `findOne` with a collation, `save`,
    `findByIdAndDelete`, `findByIdAndUpdate`). */
module Store {
  import opened Base
  import opened AuthorModel
  import opened CatalogRecords
  import Collation

  // ---------------------------------------------------------------- sorted query results

  /** `s` is in ascending binary order of `key`, as `sort({field: 1})` returns it. */
  predicate SortedBy<T>(s: seq<T>, key: T -> string) {
    forall i, j :: 0 <= i < j < |s| ==> Collation.LexLe(key(s[i]), key(s[j]))
  }

  /** Inserts `x` before the first element whose key is not below its own. */
  function InsertBy<T>(x: T, s: seq<T>, key: T -> string): (r: seq<T>)
    ensures multiset(r) == multiset(s) + multiset{x}
  {
    if s == [] then [x]
    else if Collation.LexLe(key(x), key(s[0])) then [x] + s
    else
      assert s == [s[0]] + s[1..];
      [s[0]] + InsertBy(x, s[1..], key)
  }

  lemma {:induction false} InsertBySorted<T>(x: T, s: seq<T>, key: T -> string)
    requires SortedBy(s, key)
    ensures SortedBy(InsertBy(x, s, key), key)
  {
    if s == [] {
    } else if Collation.LexLe(key(x), key(s[0])) {
      var r := [x] + s;
      forall j | 1 <= j < |r|
        ensures Collation.LexLe(key(r[0]), key(r[j]))
      {
        if j > 1 {
          Collation.LexLeTransitive(key(x), key(s[0]), key(s[j - 1]));
        }
      }
    } else {
      Collation.LexLeTotal(key(x), key(s[0]));
      var t := InsertBy(x, s[1..], key);
      InsertBySorted(x, s[1..], key);
      var r := [s[0]] + t;
      forall j | 0 <= j < |t|
        ensures Collation.LexLe(key(s[0]), key(t[j]))
      {
        assert t[j] in multiset(t);
        if t[j] != x {
          assert t[j] in multiset(s[1..]);
          var i :| 0 <= i < |s[1..]| && s[1..][i] == t[j];
          assert s[i + 1] == t[j];
        }
      }
      assert forall i, j :: 0 < i < j < |r| ==> r[i] == t[i - 1] && r[j] == t[j - 1];
    }
  }

  /** The documents of a collection in ascending order of `key`: every document once. */
  method Listing<T(==)>(xs: set<T>, key: T -> string) returns (r: seq<T>)
    ensures SortedBy(r, key)
    ensures multiset(r) == multiset(xs)
  {
    r := [];
    var rest := xs;
    while rest != {}
      invariant rest <= xs
      invariant SortedBy(r, key)
      invariant multiset(r) == multiset(xs - rest)
      decreases |rest|
    {
      var x :| x in rest;
      InsertBySorted(x, r, key);
      r := InsertBy(x, r, key);
      assert xs - (rest - {x}) == (xs - rest) + {x};
      rest := rest - {x};
    }
    assert xs - rest == xs;
  }

  function FamilyNameOf(a: Author): string { a.familyName }

  function TitleOf(b: Book): string { b.title }

  // ---------------------------------------------------------------- query filters

  /** The Books whose `author` field is `author`. */
  function BooksByAuthor(books: map<Id, Book>, author: Id): set<Book> {
    set b | b in books.Values && b.author == author
  }

  /** The duplicate filter: equal names under the case-insensitive collation, equal dates. */
  predicate Matches(stored: Author, a: Author) {
    Collation.EqualsIgnoringCase(stored.firstName, a.firstName)
    && Collation.EqualsIgnoringCase(stored.familyName, a.familyName)
    && stored.dateOfBirth == a.dateOfBirth
    && stored.dateOfDeath == a.dateOfDeath
  }

  predicate HasMatch(authors: map<Id, Author>, a: Author) {
    exists k :: k in authors && Matches(authors[k], a)
  }

  /** No Book references an Author that is not stored. */
  predicate BooksReferToAuthors(authors: map<Id, Author>, books: map<Id, Book>) {
    forall k :: k in books ==> books[k].author in authors
  }

  // ---------------------------------------------------------------- the store

  /** Every document of a collection is stored under its own id. */
  predicate KeyedById<T>(m: map<Id, T>, idOf: T -> Id) {
    forall k :: k in m ==> idOf(m[k]) == k
  }

  class Database {
    var authors: map<Id, Author>
    var books: map<Id, Book>
    var instances: map<Id, BookInstance>

    /** Every document is stored under its own id. */
    ghost predicate Valid()
      reads this
    {
      KeyedById(authors, (a: Author) => a.id)
      && KeyedById(books, (b: Book) => b.id)
      && KeyedById(instances, (c: BookInstance) => c.id)
    }

    /** A store opened on collections whose documents sit under their own ids. */
    constructor (authors0: map<Id, Author>, books0: map<Id, Book>, instances0: map<Id, BookInstance>)
      requires KeyedById(authors0, (a: Author) => a.id)
      requires KeyedById(books0, (b: Book) => b.id)
      requires KeyedById(instances0, (c: BookInstance) => c.id)
      ensures Valid()
      ensures authors == authors0 && books == books0 && instances == instances0
    {
      authors, books, instances := authors0, books0, instances0;
    }

    /** `Author.find().sort({family_name: 1})`. */
    method AuthorsByFamilyName() returns (r: seq<Author>)
      requires Valid()
      ensures SortedBy(r, FamilyNameOf)
      ensures multiset(r) == multiset(authors.Values)
    {
      r := Listing(authors.Values, FamilyNameOf);
    }

    /** `Book.find({author: id}).sort({title: 1})`. */
    method BooksOf(author: Id) returns (r: seq<Book>)
      requires Valid()
      ensures SortedBy(r, TitleOf)
      ensures multiset(r) == multiset(BooksByAuthor(books, author))
    {
      r := Listing(BooksByAuthor(books, author), TitleOf);
    }

    /** `Book.find({}, "title").sort({title: 1})`. */
    method BooksByTitle() returns (r: seq<Book>)
      requires Valid()
      ensures SortedBy(r, TitleOf)
      ensures multiset(r) == multiset(books.Values)
    {
      r := Listing(books.Values, TitleOf);
    }

    /** `Author.findOne({first_name, family_name, date_of_birth, date_of_death})` under the
        `{locale: "en", strength: 2}` collation: some stored match, or None when there is none. */
    method FindMatchingAuthor(a: Author) returns (r: Option<Author>)
      ensures r.None? <==> !HasMatch(authors, a)
      ensures r.Some? ==> r.value in authors.Values && Matches(r.value, a)
    {
      if k :| k in authors && Matches(authors[k], a) {
        r := Some(authors[k]);
      } else {
        r := None;
      }
    }

    /** `author.save()` of a new document: the schema is checked first, and nothing is
        written when the check fails. */
    method SaveAuthor(a: Author) returns (saved: bool)
      requires a.id !in authors
      modifies this`authors
      ensures saved == SchemaValid(a)
      ensures authors == if saved then old(authors)[a.id := a] else old(authors)
    {
      saved := SchemaValid(a);
      if saved {
        authors := authors[a.id := a];
      }
    }

    /** `Author.findByIdAndDelete(id)`: removes that document if there is one. */
    method DeleteAuthorById(id: Id)
      modifies this`authors
      ensures authors == old(authors) - {id}
    {
      authors := authors - {id};
    }

    /** `Author.findByIdAndUpdate(id, a)`: answers the document as it was, or None when
        there is none, and only then writes. Schema validators do not run on an update. */
    method UpdateAuthorById(id: Id, a: Author) returns (before: Option<Author>)
      requires a.id == id
      modifies this`authors
      ensures before == if id in old(authors) then Some(old(authors)[id]) else None
      ensures authors == if id in old(authors) then old(authors)[id := a] else old(authors)
    {
      if id in authors {
        before := Some(authors[id]);
        authors := authors[id := a];
      } else {
        before := None;
      }
    }

    /** `bookinstance.save()` of a new document. */
    method SaveInstance(c: BookInstance)
      requires c.id !in instances
      modifies this`instances
      ensures instances == old(instances)[c.id := c]
    {
      instances := instances[c.id := c];
    }

    /** `BookInstance.findByIdAndDelete(id)`. */
    method DeleteInstanceById(id: Id)
      modifies this`instances
      ensures instances == old(instances) - {id}
    {
      instances := instances - {id};
    }

    /** `BookInstance.findByIdAndUpdate(id, c)`, as for Authors. */
    method UpdateInstanceById(id: Id, c: BookInstance) returns (before: Option<BookInstance>)
      requires c.id == id
      modifies this`instances
      ensures before == if id in old(instances) then Some(old(instances)[id]) else None
      ensures instances == if id in old(instances) then old(instances)[id := c] else old(instances)
    {
      if id in instances {
        before := Some(instances[id]);
        instances := instances[id := c];
      } else {
        before := None;
      }
    }
  }
}
