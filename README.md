# Local library catalog and register-number scraper: a Dafny model

This project models the decision-making parts of two small programs kept in one repository.

The first is an Express/Mongoose "local library" catalog. The model covers:

- the Author document, with its schema limits and its display virtuals `name`, `url` and `lifespan`;
- the Author and BookInstance request handlers: validation chains, list, detail, create, delete and update;
- the `validateAddEntry` rule list of the entry form.

The database is a class `Store.Database` with one map per collection, from id to document. The
handlers are methods that change those maps, and each states the new maps and its `Response`.
A response is a rendered view with its data, a redirect, or an error with an HTTP status. The
express-validator primitives the chains use are pure functions in `Validators`:

- `trim`, which removes the characters of the `\s` class;
- `escape`;
- `isLength`, which counts code points and skips the two presentation selectors;
- `isAlphanumeric` (en-US);
- `notEmpty` and `isNumeric`.

The string comparisons of the document store live in `Collation`: binary order for `sort`, and
ASCII case-insensitive equality for the strength-2 collation of the duplicate lookup.

The second program is the register-number scraper. The model covers `process_data`, which
flattens API pages into records using two nested loops, and the result filter of
`fetch_all_pages`. It also covers the page count of `get_total_pages`. Python truthiness is
modelled over a small JSON value type.

Behaviour that the code has as written, and which the model keeps:

- The first-name message says "longer than 3 characters", but the check is `min: 3`. A name of exactly three letters passes.
- `author_delete_post` checks for Books that reference `params.id`, but deletes `body.authorid`. The model takes both ids. It proves that no Book is left without its Author only when the two ids agree.
- `bookinstance_delete_post` checks `params.id` but deletes `body.instanceid`, in the same way.
- `bookinstance_update_get` sends a missing copy to `/catalog/instances`, not to the list path `/catalog/bookinstances`.
- Updating a missing id reads `.url` of the `null` that `findByIdAndUpdate` answers. The handler therefore fails with a server error after writing nothing.
- An update runs no schema validators, so the 100-unit limit on names is checked by `save` on create only.

## Model

| member | source | states |
|---|---|---|
| Validators.Trim | controller/authorController.js:49 | the result is the input's own middle, with only whitespace cut from each end; it is empty exactly when the input is whitespace only, and otherwise neither starts nor ends with whitespace |
| Validators.TrimIdempotent | controller/authorController.js:49 | trimming twice gives the same text as trimming once |
| Validators.Escape | controller/authorController.js:51 | no markup character survives escaping, and escaping never shortens the text |
| Validators.EscapeKeepsPlain | controller/authorController.js:51 | text with no `&` and no markup character is left exactly as it is |
| Validators.EntityAtEscapeChar | controller/authorController.js:51 | at the front of any text, the entity written for `&` or a markup character is recognised as that character and no other, and an ordinary character is not taken for an entity |
| Validators.UnescapeEscapeChar | controller/authorController.js:51 | unescaping reads one escaped character back off the front of the text |
| Validators.EscapeRoundTrip | controller/authorController.js:51 | escaping loses nothing: unescaping the escaped text gives back the original |
| Validators.EscapeAlnum | controller/authorController.js:51-54 | escaping leaves letters-and-digits text unchanged, and text is all letters and digits after escaping exactly when it was before |
| Validators.EscapeAlphanumeric | controller/authorController.js:51-54 | `escape` before `isAlphanumeric` never changes the verdict |
| Validators.CountedLength | controller/authorController.js:50 | the length `isLength` measures is at most the code-point count, and equals it when no presentation selector occurs |
| Validators.JsLength | model/author.js:7-8 | the UTF-16 length that `maxLength` compares lies between one and two units per code point |
| Validators.NumericHasNoWhitespace | middlewares/validation.js:6 | a numeric text is non-empty and holds no whitespace |
| Validators.DateErrors | controller/authorController.js:64-72 | an empty date reports nothing; a set date reports exactly the field's message unless it is ISO 8601 |
| Collation.LexLeTotal | controller/authorController.js:8 | the sort order relates any two names |
| Collation.LexLeTransitive | controller/authorController.js:8 | the sort order is transitive |
| Collation.LexLeAntisymmetric | controller/authorController.js:8 | names that sort both ways round are equal |
| Collation.EqualsIgnoringCaseIsEquivalence | controller/authorController.js:97 | strength-2 equality is reflexive, symmetric and transitive |
| Collation.EqualsIgnoringCaseExactly | controller/authorController.js:97 | strength-2 equality holds exactly when, at each position, the characters are equal or differ only in the case of an ASCII letter |
| AuthorModel.Name | model/author.js:14-23 | `name` is empty exactly when either name is empty; otherwise its length is both names' lengths plus the ", " separator |
| AuthorModel.NameRoundTrip | model/author.js:18-20 | when neither name is empty and the family name holds no comma, both names can be read back from `name` |
| AuthorModel.Url | model/author.js:26-29 | `url` is the prefix "/catalog/author/" followed by as many characters as the id |
| AuthorModel.UrlRoundTrip | model/author.js:26-29 | the id can be read back from `url`, so two authors share a url only when they share an id |
| AuthorModel.Lifespan | model/author.js:32-46 | `lifespan` is empty exactly when both formatted dates are empty |
| AuthorModel.LifespanByPresence | model/author.js:34-45 | when formatting never yields "", `lifespan` is "dob - dod", "dob - unknown", "unknown - dod" or "", according to which dates are set |
| CatalogRecords.InstanceUrl | controller/bookinstanceController.js:90 | a copy's url is the prefix "/catalog/bookinstance/" followed by exactly its id |
| Store.InsertBySorted | controller/authorController.js:8 | inserting into a sorted listing keeps it sorted |
| Store.Listing | controller/authorController.js:8 | a sorted query answers every document of the set exactly once, in ascending key order |
| Store.Database.AuthorsByFamilyName | controller/authorController.js:8 | every stored Author exactly once, in ascending family-name order |
| Store.Database.BooksOf | controller/authorController.js:135 | exactly the Books that reference the author, in ascending title order |
| Store.Database.BooksByTitle | controller/bookinstanceController.js:78 | every stored Book exactly once, in ascending title order |
| Store.Database.FindMatchingAuthor | controller/authorController.js:91-98 | answers None exactly when no stored Author matches, and otherwise a stored Author that matches |
| Store.Database.SaveAuthor | controller/authorController.js:104 | the write happens exactly when the schema accepts the Author, and it adds only that Author |
| Store.Database.DeleteAuthorById | controller/authorController.js:146 | removes that id and nothing else |
| Store.Database.UpdateAuthorById | controller/authorController.js:214 | answers the document as it was, or None; replaces only the document under that id |
| Store.Database.SaveInstance | controller/bookinstanceController.js:89 | adds exactly the new copy |
| Store.Database.DeleteInstanceById | controller/bookinstanceController.js:118 | removes that id and nothing else |
| Store.Database.UpdateInstanceById | controller/bookinstanceController.js:187 | answers the copy as it was, or None; replaces only the copy under that id |
| AuthorController.NameErrors | controller/authorController.js:48-62 | a name's errors are the length error and then the alphanumeric error, each present when its test on the trimmed text fails; none exactly when the name is accepted |
| AuthorController.AuthorErrors | controller/authorController.js:48-72 | no error exactly when the first name (3 or more) and the family name (2 or more) are letters and digits after trimming and both dates are empty or ISO 8601; at most six errors |
| AuthorController.SubmittedAuthor | controller/authorController.js:77-82 | the new Author carries the given id, and an empty date stays unset |
| AuthorController.AcceptedNamesStoredTrimmed | controller/authorController.js:48-62 | a name that passes its chain is stored exactly as trimmed |
| AuthorController.AcceptedAuthorMeetsSchemaUpToLength | model/author.js:7-8 | an accepted form meets the `required` checks, so only the 100-unit limit can make the save fail |
| AuthorController.AuthorList | controller/authorController.js:7-14 | renders every Author exactly once, sorted by family name |
| AuthorController.AuthorDetail | controller/authorController.js:17-35 | a missing Author is a 404 "Author not found"; otherwise renders that Author with exactly the Books that reference it |
| AuthorController.AuthorCreatePost | controller/authorController.js:74-108 | on invalid input, re-renders the form with the submitted Author and the errors, and writes nothing; on a match, redirects to a matching stored Author and writes nothing; otherwise adds exactly the new Author and redirects to its url, or fails with 500 and writes nothing when the schema refuses it |
| AuthorController.AuthorDeletePost | controller/authorController.js:132-149 | while Books reference `id`, writes nothing and renders those Books sorted by title; otherwise removes exactly `authorId` and redirects to the list; when the two ids agree, no Book is left without its Author |
| AuthorController.AuthorUpdateGet | controller/authorController.js:152-165 | a missing Author redirects to the list; otherwise renders the form with the stored Author and no errors |
| AuthorController.AuthorUpdatePost | controller/authorController.js:195-217 | on invalid input, re-renders and writes nothing; when the id is stored, replaces exactly that document, keeps its id and redirects to its url; a missing id writes nothing and fails with 500 |
| AuthorController.CreateTwiceStoresOnce | controller/authorController.js:91-106 | submitting the same valid form twice adds at most one Author, and the second answer is a redirect or repeats the first |
| AuthorController.UpdateTwiceIsIdempotent | controller/authorController.js:214-215 | submitting the same update twice gives the same answer and leaves the store as one submission does |
| BookInstanceController.NonBlankErrors | controller/bookinstanceController.js:49-57 | a field reports nothing exactly when its trimmed text counts at least one character; otherwise it reports only its message, as every blank-only text does |
| BookInstanceController.InstanceErrors | controller/bookinstanceController.js:49-63 | no error exactly when book and imprint are non-blank and the due date is empty or ISO 8601; at most three errors |
| BookInstanceController.StatusNeverRejected | controller/bookinstanceController.js:58-59 | the status text never changes the errors |
| BookInstanceController.SubmittedInstance | controller/bookinstanceController.js:69-74 | the new copy carries the given id, and an empty due date stays unset |
| BookInstanceController.AcceptedInstanceFields | controller/bookinstanceController.js:49-59 | an accepted copy stores a non-empty book and imprint, and its imprint and status hold no markup character |
| BookInstanceController.PopulatedBook | controller/bookinstanceController.js:19 | the populated Book is present exactly when the referenced Book is stored, and it is that Book |
| BookInstanceController.BookInstanceDetail | controller/bookinstanceController.js:18-31 | a missing copy is a 404 "Instance not found"; otherwise renders the copy with its Book |
| BookInstanceController.BookInstanceCreatePost | controller/bookinstanceController.js:65-92 | on invalid input, re-renders the form with the Books by title, the submitted copy and the errors, and writes nothing; otherwise adds exactly the new copy and redirects to its url |
| BookInstanceController.BookInstanceDeletePost | controller/bookinstanceController.js:111-121 | a missing `id` writes nothing; otherwise removes exactly `instanceId`; both redirect to the list |
| BookInstanceController.BookInstanceUpdateGet | controller/bookinstanceController.js:124-142 | a missing copy redirects away; otherwise renders the form with the Books by title and the stored copy selected |
| BookInstanceController.BookInstanceUpdatePost | controller/bookinstanceController.js:162-190 | on invalid input, re-renders and writes nothing; when the id is stored, replaces exactly that copy, keeps its id and redirects to its url; a missing id writes nothing and fails with 500 |
| BookInstanceController.CreateThenDetail | controller/bookinstanceController.js:88-91 | a copy created from a valid form redirects to its url, and its detail page then shows exactly what was submitted |
| BookInstanceController.DeleteThenDetail | controller/bookinstanceController.js:117-120 | after a stored copy is deleted through its own page, its detail page is a 404 |
| EntryValidation.Reported | middlewares/validation.js:3-7 | each message is present exactly when its rule failed; the error count is the number of failed rules; errors come in declaration order |
| EntryValidation.EntryErrors | middlewares/validation.js:3-7 | 'Title is required', 'Author is required' and 'Pages must be a number' are each reported exactly when the trimmed field is empty or, for pages, not numeric |
| EntryValidation.BlankFieldsAreMissing | middlewares/validation.js:4-5 | a title or author made only of whitespace is reported as missing |
| EntryValidation.RulesAreIndependent | middlewares/validation.js:3-7 | changing one field never changes the verdict on another |
| EntryValidation.NumericPagesAccepted | middlewares/validation.js:6 | a page count already written as a number is accepted |
| Scraper.OrEmpty | scrape_register_numbers.py:111 | a falsy value becomes '', and a truthy one is kept |
| Scraper.OrEmptyIdempotent | scrape_register_numbers.py:114 | defaulting twice is defaulting once, and it keeps truthiness |
| Scraper.ToRecord | scrape_register_numbers.py:99-120 | a falsy `description` or `deleted_at` becomes '' while a truthy one is kept; region number, region name and city name are lifted; every other field is copied unchanged |
| Scraper.PageRecords | scrape_register_numbers.py:95-121 | a successful page yields one record per item, in item order; a failed page yields none |
| Scraper.ProcessData | scrape_register_numbers.py:90-123 | the nested loops return exactly the pages' records, in page order and then item order |
| Scraper.FlattenAppend | scrape_register_numbers.py:94-121 | the records of two runs of pages are the records of the first run followed by those of the second |
| Scraper.FlattenCount | scrape_register_numbers.py:94-121 | the number of records is the sum of the item counts of the successful pages |
| Scraper.FailedPageContributesNothing | scrape_register_numbers.py:95-96 | removing an unsuccessful page, wherever it stands, leaves the records unchanged |
| Scraper.SuccessfulResults | scrape_register_numbers.py:82-85 | keeps exactly the pages that arrived and succeeded, and never more results than it was given |
| Scraper.SuccessfulResultsAppend | scrape_register_numbers.py:82-85 | the filter distributes over concatenation, so it keeps the original order |
| Scraper.AllSuccessfulCount | scrape_register_numbers.py:82-85 | on pages that all succeeded, the successful item count is the count of all their items |
| Scraper.KeptPagesLoseNothing | scrape_register_numbers.py:82-85 | flattening the kept pages yields one record per item they hold, counting every item of every kept page |
| Scraper.TotalPages | scrape_register_numbers.py:52-55 | the first page's `last_page` when that page arrived and succeeded, 0 otherwise |
| Scraper.FetchAllPages | scrape_register_numbers.py:59-85 | no pages when the count is 0; otherwise exactly the results of fetching pages 1 to the count, filtered to the successful ones in page order, so a page is returned exactly when some page number up to the count fetched it successfully |

## Left out

- Date handling: ISO 8601 recognition, `toDate` and Luxon formatting are an uninterpreted `DateLib` given as a parameter. The ISO-date getters `date_of_birth_yyyy_mm_dd` and `date_of_death_yyyy_mm_dd` are not modelled.
- Concurrency: the reads that `Promise.all` runs together are modelled as sequential reads.
- Database I/O is the in-memory maps of `Store.Database`, so connection failures and query errors are not modelled. The order of an unsorted `find` is not modelled. Field projections such as `'title summary'` are not modelled either: documents are returned whole.
- BookInstanceController.BookInstanceCreatePost, BookInstanceController.BookInstanceUpdatePost, AuthorController.AuthorDetail and AuthorController.AuthorUpdateGet: ObjectId casting is not modelled. Ids are plain text, and a malformed id is just an absent key. The form's `selected_book: bookinstance.book._id` is the submitted book text. So where the code throws on an empty or malformed book (controller/bookinstanceController.js:83 and 181), the model re-renders the form with the "Please select a book." error. Likewise a malformed `params.id` makes `findById` throw a cast error, a 500, where the model answers the 404 of `AuthorDetail` or the redirect of `AuthorUpdateGet`.
- `model/bookinstance.js` and `model/book.js` are not part of this model. A copy's url is assumed to be "/catalog/bookinstance/" plus its id, and saving a copy is assumed to always succeed.
- A date field absent from an update's body, which Mongoose would leave unchanged, is modelled as unset. A form always sends the field, and an empty date is stored as unset.
- The strength-2 collation is modelled for ASCII letters only. Case folding of other scripts and accent handling are not modelled.
- `author_create_get`, `bookinstance_create_get` and `bookinstance_list` are not modelled. They render fixed data, or a plain list, without any decision.
- The delete-GET handlers are not modelled, because on a missing record they redirect and then still render a page.
- Template rendering is reduced to the view name, the title and the data passed.
- AuthorController.AuthorCreatePost: when the schema refuses an accepted form, the error's message is cut to its "Author validation failed" prefix. Mongoose's message goes on to name each failing path, its value and the 100-unit limit, and that text is not modelled.
- A validation error keeps only its field path and message (`Validators.FieldError`). The `value` and `location` that express-validator also reports are not modelled.
- `controllers/libraryController.js`, `models/entry.js`, `routes/library.js`, `app.js` and `server.js` are not part of this model. They are wiring, or hand control straight to the database.
- Scraper I/O is not modelled: the HTTP fetches, the semaphore, `gather`, `sleep`, CSV and XLSX writing, timing and printing. The fetched pages are a parameter of `Scraper.FetchAllPages`.
- Scraper JSON is modelled with null, booleans, numbers and strings only. A missing `data` key, which would raise `KeyError`, is not modelled.
- Scraper.ToRecord and Scraper.ProcessData assume well-formed items: every key read at scrape_register_numbers.py:100-119 is present, and `region` and `city` are objects. Otherwise the source raises `KeyError` or `TypeError`, and `process_data` returns no records, where the model still produces them.
