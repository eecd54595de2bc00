/** The register-number scraper (scrape_register_numbers.py): the filter that keeps the
    successful page results, the page count read from the first page, and `process_data`,
    which flattens the API pages into one record per listed item. */
module Scraper {

  /** A JSON value as the scraper meets it in an item field. */
  datatype Value = Null | Bool(b: bool) | Num(n: real) | Str(s: string)

  /** Python truthiness: None, False, zero and the empty string are falsy. */
  predicate Truthy(v: Value) {
    match v
    case Null => false
    case Bool(b) => b
    case Num(n) => n != 0.0
    case Str(s) => s != ""
  }

  /** `v or ''`: a falsy value becomes the empty string, a truthy one is kept. */
  function OrEmpty(v: Value): (r: Value)
    ensures Truthy(v) ==> r == v
    ensures !Truthy(v) ==> r == Str("")
  {
    if Truthy(v) then v else Str("")
  }

  /** Applying the default twice is applying it once, and it keeps a value's truthiness. */
  lemma OrEmptyIdempotent(v: Value)
    ensures OrEmpty(OrEmpty(v)) == OrEmpty(v)
    ensures Truthy(OrEmpty(v)) == Truthy(v)
  {
  }

  datatype Region = Region(regionNumber: Value, name: Value)
  datatype City = City(name: Value)

  /** One listed register number, as an element of `data.data`. */
  datatype Item = Item(
    id: Value, regionNumberId: Value, firstLetter: Value, secondLetter: Value,
    number: Value, price: Value, currency: Value, cityId: Value, views: Value,
    authorPhone: Value, authorName: Value, description: Value, userId: Value,
    status: Value, deletedAt: Value, createdAt: Value, updatedAt: Value,
    region: Region, city: City)

  /** The `data` object of a page: its items and the number of the last page. */
  datatype PageData = PageData(items: seq<Item>, lastPage: int)

  /** A decoded API page. A missing `success` key reads as Null. */
  datatype ApiResponse = ApiResponse(success: Value, data: PageData)

  predicate Successful(r: ApiResponse) {
    Truthy(r.success)
  }

  /** One flat output record: every item field, with the nested region and city lifted. */
  datatype Record = Record(
    id: Value, regionNumberId: Value, firstLetter: Value, secondLetter: Value,
    number: Value, price: Value, currency: Value, cityId: Value, views: Value,
    authorPhone: Value, authorName: Value, description: Value, userId: Value,
    status: Value, deletedAt: Value, createdAt: Value, updatedAt: Value,
    regionNumber: Value, regionName: Value, cityName: Value)

  /** The record built for one item: `description` and `deleted_at` default to '' when falsy,
      the region's number and name and the city's name are lifted, every other field is
      copied unchanged. */
  function ToRecord(item: Item): (r: Record)
    ensures Truthy(item.description) ==> r.description == item.description
    ensures !Truthy(item.description) ==> r.description == Str("")
    ensures Truthy(item.deletedAt) ==> r.deletedAt == item.deletedAt
    ensures !Truthy(item.deletedAt) ==> r.deletedAt == Str("")
    ensures r.regionNumber == item.region.regionNumber && r.regionName == item.region.name
    ensures r.cityName == item.city.name
    ensures r.id == item.id && r.regionNumberId == item.regionNumberId
    ensures r.firstLetter == item.firstLetter && r.secondLetter == item.secondLetter
    ensures r.number == item.number && r.price == item.price && r.currency == item.currency
    ensures r.cityId == item.cityId && r.views == item.views
    ensures r.authorPhone == item.authorPhone && r.authorName == item.authorName
    ensures r.userId == item.userId && r.status == item.status
    ensures r.createdAt == item.createdAt && r.updatedAt == item.updatedAt
  {
    Record(item.id, item.regionNumberId, item.firstLetter, item.secondLetter,
           item.number, item.price, item.currency, item.cityId, item.views,
           item.authorPhone, item.authorName, OrEmpty(item.description), item.userId,
           item.status, OrEmpty(item.deletedAt), item.createdAt, item.updatedAt,
           item.region.regionNumber, item.region.name, item.city.name)
  }

  // ---------------------------------------------------------------- process_data

  /** The records of one page: one per item, in item order, or none when the page failed. */
  function PageRecords(r: ApiResponse): (recs: seq<Record>)
    ensures Successful(r) ==>
      |recs| == |r.data.items| && (forall j :: 0 <= j < |recs| ==> recs[j] == ToRecord(r.data.items[j]))
    ensures !Successful(r) ==> recs == []
  {
    if Successful(r) then seq(|r.data.items|, j requires 0 <= j < |r.data.items| => ToRecord(r.data.items[j]))
    else []
  }

  /** What `process_data` returns: the pages' records in page order. */
  function Flatten(responses: seq<ApiResponse>): seq<Record> {
    if responses == [] then []
    else Flatten(responses[..|responses| - 1]) + PageRecords(responses[|responses| - 1])
  }

  /** An independent count: the items of the successful pages. */
  function SuccessfulItemCount(responses: seq<ApiResponse>): nat {
    if responses == [] then 0
    else (if Successful(responses[0]) then |responses[0].data.items| else 0)
         + SuccessfulItemCount(responses[1..])
  }

  /** `process_data`: walks the pages and, for each successful one, appends the record of
      every item. */
  method ProcessData(responses: seq<ApiResponse>) returns (records: seq<Record>)
    ensures records == Flatten(responses)
  {
    records := [];
    var i := 0;
    while i < |responses|
      invariant 0 <= i <= |responses|
      invariant records == Flatten(responses[..i])
    {
      var response := responses[i];
      assert responses[..i + 1][..i] == responses[..i];
      if Successful(response) {
        var items := response.data.items;
        var j := 0;
        while j < |items|
          invariant 0 <= j <= |items|
          invariant records == Flatten(responses[..i]) + PageRecords(response)[..j]
        {
          assert PageRecords(response)[..j + 1] == PageRecords(response)[..j] + [ToRecord(items[j])];
          records := records + [ToRecord(items[j])];
          j := j + 1;
        }
        assert PageRecords(response)[..j] == PageRecords(response);
      }
      i := i + 1;
    }
    assert responses[..i] == responses;
  }

  /** Flattening distributes over concatenation: records come out page by page, in order. */
  lemma {:induction false} FlattenAppend(a: seq<ApiResponse>, b: seq<ApiResponse>)
    ensures Flatten(a + b) == Flatten(a) + Flatten(b)
    decreases |b|
  {
    if b == [] {
      assert a + b == a;
    } else {
      var b' := b[..|b| - 1];
      assert (a + b)[..|a + b| - 1] == a + b';
      assert (a + b)[|a + b| - 1] == b[|b| - 1];
      FlattenAppend(a, b');
    }
  }

  /** There are as many records as items on the successful pages. */
  lemma {:induction false} FlattenCount(responses: seq<ApiResponse>)
    ensures |Flatten(responses)| == SuccessfulItemCount(responses)
    decreases |responses|
  {
    if responses != [] {
      assert responses == [responses[0]] + responses[1..];
      FlattenAppend([responses[0]], responses[1..]);
      assert [responses[0]][..0] == [];
      FlattenCount(responses[1..]);
    }
  }

  /** A failed page contributes nothing, wherever it stands. */
  lemma FailedPageContributesNothing(before: seq<ApiResponse>, r: ApiResponse, after: seq<ApiResponse>)
    requires !Successful(r)
    ensures Flatten(before + [r] + after) == Flatten(before + after)
  {
    FlattenAppend(before + [r], after);
    FlattenAppend(before, after);
    assert (before + [r])[..|before|] == before;
  }

  // ---------------------------------------------------------------- fetch_all_pages

  /** What one page fetch yields under `gather(..., return_exceptions=True)`: None, an
      exception, or a decoded page. */
  datatype PageResult = Missing | Raised | Fetched(response: ApiResponse)

  predicate Kept(p: PageResult) {
    p.Fetched? && Successful(p.response)
  }

  /** The filter on the gathered results: the pages that arrived and succeeded, in order. */
  function SuccessfulResults(results: seq<PageResult>): (kept: seq<ApiResponse>)
    ensures |kept| <= |results|
    ensures forall k :: 0 <= k < |kept| ==> Successful(kept[k])
    ensures forall r :: r in kept <==> Fetched(r) in results && Successful(r)
  {
    if results == [] then []
    else
      var rest := SuccessfulResults(results[1..]);
      assert results == [results[0]] + results[1..];
      if Kept(results[0]) then [results[0].response] + rest else rest
  }

  /** The filter distributes over concatenation, so it keeps the original order. */
  lemma {:induction false} SuccessfulResultsAppend(a: seq<PageResult>, b: seq<PageResult>)
    ensures SuccessfulResults(a + b) == SuccessfulResults(a) + SuccessfulResults(b)
    decreases |a|
  {
    if a != [] {
      assert (a + b)[0] == a[0];
      assert (a + b)[1..] == a[1..] + b;
      SuccessfulResultsAppend(a[1..], b);
    } else {
      assert a + b == b;
    }
  }

  /** The items of all the given pages, successful or not. */
  function TotalItemCount(pages: seq<ApiResponse>): nat {
    if pages == [] then 0 else |pages[0].data.items| + TotalItemCount(pages[1..])
  }

  /** On pages that all succeeded, the successful items are all the items. */
  lemma {:induction false} AllSuccessfulCount(pages: seq<ApiResponse>)
    requires forall k :: 0 <= k < |pages| ==> Successful(pages[k])
    ensures SuccessfulItemCount(pages) == TotalItemCount(pages)
    decreases |pages|
  {
    if pages != [] {
      assert Successful(pages[0]);
      AllSuccessfulCount(pages[1..]);
    }
  }

  /** Every kept page is successful, so flattening them yields one record per item they hold. */
  lemma KeptPagesLoseNothing(results: seq<PageResult>)
    ensures |Flatten(SuccessfulResults(results))| == TotalItemCount(SuccessfulResults(results))
  {
    FlattenCount(SuccessfulResults(results));
    AllSuccessfulCount(SuccessfulResults(results));
  }

  /** `get_total_pages`: the first page's `last_page` when that page arrived and succeeded,
      0 otherwise. */
  function TotalPages(first: PageResult): (n: int)
    ensures Kept(first) ==> n == first.response.data.lastPage
    ensures !Kept(first) ==> n == 0
  {
    if first.Fetched? && Successful(first.response) then first.response.data.lastPage else 0
  }

  /** `fetch_all_pages`, with the network as `fetch`: no page count means no pages at all;
      otherwise pages 1 to the count are fetched and the successful ones kept in page order. */
  function FetchAllPages(first: PageResult, fetch: int -> PageResult): (pages: seq<ApiResponse>)
    ensures TotalPages(first) == 0 ==> pages == []
    ensures |pages| <= if TotalPages(first) > 0 then TotalPages(first) else 0
    ensures forall k :: 0 <= k < |pages| ==> Successful(pages[k])
    ensures TotalPages(first) > 0 ==> pages == SuccessfulResults(seq(TotalPages(first), k => fetch(k + 1)))
    ensures forall r :: r in pages <==>
      (exists k :: 1 <= k <= TotalPages(first) && fetch(k) == Fetched(r) && Successful(r))
  {
    var total := TotalPages(first);
    if total == 0 then []
    else
      var count := if total > 0 then total else 0;
      var results := seq(count, k => fetch(k + 1));
      assert forall r :: Fetched(r) in results <==> exists k :: 1 <= k <= count && fetch(k) == Fetched(r) by {
        forall r | Fetched(r) in results
          ensures exists k :: 1 <= k <= count && fetch(k) == Fetched(r)
        {
          var j :| 0 <= j < count && results[j] == Fetched(r);
          assert fetch(j + 1) == Fetched(r);
        }
        forall r | exists k :: 1 <= k <= count && fetch(k) == Fetched(r)
          ensures Fetched(r) in results
        {
          var k :| 1 <= k <= count && fetch(k) == Fetched(r);
          assert results[k - 1] == Fetched(r);
        }
      }
      SuccessfulResults(results)
  }
}
