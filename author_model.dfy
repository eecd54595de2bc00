/** An Author document (model/author.js): its stored fields, the schema's constraints on
    them, and the three display virtuals `name`, `url` and `lifespan`. */
module AuthorModel {
  import opened Base
  import Validators

  /** A stored or freshly built Author. An unset name is the empty string, an unset date None. */
  datatype Author = Author(
    id: Id,
    firstName: string,
    familyName: string,
    dateOfBirth: Option<Date>,
    dateOfDeath: Option<Date>)

  const MaxNameLength: nat := 100

  /** What the schema demands before `save()` writes a document: both names present
      (the `required` check rejects the empty string) and at most 100 UTF-16 units long. */
  predicate SchemaValid(a: Author) {
    a.firstName != "" && Validators.JsLength(a.firstName) <= MaxNameLength
    && a.familyName != "" && Validators.JsLength(a.familyName) <= MaxNameLength
  }

  // ---------------------------------------------------------------- name

  /** The `name` virtual: "family, first" when both names are set, otherwise "". */
  function Name(a: Author): (r: string)
    ensures r == "" <==> (a.firstName == "" || a.familyName == "")
    ensures r != "" ==> |r| == |a.familyName| + 2 + |a.firstName|
  {
    if a.firstName != "" && a.familyName != "" then a.familyName + ", " + a.firstName else ""
  }

  /** Position of the first comma, or |s| when there is none. */
  function CommaIndex(s: string): (k: nat)
    ensures k <= |s|
    ensures forall i :: 0 <= i < k ==> s[i] != ','
    ensures k < |s| ==> s[k] == ','
  {
    if s == [] || s[0] == ',' then 0 else 1 + CommaIndex(s[1..])
  }

  /** Reads a display name back into (family name, first name): the text before the first
      ", " and the text after it. */
  function SplitName(s: string): Option<(string, string)> {
    var k := CommaIndex(s);
    if k + 1 < |s| && s[k + 1] == ' ' then Some((s[..k], s[k + 2..])) else None
  }

  lemma {:induction false} CommaIndexAppend(a: string, b: string)
    requires forall i :: 0 <= i < |a| ==> a[i] != ','
    ensures CommaIndex(a + b) == |a| + CommaIndex(b)
  {
    if a != [] {
      assert (a + b)[1..] == a[1..] + b;
      CommaIndexAppend(a[1..], b);
    } else {
      assert a + b == b;
    }
  }

  /** The display name loses nothing when the family name holds no comma (as every name
      that passes the alphanumeric check): both names can be read back from it. */
  lemma NameRoundTrip(a: Author)
    requires a.firstName != "" && a.familyName != ""
    requires forall i :: 0 <= i < |a.familyName| ==> a.familyName[i] != ','
    ensures SplitName(Name(a)) == Some((a.familyName, a.firstName))
  {
    var s := Name(a);
    assert s == a.familyName + (", " + a.firstName);
    CommaIndexAppend(a.familyName, ", " + a.firstName);
    var k := |a.familyName|;
    assert s[..k] == a.familyName;
    assert s[k + 2..] == a.firstName;
  }

  // ---------------------------------------------------------------- url

  const AuthorUrlPrefix := "/catalog/author/"

  /** The `url` virtual: the canonical path of an author, built from its id alone. */
  function Url(id: Id): (r: string)
    ensures |r| == |AuthorUrlPrefix| + |id|
    ensures r[..|AuthorUrlPrefix|] == AuthorUrlPrefix
  {
    AuthorUrlPrefix + id
  }

  function IdFromUrl(url: string): Option<Id> {
    if |url| >= |AuthorUrlPrefix| && url[..|AuthorUrlPrefix|] == AuthorUrlPrefix
    then Some(url[|AuthorUrlPrefix|..]) else None
  }

  /** The id can be read back from the url, so two authors share a url only if they share an id. */
  lemma UrlRoundTrip(id: Id, other: Id)
    ensures IdFromUrl(Url(id)) == Some(id)
    ensures Url(id) == Url(other) ==> id == other
  {
    assert Url(id)[|AuthorUrlPrefix|..] == id;
    assert Url(other)[|AuthorUrlPrefix|..] == other;
  }

  // ---------------------------------------------------------------- lifespan

  /** A date as the `lifespan` virtual shows it: formatted when set, "" when unset. */
  function ShownDate(d: Option<Date>, lib: DateLib): string {
    if d.Some? then lib.formatMed(d.value) else ""
  }

  /** The `lifespan` virtual, which tests the two formatted dates for emptiness. */
  function Lifespan(a: Author, lib: DateLib): (r: string)
    ensures var dob, dod := ShownDate(a.dateOfBirth, lib), ShownDate(a.dateOfDeath, lib);
      r == "" <==> dob == "" && dod == ""
  {
    var dob := ShownDate(a.dateOfBirth, lib);
    var dod := ShownDate(a.dateOfDeath, lib);
    if dob != "" && dod != "" then dob + " - " + dod
    else if dob != "" && dod == "" then dob + " - unknown"
    else if dob == "" && dod != "" then "unknown - " + dod
    else ""
  }

  /** The medium date format never produces an empty text, so the four shapes of `lifespan`
      are decided by which dates are set. */
  lemma LifespanByPresence(a: Author, lib: DateLib)
    requires forall d :: lib.formatMed(d) != ""
    ensures a.dateOfBirth.Some? && a.dateOfDeath.Some? ==>
      Lifespan(a, lib) == lib.formatMed(a.dateOfBirth.value) + " - " + lib.formatMed(a.dateOfDeath.value)
    ensures a.dateOfBirth.Some? && a.dateOfDeath.None? ==>
      Lifespan(a, lib) == lib.formatMed(a.dateOfBirth.value) + " - unknown"
    ensures a.dateOfBirth.None? && a.dateOfDeath.Some? ==>
      Lifespan(a, lib) == "unknown - " + lib.formatMed(a.dateOfDeath.value)
    ensures Lifespan(a, lib) == "" <==> a.dateOfBirth.None? && a.dateOfDeath.None?
  {
    if a.dateOfBirth.Some? {
      var d := a.dateOfBirth.value;
      assert lib.formatMed(d) != "";
    }
    if a.dateOfDeath.Some? {
      var d := a.dateOfDeath.value;
      assert lib.formatMed(d) != "";
    }
  }
}
