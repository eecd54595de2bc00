/** How the document store compares strings: the binary order used by `sort` without a
    collation, and the `{locale: "en", strength: 2}` equality used by the duplicate lookup,
    which ignores letter case. */
module Collation {

  /** Binary (code point) order on strings, the order of an ascending `sort` on a text field. */
  predicate LexLe(a: string, b: string)
    decreases |a|
  {
    a == [] || (b != [] && (a[0] < b[0] || (a[0] == b[0] && LexLe(a[1..], b[1..]))))
  }

  /** Any two strings are ordered one way or the other. */
  lemma {:induction false} LexLeTotal(a: string, b: string)
    ensures LexLe(a, b) || LexLe(b, a)
    decreases |a|
  {
    if a != [] && b != [] && a[0] == b[0] {
      LexLeTotal(a[1..], b[1..]);
    }
  }

  lemma {:induction false} LexLeTransitive(a: string, b: string, c: string)
    requires LexLe(a, b) && LexLe(b, c)
    ensures LexLe(a, c)
    decreases |a|
  {
    if a != [] && a[0] == b[0] && b[0] == c[0] {
      LexLeTransitive(a[1..], b[1..], c[1..]);
    }
  }

  lemma {:induction false} LexLeAntisymmetric(a: string, b: string)
    requires LexLe(a, b) && LexLe(b, a)
    ensures a == b
    decreases |a|
  {
    if a != [] {
      LexLeAntisymmetric(a[1..], b[1..]);
      assert a == [a[0]] + a[1..] && b == [b[0]] + b[1..];
    }
  }

  /** Letter case as strength 2 sees it: an ASCII capital and its small letter are the same. */
  function FoldChar(c: char): (d: char)
    ensures 'A' <= c <= 'Z' ==> 'a' <= d <= 'z' && d as int == c as int + 32
    ensures !('A' <= c <= 'Z') ==> d == c
  {
    if 'A' <= c <= 'Z' then (c as int + 32) as char else c
  }

  /** Equality of two strings under the strength-2 collation. */
  predicate EqualsIgnoringCase(a: string, b: string) {
    |a| == |b| && forall i :: 0 <= i < |a| ==> FoldChar(a[i]) == FoldChar(b[i])
  }

  lemma EqualsIgnoringCaseIsEquivalence(a: string, b: string, c: string)
    ensures EqualsIgnoringCase(a, a)
    ensures EqualsIgnoringCase(a, b) ==> EqualsIgnoringCase(b, a)
    ensures EqualsIgnoringCase(a, b) && EqualsIgnoringCase(b, c) ==> EqualsIgnoringCase(a, c)
  {
  }

  /** Two strings that differ only in the case of ASCII letters are equal under strength 2,
      and strength-2 equality never relates strings that differ otherwise. */
  lemma {:induction false} EqualsIgnoringCaseExactly(a: string, b: string)
    requires |a| == |b|
    ensures EqualsIgnoringCase(a, b) <==>
      forall i :: 0 <= i < |a| ==> (a[i] == b[i] || (a[i] as int - b[i] as int == 32 && 'a' <= a[i] <= 'z')
                                     || (b[i] as int - a[i] as int == 32 && 'a' <= b[i] <= 'z'))
  {
    forall i | 0 <= i < |a|
      ensures FoldChar(a[i]) == FoldChar(b[i]) <==>
        (a[i] == b[i] || (a[i] as int - b[i] as int == 32 && 'a' <= a[i] <= 'z')
         || (b[i] as int - a[i] as int == 32 && 'a' <= b[i] <= 'z'))
    {
      var x, y := a[i], b[i];
      assert FoldChar(x) == FoldChar(y) ==> FoldChar(x) as int == FoldChar(y) as int;
    }
  }
}
