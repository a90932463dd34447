/**
  The admin lists' search box: a record is shown when one of its text
  fields, lower-cased, includes the lower-cased search term. Each screen
  chooses the fields; the list keeps its order.
 */
module Search {
  import opened Text
  import opened Seqs

  /** `f1.toLowerCase().includes(term.toLowerCase()) || f2... || ...`. */
  predicate AnyIncludes(fields: seq<string>, term: string) {
    exists i :: 0 <= i < |fields| && Contains(Lower(fields[i]), Lower(term))
  }

  function Matcher<T>(fields: T -> seq<string>, term: string): T -> bool {
    x => AnyIncludes(fields(x), term)
  }

  /** `xs.filter(x => <some field includes term>)`. */
  function Search<T(==,!new)>(xs: seq<T>, fields: T -> seq<string>, term: string): (r: seq<T>)
    ensures IsSubsequence(r, xs)
    ensures forall i :: 0 <= i < |r| ==> AnyIncludes(fields(r[i]), term)
    ensures forall x :: x in r <==> x in xs && AnyIncludes(fields(x), term)
  {
    var r := Filter(Matcher(fields, term), xs);
    assert forall i :: 0 <= i < |r| ==> Matcher(fields, term)(r[i]);
    r
  }

  /** An empty search box lists every record. */
  lemma SearchEmptyTerm<T(!new)>(xs: seq<T>, fields: T -> seq<string>)
    requires forall i :: 0 <= i < |xs| ==> |fields(xs[i])| > 0
    ensures Search(xs, fields, "") == xs
  {
    forall i | 0 <= i < |xs| ensures Matcher(fields, "")(xs[i]) {
      ContainsEmpty(Lower(fields(xs[i])[0]));
    }
    FilterAllOrNone(Matcher(fields, ""), xs);
  }

  /** The search ignores the case of the term. */
  lemma SearchIgnoresCase<T(!new)>(xs: seq<T>, fields: T -> seq<string>, term: string)
    ensures Search(xs, fields, Lower(term)) == Search(xs, fields, term)
  {
    LowerIdempotent(term);
    FilterAgree(Matcher(fields, Lower(term)), Matcher(fields, term), xs);
  }

  /** Typing more narrows the list: a term that includes another finds a
      subsequence of what the other finds. */
  lemma SearchNarrows<T(!new)>(xs: seq<T>, fields: T -> seq<string>, shorter: string, longer: string)
    requires Contains(longer, shorter)
    ensures IsSubsequence(Search(xs, fields, longer), Search(xs, fields, shorter))
  {
    ContainsLower(longer, shorter);
    forall i | 0 <= i < |xs| && Matcher(fields, longer)(xs[i])
      ensures Matcher(fields, shorter)(xs[i])
    {
      var fs := fields(xs[i]);
      var k :| 0 <= k < |fs| && Contains(Lower(fs[k]), Lower(longer));
      ContainsTrans(Lower(fs[k]), Lower(longer), Lower(shorter));
    }
    FilterStricter(Matcher(fields, longer), Matcher(fields, shorter), xs);
  }
}
