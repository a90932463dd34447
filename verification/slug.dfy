/**
  The address slug the blog editor derives from a new post's title:
  `title.toLowerCase().replace(/\s+/g, '-').replace(/[^\w-]+/g, '')`.
 */
module Slugs {
  import opened Text
  import opened Seqs

  /** What `s.replace(/\s+/g, '-')` writes for character `c`: the character
      itself, the hyphen that opens a run of white space, or nothing inside
      such a run. */
  function Replacement(c: char, afterSpace: bool): (r: string)
    ensures IsSpace(c) ==> r == (if afterSpace then "" else "-")
    ensures !IsSpace(c) ==> r == [c]
  {
    if !IsSpace(c) then [c] else if afterSpace then "" else "-"
  }

  /** `s.replace(/\s+/g, '-')`, scanning with a flag that says whether the
      previous character was white space: a run of white space becomes a
      single hyphen. */
  function CollapseSpaces(s: string, afterSpace: bool): (r: string)
    ensures forall i :: 0 <= i < |r| ==> !IsSpace(r[i]) && (r[i] == '-' || r[i] in s)
    decreases |s|
  {
    if |s| == 0 then ""
    else Replacement(s[0], afterSpace) + CollapseSpaces(s[1..], IsSpace(s[0]))
  }

  /** The replacement of one character keeps its word characters. */
  lemma ReplacementKeepsWords(c: char, afterSpace: bool)
    ensures Filter(IsWordChar, Replacement(c, afterSpace)) == Filter(IsWordChar, [c])
  {
    if IsSpace(c) {
      assert [c][1..] == [];
      if !afterSpace {
        assert "-"[1..] == [];
      }
    }
  }

  /** Collapsing white space keeps the word characters, in order. */
  lemma {:induction false} CollapseKeepsWords(s: string, afterSpace: bool)
    ensures Filter(IsWordChar, CollapseSpaces(s, afterSpace)) == Filter(IsWordChar, s)
    decreases |s|
  {
    if |s| > 0 {
      var head, tail := Replacement(s[0], afterSpace), s[1..];
      CollapseKeepsWords(tail, IsSpace(s[0]));
      FilterConcat(IsWordChar, head, CollapseSpaces(tail, IsSpace(s[0])));
      ReplacementKeepsWords(s[0], afterSpace);
      assert s == [s[0]] + tail;
      FilterConcat(IsWordChar, [s[0]], tail);
    }
  }

  /** Text without white space is left as it is. */
  lemma {:induction false} CollapseNoSpaces(s: string, afterSpace: bool)
    requires forall i :: 0 <= i < |s| ==> !IsSpace(s[i])
    ensures CollapseSpaces(s, afterSpace) == s
    decreases |s|
  {
    if |s| > 0 {
      CollapseNoSpaces(s[1..], false);
      assert s == [s[0]] + s[1..];
    }
  }

  /** Text without white space in front of the rest passes through
      unchanged, the scan then resuming as after a non-space. */
  lemma {:induction false} CollapseWordPrefix(a: string, t: string)
    requires forall i :: 0 <= i < |a| ==> !IsSpace(a[i])
    ensures CollapseSpaces(a + t, false) == a + CollapseSpaces(t, false)
    decreases |a|
  {
    if |a| > 0 {
      assert (a + t)[0] == a[0];
      assert (a + t)[1..] == a[1..] + t;
      CollapseWordPrefix(a[1..], t);
      assert a == [a[0]] + a[1..];
    } else {
      assert a + t == t;
    }
  }

  /** A run of white space in front of the rest is replaced as its first
      character is, and the rest is scanned as after white space. */
  lemma {:induction false} CollapseRun(sp: string, b: string, afterSpace: bool)
    requires |sp| >= 1 && forall i :: 0 <= i < |sp| ==> IsSpace(sp[i])
    ensures CollapseSpaces(sp + b, afterSpace) == Replacement(sp[0], afterSpace) + CollapseSpaces(b, true)
    decreases |sp|
  {
    assert (sp + b)[0] == sp[0];
    assert (sp + b)[1..] == sp[1..] + b;
    if |sp| > 1 {
      CollapseRun(sp[1..], b, true);
      assert Replacement(sp[1..][0], true) == "";
    } else {
      assert sp[1..] + b == b;
    }
  }

  /** Two words around a run of white space become the words joined by one
      hyphen: `"hello \t world"` becomes `"hello-world"`. */
  lemma CollapseWords(a: string, sp: string, b: string)
    requires forall i :: 0 <= i < |a| ==> !IsSpace(a[i])
    requires forall i :: 0 <= i < |b| ==> !IsSpace(b[i])
    requires |sp| >= 1 && forall i :: 0 <= i < |sp| ==> IsSpace(sp[i])
    ensures CollapseSpaces(a + sp + b, false) == a + "-" + b
  {
    var t := sp + b;
    assert a + sp + b == a + t;
    CollapseWordPrefix(a, t);
    CollapseRun(sp, b, false);
    var hyphen := Replacement(sp[0], false);
    assert hyphen == "-";
    CollapseNoSpaces(b, true);
    calc {
      CollapseSpaces(a + t, false);
      a + CollapseSpaces(t, false);
      a + (hyphen + CollapseSpaces(b, true));
      a + ("-" + b);
    }
    assert a + ("-" + b) == a + "-" + b;
  }

  /** The characters `/[^\w-]+/g` leaves in place. */
  predicate IsSlugChar(c: char) {
    IsWordChar(c) || c == '-'
  }

  /** `s.replace(/[^\w-]+/g, '')`: removing the runs of other characters is
      removing each of them. */
  function RemoveNonWord(s: string): (r: string)
    ensures forall i :: 0 <= i < |r| ==> IsSlugChar(r[i])
    ensures Filter(IsWordChar, r) == Filter(IsWordChar, s)
    ensures IsSubsequence(r, s)
  {
    var r := Filter(IsSlugChar, s);
    assert forall i :: 0 <= i < |r| ==> IsSlugChar(r[i]);
    FilterFilter(IsWordChar, IsSlugChar, s);
    r
  }

  /** Filtering by a stricter predicate after a looser one is filtering by
      the stricter one alone. */
  lemma {:induction false} FilterFilter(p: char -> bool, q: char -> bool, s: string)
    requires forall c :: p(c) ==> q(c)
    ensures Filter(p, Filter(q, s)) == Filter(p, s)
    decreases |s|
  {
    if |s| > 0 {
      FilterFilter(p, q, s[1..]);
      if q(s[0]) {
        assert Filter(q, s) == [s[0]] + Filter(q, s[1..]);
        assert Filter(p, Filter(q, s)) == Filter(p, [s[0]] + Filter(q, s[1..]));
        assert ([s[0]] + Filter(q, s[1..]))[1..] == Filter(q, s[1..]);
      }
    }
  }

  /** The slug of a title: lower case ASCII letters, digits, `_` and `-`
      only, holding the title's ASCII letters and digits (lower-cased) and
      its underscores, in order. Other letters, accented ones included, are
      dropped. */
  function Slug(title: string): (r: string)
    ensures forall i :: 0 <= i < |r| ==> IsSlugChar(r[i]) && !IsAsciiUpper(r[i])
  {
    var lower := Lower(title);
    var collapsed := CollapseSpaces(lower, false);
    var r := RemoveNonWord(collapsed);
    SubsequenceChars(r, collapsed);
    assert forall i :: 0 <= i < |r| ==> r[i] in collapsed;
    r
  }

  /** The word characters of the slug are those of the lower-cased title. */
  lemma SlugKeepsWords(title: string)
    ensures Filter(IsWordChar, Slug(title)) == Filter(IsWordChar, Lower(title))
  {
    CollapseKeepsWords(Lower(title), false);
  }

  /** Every character of a subsequence comes from the sequence. */
  lemma {:induction false} SubsequenceChars(a: string, b: string)
    requires IsSubsequence(a, b)
    ensures forall c :: c in a ==> c in b
    decreases |b|
  {
    if |a| > 0 {
      if a[0] == b[0] && IsSubsequence(a[1..], b[1..]) {
        SubsequenceChars(a[1..], b[1..]);
        assert a == [a[0]] + a[1..];
      } else {
        SubsequenceChars(a, b[1..]);
      }
    }
  }

  /** A slug is its own slug. */
  lemma SlugIdempotent(title: string)
    ensures Slug(Slug(title)) == Slug(title)
  {
    var s := Slug(title);
    assert Lower(s) == s;
    CollapseNoSpaces(s, false);
    FilterAllOrNone(IsSlugChar, s);
  }
}
