/**
  Tags of blog posts and projects. A record stores them either as the
  comma-separated text it was seeded with or as the list a save produces;
  the edit form, the search and the tag chips each read them back.
 */
module TagLists {
  import opened Text
  import opened Seqs

  datatype Tags = Joined(text: string) | Listed(items: seq<string>)

  /** `pieces.map(t => t.trim())`. */
  function TrimAll(pieces: seq<string>): (r: seq<string>)
    ensures |r| == |pieces|
    ensures forall i :: 0 <= i < |r| ==> r[i] == Trim(pieces[i]) && IsTrimmed(r[i])
  {
    var r := seq(|pieces|, i requires 0 <= i < |pieces| => Trim(pieces[i]));
    forall i | 0 <= i < |r| ensures IsTrimmed(r[i]) {
      TrimIff(pieces[i]);
    }
    r
  }

  /** What a save stores: `text.split(',').map(t => t.trim())`. Empty pieces
      are kept, so there is one tag per comma plus one. */
  function ParseTags(text: string): (r: seq<string>)
    ensures |r| == |Split(text, ',')| >= 1
    ensures forall i :: 0 <= i < |r| ==> r[i] == Trim(Split(text, ',')[i])
    ensures forall i :: 0 <= i < |r| ==> IsTrimmed(r[i]) && ',' !in r[i]
  {
    var pieces := Split(text, ',');
    var r := TrimAll(pieces);
    forall i | 0 <= i < |r| ensures ',' !in r[i] {
      TrimSubstring(pieces[i]);
    }
    r
  }

  /** The text the edit form and the search read:
      `Array.isArray(tags) ? tags.join(', ') : tags`. */
  function TagText(tags: Tags): string {
    match tags
    case Joined(text) => text
    case Listed(items) => Join(items, ", ")
  }

  /** The raw pieces the chips are made from:
      `Array.isArray(tags) ? tags : tags.split(',')`. */
  function Pieces(tags: Tags): seq<string> {
    match tags
    case Joined(text) => Split(text, ',')
    case Listed(items) => items
  }

  predicate NonEmpty(t: string) {
    t != ""
  }

  /** The tag chips: pieces trimmed, empty ones dropped, order kept. */
  function DisplayTags(tags: Tags): (r: seq<string>)
    ensures forall i :: 0 <= i < |r| ==> r[i] != "" && IsTrimmed(r[i])
    ensures IsSubsequence(r, TrimAll(Pieces(tags)))
    ensures forall t :: t in r <==> t in TrimAll(Pieces(tags)) && t != ""
    ensures forall t :: multiset(r)[t] == if t != "" then multiset(TrimAll(Pieces(tags)))[t] else 0
  {
    var trimmed := TrimAll(Pieces(tags));
    var r := Filter(NonEmpty, trimmed);
    assert forall i :: 0 <= i < |r| ==> NonEmpty(r[i]) && r[i] in trimmed;
    NonEmptyCounts(trimmed);
    r
  }

  /** Dropping the empty tags keeps every other tag as often as it occurs. */
  lemma NonEmptyCounts(ts: seq<string>)
    ensures forall t :: multiset(Filter(NonEmpty, ts))[t] == if t != "" then multiset(ts)[t] else 0
  {
    FilterCounts(NonEmpty, ts);
  }

  /** Characters of a trimmed string all come from the original. */
  lemma TrimSubstring(s: string)
    ensures forall c :: c in Trim(s) ==> c in s
  {
    TrimStartShape(s);
    TrimEndShape(TrimStart(s));
  }

  /** The list a `', '` join splits into at the commas: the first tag, then
      each further tag behind the space the join put in front of it. */
  function SpacePrefixed(ts: seq<string>): (r: seq<string>)
    ensures |r| == |ts|
  {
    seq(|ts|, i requires 0 <= i < |ts| => " " + ts[i])
  }

  lemma {:induction false} JoinCommaSpace(ts: seq<string>)
    requires |ts| >= 1
    ensures " " + Join(ts, ", ") == Join(SpacePrefixed(ts), ",")
    decreases |ts|
  {
    if |ts| > 1 {
      JoinCommaSpace(ts[1..]);
      assert SpacePrefixed(ts)[1..] == SpacePrefixed(ts[1..]);
      assert " " + Join(ts, ", ") == (" " + ts[0]) + "," + (" " + Join(ts[1..], ", "));
    }
  }

  /** The comma split of a list's edit text: the first tag, then each further
      tag with the space of the `', '` in front of it. */
  lemma SplitEditText(ts: seq<string>)
    requires |ts| >= 1
    requires forall i :: 0 <= i < |ts| ==> ',' !in ts[i]
    ensures Split(Join(ts, ", "), ',') == [ts[0]] + SpacePrefixed(ts[1..])
  {
    var pieces := [ts[0]] + SpacePrefixed(ts[1..]);
    JoinEditText(ts);
    forall i | 0 <= i < |pieces| ensures ',' !in pieces[i] {
      if i > 0 {
        assert pieces[i] == " " + ts[i];
      }
    }
    SplitJoin(pieces, ',');
  }

  /** The `', '` join of a list is the `','` join of its split pieces. */
  lemma JoinEditText(ts: seq<string>)
    requires |ts| >= 1
    ensures Join(ts, ", ") == Join([ts[0]] + SpacePrefixed(ts[1..]), ",")
  {
    if |ts| == 1 {
      assert [ts[0]] + SpacePrefixed(ts[1..]) == [ts[0]];
    } else {
      JoinEditTextMany(ts);
    }
  }

  lemma JoinEditTextMany(ts: seq<string>)
    requires |ts| > 1
    ensures Join(ts, ", ") == Join([ts[0]] + SpacePrefixed(ts[1..]), ",")
  {
    var tail := SpacePrefixed(ts[1..]);
    var pieces := [ts[0]] + tail;
    var rest := Join(ts[1..], ", ");
    assert |pieces| > 1 && pieces[0] == ts[0] && pieces[1..] == tail;
    assert Join(pieces, ",") == ts[0] + "," + Join(tail, ",");
    JoinCommaSpace(ts[1..]);
    assert Join(ts, ", ") == ts[0] + ", " + rest;
    CommaThenSpace(ts[0], rest);
  }

  lemma CommaThenSpace(a: string, b: string)
    ensures a + "," + (" " + b) == a + ", " + b
  {
    assert ", " == "," + " ";
  }

  /** The space in front of each further tag is lost to the trim. */
  lemma TrimSpacePrefixed(ts: seq<string>)
    requires |ts| >= 1
    ensures TrimAll([ts[0]] + SpacePrefixed(ts[1..])) == TrimAll(ts)
  {
    var pieces := [ts[0]] + SpacePrefixed(ts[1..]);
    forall i | 0 <= i < |ts| ensures Trim(pieces[i]) == Trim(ts[i]) {
      if i > 0 {
        assert pieces[i] == [' '] + ts[i];
        TrimLeadingSpace(' ', ts[i]);
      }
    }
  }

  /** Editing a saved tag list and saving it again gives the list back, when
      the tags are trimmed and hold no comma. */
  lemma EditSaveRoundTrip(ts: seq<string>)
    requires |ts| >= 1
    requires forall i :: 0 <= i < |ts| ==> IsTrimmed(ts[i]) && ',' !in ts[i]
    ensures ParseTags(TagText(Listed(ts))) == ts
  {
    SplitEditText(ts);
    TrimSpacePrefixed(ts);
    forall i | 0 <= i < |ts| ensures Trim(ts[i]) == ts[i] {
      TrimIff(ts[i]);
    }
  }

  /** Editing an empty tag list and saving it gives one empty tag. */
  lemma EditSaveEmpty()
    ensures ParseTags(TagText(Listed([]))) == [""]
  {
    assert Trim("") == "";
  }

  /** Whether a list is stored as it is or as its edit text, the same chips
      are shown, as long as no tag holds a comma. */
  lemma DisplayBothStorages(ts: seq<string>)
    requires forall i :: 0 <= i < |ts| ==> ',' !in ts[i]
    ensures DisplayTags(Joined(TagText(Listed(ts)))) == DisplayTags(Listed(ts))
  {
    if |ts| == 0 {
      assert Trim("") == "";
      assert TrimAll([""]) == [""];
      assert Filter(NonEmpty, [""]) == [] by {
        assert [""][1..] == [];
      }
    } else {
      SplitEditText(ts);
      TrimSpacePrefixed(ts);
    }
  }

  /** The tag line of the detail view: the chips joined by `', '`. */
  function ViewTags(tags: Tags): (r: string)
    ensures r == TagText(Listed(DisplayTags(tags)))
    ensures |DisplayTags(tags)| == 0 ==> r == ""
    ensures forall i :: 0 <= i < |DisplayTags(tags)| ==> Contains(r, DisplayTags(tags)[i])
  {
    var chips := DisplayTags(tags);
    forall i | 0 <= i < |chips| ensures Contains(Join(chips, ", "), chips[i]) {
      JoinContainsPart(chips, ", ", i);
    }
    Join(chips, ", ")
  }

  /** The detail line reads back as the chips it shows: stored as tag text
      it shows the same chips, and its comma split, trimmed, is the chip
      list whenever there is a chip. The tags must hold no comma, which tag
      text split at the commas never does. */
  lemma ViewTagsRoundTrip(tags: Tags)
    requires forall i :: 0 <= i < |Pieces(tags)| ==> ',' !in Pieces(tags)[i]
    ensures DisplayTags(Joined(ViewTags(tags))) == DisplayTags(tags)
    ensures |DisplayTags(tags)| >= 1 ==> TrimAll(Split(ViewTags(tags), ',')) == DisplayTags(tags)
  {
    var pieces := Pieces(tags);
    var chips := DisplayTags(tags);
    forall i | 0 <= i < |chips| ensures ',' !in chips[i] {
      var j :| 0 <= j < |pieces| && TrimAll(pieces)[j] == chips[i];
      TrimSubstring(pieces[j]);
    }
    assert ViewTags(tags) == TagText(Listed(chips));
    DisplayBothStorages(chips);
    CleanListShown(chips);
    if |chips| >= 1 {
      EditSaveRoundTrip(chips);
    }
  }

  /** A list of non-empty trimmed tags is shown as it is, and its detail
      line is its edit text. */
  lemma CleanListShown(ts: seq<string>)
    requires forall i :: 0 <= i < |ts| ==> ts[i] != "" && IsTrimmed(ts[i])
    ensures DisplayTags(Listed(ts)) == ts
    ensures ViewTags(Listed(ts)) == TagText(Listed(ts))
  {
    forall i | 0 <= i < |ts| ensures Trim(ts[i]) == ts[i] {
      TrimIff(ts[i]);
    }
    assert TrimAll(ts) == ts;
    FilterAllOrNone(NonEmpty, ts);
  }
}
