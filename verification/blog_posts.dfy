/**
  The blog-post admin screen: its edit form, saving a new or edited post,
  deleting one, and the search over the list.
 */
module BlogPosts {
  import opened Text
  import opened Opt
  import opened Seqs
  import opened Records
  import opened TagLists
  import opened Slugs
  import Search

  datatype Post = Post(
    id: string, title: string, slug: string, excerpt: string, content: string,
    tags: Tags, category: string, publishedAt: string)

  /** The edit form. `id` is `null` (`None`) for a new post; `tags` is the
      text the user types. */
  datatype PostForm = PostForm(
    id: Option<string>, title: string, slug: string, excerpt: string, content: string,
    tags: string, category: string, publishedAt: string)

  function PostId(p: Post): string {
    p.id
  }

  /** `if (formData.id)`: a non-empty id string is truthy. */
  predicate HasId(f: PostForm) {
    f.id.Some? && f.id.value != ""
  }

  /** `initialFormData`, on calendar date `today`. */
  function BlankForm(today: string): (r: PostForm)
    ensures !HasId(r) && r.publishedAt == today
  {
    PostForm(None, "", "", "", "", "", "", today)
  }

  /** The inputs of the form, by their `name`. */
  datatype Field = Title | SlugField | Excerpt | Content | TagsField | Category | PublishedAt

  function Get(f: PostForm, name: Field): string {
    match name
    case Title => f.title
    case SlugField => f.slug
    case Excerpt => f.excerpt
    case Content => f.content
    case TagsField => f.tags
    case Category => f.category
    case PublishedAt => f.publishedAt
  }

  /** `handleInputChange`: sets the named input; typing a title of a post
      without an id also fills in the slug. */
  function InputChange(f: PostForm, name: Field, value: string): (r: PostForm)
    ensures r.id == f.id
    ensures Get(r, name) == value
    ensures name == Title && !HasId(f) ==> r.slug == Slug(value)
    ensures forall g :: g != name && !(g == SlugField && name == Title && !HasId(f)) ==> Get(r, g) == Get(f, g)
  {
    match name
    case Title => if HasId(f) then f.(title := value) else f.(title := value, slug := Slug(value))
    case SlugField => f.(slug := value)
    case Excerpt => f.(excerpt := value)
    case Content => f.(content := value)
    case TagsField => f.(tags := value)
    case Category => f.(category := value)
    case PublishedAt => f.(publishedAt := value)
  }

  /** Once a post has an id its slug only changes when edited directly. */
  lemma EditedTitleKeepsSlug(f: PostForm, value: string)
    requires HasId(f)
    ensures InputChange(f, Title, value).slug == f.slug
    ensures InputChange(f, Title, value).title == value
  {
  }

  /** `{ ...formData, id, tags: formData.tags.split(',').map(t => t.trim()) }`. */
  function Saved(f: PostForm, id: string): (r: Post)
    ensures r.id == id && r.tags == Listed(ParseTags(f.tags))
    ensures r.title == f.title && r.slug == f.slug && r.excerpt == f.excerpt && r.content == f.content
    ensures r.category == f.category && r.publishedAt == f.publishedAt
  {
    Post(id, f.title, f.slug, f.excerpt, f.content, Listed(ParseTags(f.tags)), f.category, f.publishedAt)
  }

  /** `handleSubmit`. A form with an id replaces the post with that id, in
      place; a form without one appends a post under `newId`
      (`Date.now().toString()`). */
  function Submit(posts: seq<Post>, f: PostForm, newId: string): (r: seq<Post>)
    ensures HasId(f) ==>
      && |r| == |posts|
      && (forall i :: 0 <= i < |r| ==> r[i].id == posts[i].id)
      && (forall i :: 0 <= i < |r| && posts[i].id != f.id.value ==> r[i] == posts[i])
      && (forall i :: 0 <= i < |r| && posts[i].id == f.id.value ==> r[i] == Saved(f, f.id.value))
    ensures !HasId(f) ==>
      && |r| == |posts| + 1
      && r[..|posts|] == posts
      && r[|posts|] == Saved(f, newId)
  {
    if HasId(f) then ReplaceWhere(posts, PostId, f.id.value, Saved(f, f.id.value))
    else posts + [Saved(f, newId)]
  }

  /** Saving keeps post ids unique, given a fresh id for a new post. */
  lemma SubmitKeepsUnique(posts: seq<Post>, f: PostForm, newId: string)
    requires UniqueKeys(posts, PostId)
    requires !HasId(f) ==> !HasKey(posts, PostId, newId)
    ensures UniqueKeys(Submit(posts, f, newId), PostId)
  {
    if !HasId(f) {
      AppendFresh(posts, PostId, Saved(f, newId));
    }
  }

  /** `handleEdit`: the form is the post, with a tag list joined by `', '`. */
  function EditForm(p: Post): (r: PostForm)
    ensures r.id == Some(p.id) && r.tags == TagText(p.tags)
    ensures r.title == p.title && r.slug == p.slug && r.excerpt == p.excerpt && r.content == p.content
    ensures r.category == p.category && r.publishedAt == p.publishedAt
  {
    PostForm(Some(p.id), p.title, p.slug, p.excerpt, p.content, TagText(p.tags), p.category, p.publishedAt)
  }

  /** A tag list that survives a trip through the edit form. */
  predicate CleanTags(ts: seq<string>) {
    |ts| >= 1 && forall i :: 0 <= i < |ts| ==> IsTrimmed(ts[i]) && ',' !in ts[i]
  }

  /** Opening a saved post for editing and saving it unchanged leaves the
      list as it was. */
  lemma EditSaveUnchanged(posts: seq<Post>, j: nat, newId: string)
    requires UniqueKeys(posts, PostId)
    requires j < |posts| && posts[j].id != ""
    requires posts[j].tags.Listed? && CleanTags(posts[j].tags.items)
    ensures Submit(posts, EditForm(posts[j]), newId) == posts
  {
    var p := posts[j];
    EditSaveRoundTrip(p.tags.items);
    assert Saved(EditForm(p), p.id) == p;
    ReplaceUnique(posts, PostId, j, p);
    assert posts[j := p] == posts;
  }

  /** Saving a post seeded with comma-separated tag text stores the parsed
      list; the tag chips shown stay the same. */
  lemma EditSaveSameChips(p: Post, text: string)
    requires p.tags == Joined(text)
    ensures Saved(EditForm(p), p.id).tags == Listed(ParseTags(text))
    ensures DisplayTags(Saved(EditForm(p), p.id).tags) == DisplayTags(p.tags)
  {
    var pieces := Split(text, ',');
    forall i | 0 <= i < |pieces| ensures Trim(Trim(pieces[i])) == Trim(pieces[i]) {
      TrimIff(pieces[i]);
      TrimIff(Trim(pieces[i]));
    }
    assert TrimAll(ParseTags(text)) == TrimAll(pieces);
  }

  /** `handleDelete`. */
  function Delete(posts: seq<Post>, id: string): (r: seq<Post>)
    ensures !HasKey(r, PostId, id)
    ensures IsSubsequence(r, posts)
    ensures forall p :: p in r <==> p in posts && p.id != id
  {
    RemoveWhere(posts, PostId, id)
  }

  /** Deleting a post that is there removes exactly that post. */
  lemma DeleteOne(posts: seq<Post>, j: nat)
    requires UniqueKeys(posts, PostId) && j < |posts|
    ensures Delete(posts, posts[j].id) == posts[..j] + posts[j + 1..]
    ensures UniqueKeys(Delete(posts, posts[j].id), PostId)
  {
    RemoveUnique(posts, PostId, j);
    RemoveKeepsUnique(posts, PostId, posts[j].id);
  }

  /** The fields the search looks in: title, excerpt, tag text, category. */
  function SearchFields(p: Post): (r: seq<string>)
    ensures |r| == 4
  {
    [p.title, p.excerpt, TagText(p.tags), p.category]
  }

  /** The filter condition of `filteredPosts`. */
  predicate Found(p: Post, term: string) {
    || Contains(Lower(p.title), Lower(term))
    || Contains(Lower(p.excerpt), Lower(term))
    || Contains(Lower(TagText(p.tags)), Lower(term))
    || Contains(Lower(p.category), Lower(term))
  }

  lemma FoundIff(p: Post, term: string)
    ensures Found(p, term) <==> Search.AnyIncludes(SearchFields(p), term)
  {
    var fs := SearchFields(p);
    assert fs[0] == p.title && fs[1] == p.excerpt && fs[2] == TagText(p.tags) && fs[3] == p.category;
  }

  /** `filteredPosts`: the posts found, in list order. */
  function SearchPosts(posts: seq<Post>, term: string): (r: seq<Post>)
    ensures IsSubsequence(r, posts)
    ensures forall p :: p in r <==> p in posts && Found(p, term)
  {
    forall p ensures Found(p, term) <==> Search.AnyIncludes(SearchFields(p), term) {
      FoundIff(p, term);
    }
    Search.Search(posts, SearchFields, term)
  }

  /** An empty search lists every post. */
  lemma SearchAllWhenEmpty(posts: seq<Post>)
    ensures SearchPosts(posts, "") == posts
  {
    Search.SearchEmptyTerm(posts, SearchFields);
  }

  /** A post one of whose saved tags includes the term is found. */
  lemma SearchFindsTag(posts: seq<Post>, j: nat, k: nat, term: string)
    requires j < |posts| && posts[j].tags.Listed? && k < |posts[j].tags.items|
    requires Contains(Lower(posts[j].tags.items[k]), Lower(term))
    ensures posts[j] in SearchPosts(posts, term)
  {
    var ts := posts[j].tags.items;
    JoinContainsPart(ts, ", ", k);
    ContainsLower(Join(ts, ", "), ts[k]);
    ContainsTrans(Lower(Join(ts, ", ")), Lower(ts[k]), Lower(term));
  }
}
