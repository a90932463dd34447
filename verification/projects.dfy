/**
  The project admin screen: saving a new or edited project, opening one for
  editing, deleting one, and the search over the list.
 */
module Projects {
  import opened Text
  import opened Opt
  import opened Seqs
  import opened Records
  import opened TagLists
  import Search

  datatype Project = Project(
    id: string, title: string, description: string, imageUrl: string,
    tags: Tags, liveLink: string, sourceLink: string)

  /** The edit form. `id` is `null` (`None`) for a new project; `tags` is
      the text the user types. */
  datatype ProjectForm = ProjectForm(
    id: Option<string>, title: string, description: string, imageUrl: string,
    tags: string, liveLink: string, sourceLink: string)

  function ProjectId(p: Project): string {
    p.id
  }

  /** `if (formData.id)`: a non-empty id string is truthy. */
  predicate HasId(f: ProjectForm) {
    f.id.Some? && f.id.value != ""
  }

  /** `initialFormData`. */
  const BlankForm: ProjectForm := ProjectForm(None, "", "", "", "", "", "")

  /** `{ ...formData, id, tags: formData.tags.split(',').map(t => t.trim()) }`. */
  function Saved(f: ProjectForm, id: string): (r: Project)
    ensures r.id == id && r.tags == Listed(ParseTags(f.tags))
    ensures r.title == f.title && r.description == f.description && r.imageUrl == f.imageUrl
    ensures r.liveLink == f.liveLink && r.sourceLink == f.sourceLink
  {
    Project(id, f.title, f.description, f.imageUrl, Listed(ParseTags(f.tags)), f.liveLink, f.sourceLink)
  }

  /** `handleSubmit`. A form with an id replaces the project with that id,
      in place; a form without one appends a project under `newId`
      (`Date.now().toString()`). */
  function Submit(projects: seq<Project>, f: ProjectForm, newId: string): (r: seq<Project>)
    ensures HasId(f) ==>
      && |r| == |projects|
      && (forall i :: 0 <= i < |r| ==> r[i].id == projects[i].id)
      && (forall i :: 0 <= i < |r| && projects[i].id != f.id.value ==> r[i] == projects[i])
      && (forall i :: 0 <= i < |r| && projects[i].id == f.id.value ==> r[i] == Saved(f, f.id.value))
    ensures !HasId(f) ==>
      && |r| == |projects| + 1
      && r[..|projects|] == projects
      && r[|projects|] == Saved(f, newId)
  {
    if HasId(f) then ReplaceWhere(projects, ProjectId, f.id.value, Saved(f, f.id.value))
    else projects + [Saved(f, newId)]
  }

  /** Saving keeps project ids unique, given a fresh id for a new project. */
  lemma SubmitKeepsUnique(projects: seq<Project>, f: ProjectForm, newId: string)
    requires UniqueKeys(projects, ProjectId)
    requires !HasId(f) ==> !HasKey(projects, ProjectId, newId)
    ensures UniqueKeys(Submit(projects, f, newId), ProjectId)
  {
    if !HasId(f) {
      AppendFresh(projects, ProjectId, Saved(f, newId));
    }
  }

  /** `handleEdit`: the form is the project, with a tag list joined by `', '`. */
  function EditForm(p: Project): (r: ProjectForm)
    ensures r.id == Some(p.id) && r.tags == TagText(p.tags)
    ensures r.title == p.title && r.description == p.description && r.imageUrl == p.imageUrl
    ensures r.liveLink == p.liveLink && r.sourceLink == p.sourceLink
  {
    ProjectForm(Some(p.id), p.title, p.description, p.imageUrl, TagText(p.tags), p.liveLink, p.sourceLink)
  }

  /** Opening a saved project for editing and saving it unchanged leaves the
      list as it was, when its tags are trimmed and free of commas. */
  lemma EditSaveUnchanged(projects: seq<Project>, j: nat, newId: string)
    requires UniqueKeys(projects, ProjectId)
    requires j < |projects| && projects[j].id != ""
    requires projects[j].tags.Listed? && |projects[j].tags.items| >= 1
    requires forall i :: 0 <= i < |projects[j].tags.items| ==>
      IsTrimmed(projects[j].tags.items[i]) && ',' !in projects[j].tags.items[i]
    ensures Submit(projects, EditForm(projects[j]), newId) == projects
  {
    var p := projects[j];
    EditSaveRoundTrip(p.tags.items);
    assert Saved(EditForm(p), p.id) == p;
    ReplaceUnique(projects, ProjectId, j, p);
    assert projects[j := p] == projects;
  }

  /** Editing a project with an empty tag list and saving it stores one
      empty tag, which the chips do not show. */
  lemma EditSaveEmptyTags(p: Project)
    requires p.tags == Listed([])
    ensures Saved(EditForm(p), p.id).tags == Listed([""])
    ensures DisplayTags(Saved(EditForm(p), p.id).tags) == []
  {
    EditSaveEmpty();
    assert Trim("") == "";
    assert TrimAll([""]) == [""];
    assert Filter(NonEmpty, [""]) == [] by {
      assert [""][1..] == [];
    }
  }

  /** `handleDelete`. */
  function Delete(projects: seq<Project>, id: string): (r: seq<Project>)
    ensures !HasKey(r, ProjectId, id)
    ensures IsSubsequence(r, projects)
    ensures forall p :: p in r <==> p in projects && p.id != id
    ensures !HasKey(projects, ProjectId, id) ==> r == projects
  {
    RemoveWhere(projects, ProjectId, id)
  }

  /** Deleting a project that is there removes exactly that project. */
  lemma DeleteOne(projects: seq<Project>, j: nat)
    requires UniqueKeys(projects, ProjectId) && j < |projects|
    ensures Delete(projects, projects[j].id) == projects[..j] + projects[j + 1..]
    ensures UniqueKeys(Delete(projects, projects[j].id), ProjectId)
  {
    RemoveUnique(projects, ProjectId, j);
    RemoveKeepsUnique(projects, ProjectId, projects[j].id);
  }

  /** The fields the search looks in: title, description, tag text. */
  function SearchFields(p: Project): (r: seq<string>)
    ensures |r| == 3
  {
    [p.title, p.description, TagText(p.tags)]
  }

  /** The filter condition of `filteredProjects`. */
  predicate Found(p: Project, term: string) {
    || Contains(Lower(p.title), Lower(term))
    || Contains(Lower(p.description), Lower(term))
    || Contains(Lower(TagText(p.tags)), Lower(term))
  }

  lemma FoundIff(p: Project, term: string)
    ensures Found(p, term) <==> Search.AnyIncludes(SearchFields(p), term)
  {
    var fs := SearchFields(p);
    assert fs[0] == p.title && fs[1] == p.description && fs[2] == TagText(p.tags);
  }

  /** `filteredProjects`: the projects found, in list order. */
  function SearchProjects(projects: seq<Project>, term: string): (r: seq<Project>)
    ensures IsSubsequence(r, projects)
    ensures forall p :: p in r <==> p in projects && Found(p, term)
  {
    forall p ensures Found(p, term) <==> Search.AnyIncludes(SearchFields(p), term) {
      FoundIff(p, term);
    }
    Search.Search(projects, SearchFields, term)
  }

  /** An empty search lists every project, and a longer term finds a
      subsequence of what a term it includes finds. */
  lemma SearchProperties(projects: seq<Project>, shorter: string, longer: string)
    requires Contains(longer, shorter)
    ensures SearchProjects(projects, "") == projects
    ensures IsSubsequence(SearchProjects(projects, longer), SearchProjects(projects, shorter))
  {
    Search.SearchEmptyTerm(projects, SearchFields);
    Search.SearchNarrows(projects, SearchFields, shorter, longer);
  }
}
