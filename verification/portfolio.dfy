/**
  The portfolio section's category filter over its fixed project list.
 */
module Portfolio {
  import opened Seqs

  datatype Showcase = Showcase(id: int, title: string, category: string)

  /** The six projects the section lists, with their categories. */
  const Showcases: seq<Showcase> := [
    Showcase(1, "E-commerce Platform", "web"),
    Showcase(2, "Mobile Banking App", "mobile"),
    Showcase(3, "AI Dashboard", "web"),
    Showcase(4, "Social Media App", "mobile"),
    Showcase(5, "Portfolio Website", "design"),
    Showcase(6, "Task Management Tool", "web")
  ]

  /** The filter id that shows every project. */
  const All: string := "all"

  function InCategory(category: string): Showcase -> bool {
    (p: Showcase) => p.category == category
  }

  /** `filteredProjects`: every project under `'all'`, otherwise the
      projects whose category is the active filter, in list order. */
  function FilterProjects(projects: seq<Showcase>, active: string): (r: seq<Showcase>)
    ensures IsSubsequence(r, projects)
    ensures active == All ==> r == projects
    ensures active != All ==> forall i :: 0 <= i < |r| ==> r[i].category == active
    ensures active != All ==> forall p :: p in r <==> p in projects && p.category == active
  {
    if active == All then
      SubsequenceRefl(projects);
      projects
    else
      var r := Filter(InCategory(active), projects);
      assert forall i :: 0 <= i < |r| ==> InCategory(active)(r[i]);
      r
  }

  /** A category no project has (a stale or mistyped filter) shows nothing. */
  lemma UnknownCategoryEmpty(projects: seq<Showcase>, active: string)
    requires active != All
    requires forall i :: 0 <= i < |projects| ==> projects[i].category != active
    ensures FilterProjects(projects, active) == []
  {
  }

  /** Choosing each category in turn partitions the list: every project
      appears under exactly its own category. */
  lemma CategoriesPartition(projects: seq<Showcase>, p: Showcase, c: string)
    requires c != All && p in projects
    ensures p in FilterProjects(projects, c) <==> p.category == c
  {
  }

  function Ids(ps: seq<Showcase>): (r: seq<int>)
    ensures |r| == |ps| && forall i :: 0 <= i < |ps| ==> r[i] == ps[i].id
  {
    if |ps| == 0 then [] else [ps[0].id] + Ids(ps[1..])
  }

  /** Under the `'web'` filter the section shows projects 1, 3 and 6. */
  lemma WebProjects(web: string)
    requires web == "web"
    ensures Ids(FilterProjects(Showcases, web)) == [1, 3, 6]
  {
  }

  /** Under the `'mobile'` filter it shows projects 2 and 4. */
  lemma MobileProjects(mobile: string)
    requires mobile == "mobile"
    ensures Ids(FilterProjects(Showcases, mobile)) == [2, 4]
  {
    var s := Showcases;
    var keep := InCategory(mobile);
    assert !keep(s[4]) && !keep(s[5]);
    assert Filter(keep, s[4..]) == [] by {
      assert s[4..][1..] == s[5..];
      assert s[5..][1..] == [];
    }
    assert Filter(keep, s[2..]) == [s[3]] by {
      assert s[2..][1..] == s[3..];
      assert s[3..][1..] == s[4..];
    }
    assert Filter(keep, s) == [s[1], s[3]] by {
      assert s[1..][1..] == s[2..];
    }
  }

  /** Under the `'design'` filter it shows project 5. */
  lemma DesignProjects(design: string)
    requires design == "design"
    ensures Ids(FilterProjects(Showcases, design)) == [5]
  {
  }
}
