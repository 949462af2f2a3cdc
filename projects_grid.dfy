/**
 * The projects listing (src/app/projects/ProjectsGrid.tsx): category chips drawn
 * from a fixed order, a single category filter and a "load more" prefix of 12.
 */
module Projects {
  import opened Strings
  import Seqs
  import opened Pagination

  /** The fields of a project record that the listing reads. */
  datatype Project = Project(id: string, title: string, projectCategory: Option<string>)

  /** The category chips, in display order. */
  const CATEGORIES: seq<string> :=
    ["community-partnerships", "fellow-led", "outreach-education", "core-programs"]

  const PAGE_SIZE: nat := 12

  /** Categories that occur in some project (`.map(p => p.projectCategory).filter(Boolean)`). */
  function PresentCategories(projects: seq<Project>): set<string>
  {
    set p | p in projects && p.projectCategory.Some? && p.projectCategory.value != "" :: p.projectCategory.value
  }

  /** `categories.filter(c => cats.has(c))`. */
  function AvailableCategories(projects: seq<Project>): (r: seq<string>)
    ensures |r| <= |CATEGORIES|
    ensures forall i :: 0 <= i < |r| ==> r[i] in PresentCategories(projects)
  {
    Seqs.Filter(CATEGORIES, Seqs.InSet(PresentCategories(projects)))
  }

  /** The category chips: the fixed order restricted to categories some project has, each once. */
  lemma AvailableCategoriesSpec(projects: seq<Project>)
    ensures Seqs.IsSubseq(AvailableCategories(projects), CATEGORIES)
    ensures Seqs.NoDup(AvailableCategories(projects))
    ensures forall c :: c in AvailableCategories(projects) <==>
      c in CATEGORIES && exists p :: p in projects && p.projectCategory == Some(c)
  {
    var present := Seqs.InSet(PresentCategories(projects));
    Seqs.FilterIsSubseq(CATEGORIES, present);
    assert Seqs.NoDup(AvailableCategories(projects)) by {
      CategoriesDistinct();
      Seqs.FilterNoDup(CATEGORIES, present);
    }
    forall c ensures c in AvailableCategories(projects) <==>
      c in CATEGORIES && exists p :: p in projects && p.projectCategory == Some(c)
    {
      Seqs.FilterMember(CATEGORIES, present, c);
      if c in CATEGORIES {
        CategoryNonEmpty(c);
        PresentCategoriesIff(projects, c);
      }
    }
  }

  /** No category chip is the empty string. */
  lemma CategoryNonEmpty(c: string)
    requires c in CATEGORIES
    ensures c != ""
  {
  }

  /** A non-empty category is present exactly when some project has it. */
  lemma PresentCategoriesIff(projects: seq<Project>, c: string)
    requires c != ""
    ensures c in PresentCategories(projects) <==> exists p :: p in projects && p.projectCategory == Some(c)
  {
    if exists p :: p in projects && p.projectCategory == Some(c) {
      var p :| p in projects && p.projectCategory == Some(c);
    }
  }

  /** The display order lists each category once. */
  lemma CategoriesDistinct()
    ensures Seqs.NoDup(CATEGORIES)
  {
  }

  function InCategoryFn(c: string): Project -> bool
  {
    (p: Project) => p.projectCategory == Some(c)
  }

  /** `filteredProjects`: the input itself for "All", else the projects in the chosen category. */
  function FilterProjects(projects: seq<Project>, category: Choice): (r: seq<Project>)
    ensures |r| <= |projects|
    ensures category.Only? ==> forall i :: 0 <= i < |r| ==> r[i].projectCategory == Some(category.value)
  {
    if category.All? then projects else Seqs.Filter(projects, InCategoryFn(category.value))
  }

  /** With "All" chosen the filtered list is the input, unchanged and in order. */
  lemma FilterProjectsAll(projects: seq<Project>)
    ensures FilterProjects(projects, All) == projects
  {
  }

  /**
   * With a category chosen, the result is an order-preserving subsequence of the
   * input in which every project is in that category, and every project of that
   * category appears as often as in the input.
   */
  lemma FilterProjectsSpec(projects: seq<Project>, c: string)
    ensures Seqs.IsSubseq(FilterProjects(projects, Only(c)), projects)
    ensures forall i :: 0 <= i < |FilterProjects(projects, Only(c))| ==>
      FilterProjects(projects, Only(c))[i].projectCategory == Some(c)
    ensures forall p: Project :: p.projectCategory == Some(c) ==>
      multiset(FilterProjects(projects, Only(c)))[p] == multiset(projects)[p]
    ensures forall p :: p in FilterProjects(projects, Only(c)) <==> p in projects && p.projectCategory == Some(c)
  {
    var r := FilterProjects(projects, Only(c));
    Seqs.FilterIsSubseq(projects, InCategoryFn(c));
    assert forall i :: 0 <= i < |r| ==> InCategoryFn(c)(r[i]);
    forall p: Project ensures (p.projectCategory == Some(c) ==> multiset(r)[p] == multiset(projects)[p])
      && (p in r <==> p in projects && p.projectCategory == Some(c))
    {
      Seqs.FilterCount(projects, InCategoryFn(c), p);
      Seqs.FilterMember(projects, InCategoryFn(c), p);
    }
  }

  /** Filtering the filtered list again with the same selection changes nothing. */
  lemma FilterProjectsIdempotent(projects: seq<Project>, category: Choice)
    ensures FilterProjects(FilterProjects(projects, category), category) == FilterProjects(projects, category)
  {
    if category.Only? {
      Seqs.FilterIdempotent(projects, InCategoryFn(category.value));
    }
  }

  /** The component's state: the projects it was given and its two `useState` slots. */
  class ProjectsGrid {
    var projects: seq<Project>
    var selectedCategory: Choice
    var visibleCount: nat
    /** The presses of "load more" since the count was last reset. */
    ghost var loads: nat

    /** The count is the page size plus one page for every "load more" since the last reset. */
    ghost predicate Valid()
      reads this
    {
      IsPageCount(visibleCount, PAGE_SIZE) && visibleCount == CountAfter(PAGE_SIZE, loads)
    }

    constructor (projects: seq<Project>)
      ensures Valid()
      ensures this.projects == projects && selectedCategory == All && visibleCount == PAGE_SIZE
      ensures loads == 0
    {
      this.projects := projects;
      selectedCategory := All;
      visibleCount, loads := PAGE_SIZE, 0;
    }

    function Filtered(): seq<Project>
      reads this
    {
      FilterProjects(projects, selectedCategory)
    }

    /** `visibleProjects`: what the grid shows. */
    function Shown(): (r: seq<Project>)
      reads this
      ensures r <= Filtered()
      ensures |r| == Min(visibleCount, |Filtered()|)
      ensures Valid() ==> (r == [] <==> Filtered() == [])
    {
      NonEmptyShowsSome(Filtered(), visibleCount, PAGE_SIZE);
      Visible(Filtered(), visibleCount)
    }

    /** `hasMore`: whether "Load more" is offered. */
    predicate More()
      reads this
      ensures More() <==> Shown() != Filtered()
      ensures Valid() ==> (More() <==> (loads + 1) * PAGE_SIZE < |Filtered()|)
    {
      LoadsFromReset(Filtered(), PAGE_SIZE, loads);
      HasMore(Filtered(), visibleCount)
    }

    /** The "(N remaining)" label: the number of hidden projects when "Load more" is offered. */
    function Left(): (n: int)
      reads this
      ensures More() ==> n > 0 && n == |Filtered()| - |Shown()|
    {
      Remaining(Filtered(), visibleCount)
    }

    /** `availableCategories`: the chips offered, each a listed category of some current project, once. */
    function CategoryChips(): (r: seq<string>)
      reads this
      ensures Seqs.NoDup(r)
      ensures forall c :: c in r <==> c in CATEGORIES && exists p :: p in projects && p.projectCategory == Some(c)
    {
      AvailableCategoriesSpec(projects);
      AvailableCategories(projects)
    }

    /** A category chip (also "Show all projects"); a changed selection resets the count. */
    method SelectCategory(c: Choice)
      requires Valid()
      modifies this
      ensures Valid()
      ensures selectedCategory == c && projects == old(projects)
      ensures visibleCount == if c == old(selectedCategory) then old(visibleCount) else PAGE_SIZE
      ensures loads == if c == old(selectedCategory) then old(loads) else 0
    {
      if c != selectedCategory {
        selectedCategory := c;
        visibleCount, loads := PAGE_SIZE, 0;
      }
    }

    /** New `projects` props: a new array is a changed dependency, so the count resets. */
    method SetProjects(ps: seq<Project>)
      requires Valid()
      modifies this
      ensures Valid()
      ensures projects == ps && selectedCategory == old(selectedCategory) && visibleCount == PAGE_SIZE
      ensures loads == 0
    {
      projects := ps;
      visibleCount, loads := PAGE_SIZE, 0;
    }

    /** "Load more": one more page, appended after what is already shown. */
    method LoadMore()
      requires Valid()
      modifies this
      ensures Valid()
      ensures visibleCount == old(visibleCount) + PAGE_SIZE && loads == old(loads) + 1
      ensures projects == old(projects) && selectedCategory == old(selectedCategory)
      ensures old(Shown()) <= Shown()
      ensures |Shown()| == Min(|old(Shown())| + PAGE_SIZE, |Filtered()|)
    {
      LoadMoreExtends(Filtered(), visibleCount, PAGE_SIZE);
      visibleCount, loads := visibleCount + PAGE_SIZE, loads + 1;
    }
  }
}
