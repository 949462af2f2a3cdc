/**
 * The people listing (src/app/people/PeopleGrid.tsx): category and role chips
 * drawn from a fixed order, a filter that AND-combines category, tag and a
 * case-insensitive text search, and a "load more" prefix of 24 at a time.
 */
module People {
  import opened Strings
  import Seqs
  import opened Pagination

  /** The fields of a fellow record that the listing reads. */
  datatype Fellow = Fellow(
    id: string,
    name: string,
    position: Option<string>,
    academicUnit: Option<string>,
    category: Option<string>,
    tags: Option<seq<string>>)

  /** The category chips, in display order. */
  const CATEGORIES: seq<string> :=
    ["fellows", "community-fellows", "early-career-fellows", "faculty-fellows", "pilot", "veterans"]

  /** The role chips, in display order. */
  const TAGS: seq<string> :=
    ["staff", "leadership", "technical-experts", "students", "board-of-advisors", "affiliates",
     "past-community-members"]

  const PAGE_SIZE: nat := 24

  // ---------------------------------------------------------------- available chips

  /** Categories that occur in some fellow (`new Set(fellows.map(f => f.category).filter(Boolean))`). */
  function PresentCategories(fellows: seq<Fellow>): set<string>
  {
    set f | f in fellows && f.category.Some? && f.category.value != "" :: f.category.value
  }

  /** The tags of one fellow, an absent list counting as empty (`f.tags || []`). */
  function TagsOf(f: Fellow): seq<string>
  {
    if f.tags.Some? then f.tags.value else []
  }

  /** `fellows.flatMap(f => f.tags || [])`. */
  function AllTags(fellows: seq<Fellow>): seq<string>
  {
    if fellows == [] then [] else TagsOf(fellows[0]) + AllTags(fellows[1..])
  }

  /** `categories.filter(c => cats.has(c))`. */
  function AvailableCategories(fellows: seq<Fellow>): (r: seq<string>)
    ensures |r| <= |CATEGORIES|
    ensures forall i :: 0 <= i < |r| ==> r[i] in PresentCategories(fellows)
  {
    Seqs.Filter(CATEGORIES, Seqs.InSet(PresentCategories(fellows)))
  }

  /** `tags.filter(t => allTags.has(t))`. */
  function AvailableTags(fellows: seq<Fellow>): (r: seq<string>)
    ensures |r| <= |TAGS|
    ensures forall i :: 0 <= i < |r| ==> r[i] in AllTags(fellows)
  {
    Seqs.Filter(TAGS, Seqs.InSeq(AllTags(fellows)))
  }

  /** A tag occurs in the flattened tag list exactly when some fellow carries it. */
  lemma {:induction false} AllTagsMember(fellows: seq<Fellow>, t: string)
    ensures t in AllTags(fellows) <==> exists f :: f in fellows && f.tags.Some? && t in f.tags.value
  {
    if fellows != [] {
      AllTagsMember(fellows[1..], t);
      assert fellows == [fellows[0]] + fellows[1..];
      if exists f :: f in fellows && f.tags.Some? && t in f.tags.value {
        var f :| f in fellows && f.tags.Some? && t in f.tags.value;
        if f != fellows[0] {
          assert f in fellows[1..];
        }
      }
    }
  }

  /**
   * The category chips: the fixed order restricted to the categories some fellow
   * has, each once.
   */
  lemma AvailableCategoriesSpec(fellows: seq<Fellow>)
    ensures Seqs.IsSubseq(AvailableCategories(fellows), CATEGORIES)
    ensures Seqs.NoDup(AvailableCategories(fellows))
    ensures forall c :: c in AvailableCategories(fellows) <==>
      c in CATEGORIES && exists f :: f in fellows && f.category == Some(c)
  {
    var present := Seqs.InSet(PresentCategories(fellows));
    Seqs.FilterIsSubseq(CATEGORIES, present);
    assert Seqs.NoDup(AvailableCategories(fellows)) by {
      OrdersDistinct();
      Seqs.FilterNoDup(CATEGORIES, present);
    }
    forall c ensures c in AvailableCategories(fellows) <==>
      c in CATEGORIES && exists f :: f in fellows && f.category == Some(c)
    {
      Seqs.FilterMember(CATEGORIES, present, c);
      if c in CATEGORIES {
        CategoryNonEmpty(c);
        PresentCategoriesIff(fellows, c);
      }
    }
  }

  /** A non-empty category is present exactly when some fellow has it. */
  lemma PresentCategoriesIff(fellows: seq<Fellow>, c: string)
    requires c != ""
    ensures c in PresentCategories(fellows) <==> exists f :: f in fellows && f.category == Some(c)
  {
    if exists f :: f in fellows && f.category == Some(c) {
      var f :| f in fellows && f.category == Some(c);
    }
  }

  /** The role chips: the fixed order restricted to the tags some fellow carries, each once. */
  lemma AvailableTagsSpec(fellows: seq<Fellow>)
    ensures Seqs.IsSubseq(AvailableTags(fellows), TAGS)
    ensures Seqs.NoDup(AvailableTags(fellows))
    ensures forall t :: t in AvailableTags(fellows) <==>
      t in TAGS && exists f :: f in fellows && f.tags.Some? && t in f.tags.value
  {
    var present := Seqs.InSeq(AllTags(fellows));
    Seqs.FilterIsSubseq(TAGS, present);
    assert Seqs.NoDup(AvailableTags(fellows)) by {
      OrdersDistinct();
      Seqs.FilterNoDup(TAGS, present);
    }
    forall t ensures t in AvailableTags(fellows) <==>
      t in TAGS && exists f :: f in fellows && f.tags.Some? && t in f.tags.value
    {
      Seqs.FilterMember(TAGS, present, t);
      AllTagsMember(fellows, t);
    }
  }

  /** No category chip is the empty string. */
  lemma CategoryNonEmpty(c: string)
    requires c in CATEGORIES
    ensures c != ""
  {
  }

  /** The two display orders list each value once. */
  lemma OrdersDistinct()
    ensures Seqs.NoDup(CATEGORIES) && Seqs.NoDup(TAGS)
  {
  }

  // ---------------------------------------------------------------- filter

  predicate InCategory(f: Fellow, category: Choice)
  {
    category.All? || f.category == Some(category.value)
  }

  /** `fellow.tags?.includes(tag)`: a fellow without a tag list never matches a tag. */
  predicate HasTag(f: Fellow, tag: Choice)
  {
    tag.All? || (f.tags.Some? && tag.value in f.tags.value)
  }

  /** `field?.toLowerCase().includes(q)`: an absent field never matches. */
  predicate FieldMatches(field: Option<string>, q: string)
  {
    field.Some? && Includes(Lower(field.value), q)
  }

  /** The search box: an empty query matches everyone, otherwise name, position or unit must contain it. */
  predicate MatchesSearch(f: Fellow, query: string)
  {
    query == "" ||
    var q := Lower(query);
    Includes(Lower(f.name), q) || FieldMatches(f.position, q) || FieldMatches(f.academicUnit, q)
  }

  predicate Keep(f: Fellow, category: Choice, tag: Choice, query: string)
  {
    InCategory(f, category) && HasTag(f, tag) && MatchesSearch(f, query)
  }

  function KeepFn(category: Choice, tag: Choice, query: string): Fellow -> bool
  {
    f => Keep(f, category, tag, query)
  }

  /** `filteredFellows`. */
  function FilterFellows(fellows: seq<Fellow>, category: Choice, tag: Choice, query: string): (r: seq<Fellow>)
    ensures |r| <= |fellows|
    ensures forall i :: 0 <= i < |r| ==> Keep(r[i], category, tag, query)
  {
    Seqs.Filter(fellows, KeepFn(category, tag, query))
  }

  /**
   * The filtered list is an order-preserving subsequence of the input whose members
   * are exactly the input fellows that pass all three predicates.
   */
  lemma FilterFellowsSpec(fellows: seq<Fellow>, category: Choice, tag: Choice, query: string)
    ensures Seqs.IsSubseq(FilterFellows(fellows, category, tag, query), fellows)
    ensures forall f :: f in FilterFellows(fellows, category, tag, query) <==>
      f in fellows && InCategory(f, category) && HasTag(f, tag) && MatchesSearch(f, query)
  {
    Seqs.FilterIsSubseq(fellows, KeepFn(category, tag, query));
    forall f ensures f in FilterFellows(fellows, category, tag, query) <==>
      f in fellows && InCategory(f, category) && HasTag(f, tag) && MatchesSearch(f, query)
    {
      Seqs.FilterMember(fellows, KeepFn(category, tag, query), f);
    }
  }

  /** Nothing that passes is dropped: such a fellow appears as often as in the input. */
  lemma FilterFellowsComplete(fellows: seq<Fellow>, category: Choice, tag: Choice, query: string, f: Fellow)
    ensures multiset(FilterFellows(fellows, category, tag, query))[f] ==
      if Keep(f, category, tag, query) then multiset(fellows)[f] else 0
  {
    Seqs.FilterCount(fellows, KeepFn(category, tag, query), f);
  }

  /** With a category selected, every listed fellow is in it. */
  lemma FilteredByCategory(fellows: seq<Fellow>, c: string, tag: Choice, query: string)
    ensures forall i :: 0 <= i < |FilterFellows(fellows, Only(c), tag, query)| ==>
      FilterFellows(fellows, Only(c), tag, query)[i].category == Some(c)
  {
    var r := FilterFellows(fellows, Only(c), tag, query);
    assert forall i :: 0 <= i < |r| ==> KeepFn(Only(c), tag, query)(r[i]);
  }

  /** With a tag selected, every listed fellow carries it; so a fellow without tags is never listed. */
  lemma FilteredByTag(fellows: seq<Fellow>, category: Choice, t: string, query: string)
    ensures forall i :: 0 <= i < |FilterFellows(fellows, category, Only(t), query)| ==>
      var f := FilterFellows(fellows, category, Only(t), query)[i];
      f.tags.Some? && t in f.tags.value
  {
    var r := FilterFellows(fellows, category, Only(t), query);
    assert forall i :: 0 <= i < |r| ==> KeepFn(category, Only(t), query)(r[i]);
  }

  /** The fields the search box looks at; absent optional fields contribute nothing. */
  function SearchFields(f: Fellow): seq<string>
  {
    [f.name]
    + (if f.position.Some? then [f.position.value] else [])
    + (if f.academicUnit.Some? then [f.academicUnit.value] else [])
  }

  /**
   * A non-empty query matches exactly when, ignoring ASCII case, it occurs at some
   * position of some present search field.
   */
  lemma MatchesSearchIff(f: Fellow, query: string)
    requires query != ""
    ensures MatchesSearch(f, query) <==>
      exists field :: field in SearchFields(f) && exists i :: OccursAt(Lower(field), Lower(query), i)
  {
    var q := Lower(query);
    IncludesIff(Lower(f.name), q);
    if f.position.Some? { IncludesIff(Lower(f.position.value), q); }
    if f.academicUnit.Some? { IncludesIff(Lower(f.academicUnit.value), q); }
    var fields := SearchFields(f);
    if exists field :: field in fields && exists i :: OccursAt(Lower(field), q, i) {
      var field :| field in fields && exists i :: OccursAt(Lower(field), q, i);
      assert field == f.name || (f.position.Some? && field == f.position.value) ||
        (f.academicUnit.Some? && field == f.academicUnit.value);
    }
    if MatchesSearch(f, query) {
      assert f.name in fields;
      if f.position.Some? { assert f.position.value in fields; }
      if f.academicUnit.Some? { assert f.academicUnit.value in fields; }
    }
  }

  /** The search ignores ASCII case: a query and its lowercase form keep the same fellows. */
  lemma SearchIgnoresCase(f: Fellow, query: string)
    ensures MatchesSearch(f, query) <==> MatchesSearch(f, Lower(query))
  {
    LowerIdempotent(query);
  }

  /** With no category, no tag and no query, the filtered list is the input. */
  lemma NoFiltersKeepAll(fellows: seq<Fellow>)
    ensures FilterFellows(fellows, All, All, "") == fellows
  {
    Seqs.FilterAll(fellows, KeepFn(All, All, ""));
  }

  /** Filtering the filtered list again with the same selection changes nothing. */
  lemma FilterFellowsIdempotent(fellows: seq<Fellow>, category: Choice, tag: Choice, query: string)
    ensures FilterFellows(FilterFellows(fellows, category, tag, query), category, tag, query) ==
      FilterFellows(fellows, category, tag, query)
  {
    Seqs.FilterIdempotent(fellows, KeepFn(category, tag, query));
  }

  // ---------------------------------------------------------------- component state

  /** The component's state: the fellows it was given and its four `useState` slots. */
  class PeopleGrid {
    var fellows: seq<Fellow>
    var selectedCategory: Choice
    var selectedTag: Choice
    var searchQuery: string
    var visibleCount: nat
    /** The presses of "load more" since the count was last reset. */
    ghost var loads: nat

    /** The count is the page size plus one page for every "load more" since the last reset. */
    ghost predicate Valid()
      reads this
    {
      IsPageCount(visibleCount, PAGE_SIZE) && visibleCount == CountAfter(PAGE_SIZE, loads)
    }

    constructor (fellows: seq<Fellow>)
      ensures Valid()
      ensures this.fellows == fellows && selectedCategory == All && selectedTag == All
      ensures searchQuery == "" && visibleCount == PAGE_SIZE && loads == 0
    {
      this.fellows := fellows;
      selectedCategory, selectedTag, searchQuery := All, All, "";
      visibleCount, loads := PAGE_SIZE, 0;
    }

    function Filtered(): seq<Fellow>
      reads this
    {
      FilterFellows(fellows, selectedCategory, selectedTag, searchQuery)
    }

    /** `visibleFellows`: what the grid shows. */
    function Shown(): (r: seq<Fellow>)
      reads this
      ensures r <= Filtered()
      ensures |r| == Min(visibleCount, |Filtered()|)
      ensures Valid() ==> (r == [] <==> Filtered() == [])
    {
      NonEmptyShowsSome(Filtered(), visibleCount, PAGE_SIZE);
      Visible(Filtered(), visibleCount)
    }

    /** `hasMore`: whether "Load more" is offered. */
    predicate More()
      reads this
      ensures More() <==> Shown() != Filtered()
      ensures Valid() ==> (More() <==> (loads + 1) * PAGE_SIZE < |Filtered()|)
    {
      LoadsFromReset(Filtered(), PAGE_SIZE, loads);
      HasMore(Filtered(), visibleCount)
    }

    /** The "(N remaining)" label: the number of hidden fellows when "Load more" is offered. */
    function Left(): (n: int)
      reads this
      ensures More() ==> n > 0 && n == |Filtered()| - |Shown()|
    {
      Remaining(Filtered(), visibleCount)
    }

    /** `availableCategories`: the chips offered, each a listed category of some current fellow, once. */
    function CategoryChips(): (r: seq<string>)
      reads this
      ensures Seqs.NoDup(r)
      ensures forall c :: c in r <==> c in CATEGORIES && exists f :: f in fellows && f.category == Some(c)
    {
      AvailableCategoriesSpec(fellows);
      AvailableCategories(fellows)
    }

    /** `availableTags`: the role chips offered, each a listed tag some current fellow carries, once. */
    function TagChips(): (r: seq<string>)
      reads this
      ensures Seqs.NoDup(r)
      ensures forall t :: t in r <==> t in TAGS && exists f :: f in fellows && f.tags.Some? && t in f.tags.value
    {
      AvailableTagsSpec(fellows);
      AvailableTags(fellows)
    }

    /**
     * A category chip. Selecting the chip already selected leaves the state as is;
     * any other choice changes a dependency of the filter, which resets the count.
     */
    method SelectCategory(c: Choice)
      requires Valid()
      modifies this
      ensures Valid()
      ensures selectedCategory == c
      ensures fellows == old(fellows) && selectedTag == old(selectedTag) && searchQuery == old(searchQuery)
      ensures visibleCount == if c == old(selectedCategory) then old(visibleCount) else PAGE_SIZE
      ensures loads == if c == old(selectedCategory) then old(loads) else 0
    {
      if c != selectedCategory {
        selectedCategory := c;
        visibleCount, loads := PAGE_SIZE, 0;
      }
    }

    /** A role chip; resets the count when the selection changes. */
    method SelectTag(t: Choice)
      requires Valid()
      modifies this
      ensures Valid()
      ensures selectedTag == t
      ensures fellows == old(fellows) && selectedCategory == old(selectedCategory) && searchQuery == old(searchQuery)
      ensures visibleCount == if t == old(selectedTag) then old(visibleCount) else PAGE_SIZE
      ensures loads == if t == old(selectedTag) then old(loads) else 0
    {
      if t != selectedTag {
        selectedTag := t;
        visibleCount, loads := PAGE_SIZE, 0;
      }
    }

    /** The search box's `onChange`; resets the count when the text changes. */
    method SetSearchQuery(q: string)
      requires Valid()
      modifies this
      ensures Valid()
      ensures searchQuery == q
      ensures fellows == old(fellows) && selectedCategory == old(selectedCategory) && selectedTag == old(selectedTag)
      ensures visibleCount == if q == old(searchQuery) then old(visibleCount) else PAGE_SIZE
      ensures loads == if q == old(searchQuery) then old(loads) else 0
    {
      if q != searchQuery {
        searchQuery := q;
        visibleCount, loads := PAGE_SIZE, 0;
      }
    }

    /** "Clear all filters": all three filters back to their defaults in one update. */
    method ClearFilters()
      requires Valid()
      modifies this
      ensures Valid()
      ensures selectedCategory == All && selectedTag == All && searchQuery == ""
      ensures fellows == old(fellows)
      ensures visibleCount ==
        if old(selectedCategory) == All && old(selectedTag) == All && old(searchQuery) == ""
        then old(visibleCount) else PAGE_SIZE
      ensures loads ==
        if old(selectedCategory) == All && old(selectedTag) == All && old(searchQuery) == ""
        then old(loads) else 0
      ensures Filtered() == fellows
    {
      if selectedCategory != All || selectedTag != All || searchQuery != "" {
        selectedCategory, selectedTag, searchQuery := All, All, "";
        visibleCount, loads := PAGE_SIZE, 0;
      }
      NoFiltersKeepAll(fellows);
    }

    /** New `fellows` props: a new array is a changed dependency, so the count resets. */
    method SetFellows(fs: seq<Fellow>)
      requires Valid()
      modifies this
      ensures Valid()
      ensures fellows == fs && visibleCount == PAGE_SIZE && loads == 0
      ensures selectedCategory == old(selectedCategory) && selectedTag == old(selectedTag)
      ensures searchQuery == old(searchQuery)
    {
      fellows := fs;
      visibleCount, loads := PAGE_SIZE, 0;
    }

    /**
     * "Load more": one more page. The filtered list is untouched and the old visible
     * prefix stays a prefix of the new one.
     */
    method LoadMore()
      requires Valid()
      modifies this
      ensures Valid()
      ensures visibleCount == old(visibleCount) + PAGE_SIZE && loads == old(loads) + 1
      ensures fellows == old(fellows) && selectedCategory == old(selectedCategory)
      ensures selectedTag == old(selectedTag) && searchQuery == old(searchQuery)
      ensures Filtered() == old(Filtered())
      ensures old(Shown()) <= Shown()
      ensures |Shown()| == Min(|old(Shown())| + PAGE_SIZE, |Filtered()|)
    {
      LoadMoreExtends(Filtered(), visibleCount, PAGE_SIZE);
      visibleCount, loads := visibleCount + PAGE_SIZE, loads + 1;
    }
  }
}
