/** The projects gallery page: loading the list (seeding an empty store, falling back to
    built-in samples when a request fails), the category buttons, and filtering. */
module ProjectsPage {
  import opened Seqs
  import opened ProjectsApi
  import opened ProjectsClient

  /** The filter button that shows every project. */
  const AllFilter: string := "All"

  /** The page's list, the shown subset, the active filter and the filter buttons. */
  datatype PageState = PageState(
    projects: seq<Project>, filtered: seq<Project>, activeFilter: string, categories: seq<string>)

  /** Before anything is loaded: no projects, the `All` filter active and its button alone.
      (A constant, so its contents are stated through `LoadFromEmptyStore`.) */
  const InitialState := PageState([], [], AllFilter, [AllFilter])

  /** The samples the page shows when the API cannot be reached; they are the same six
      records the store seeds itself with. */
  function FallbackProjects(): (r: seq<Project>)
    ensures |r| == 6
    ensures forall i | 0 <= i < 6 :: r[i].id == i + 1
    ensures UniqueIds(r)
  {
    SampleIds();
    SampleProjects()
  }

  /** The filter buttons: `All`, then each category once, in order of first appearance. */
  function CategoryButtons(ps: seq<Project>): (r: seq<string>)
    ensures |r| >= 1 && r[0] == AllFilter
    ensures NoDuplicates(r[1..])
    ensures forall c :: c in r[1..] <==> c in CategoriesOf(ps)
    ensures forall i, j | 1 <= i < j < |r| ::
      FirstIndex(CategoriesOf(ps), r[i]) < FirstIndex(CategoriesOf(ps), r[j])
  {
    var u := UniqueCategories(ps);
    assert ([AllFilter] + u)[1..] == u;
    [AllFilter] + u
  }

  /** The fallback samples' categories in list order. */
  lemma FallbackCategories()
    ensures CategoriesOf(FallbackProjects())
      == ["Branding", "Web Design", "Photography", "UI/UX", "Branding", "Print"]
  {
  }

  /** Four different categories, the first repeated, then a fifth: each kept once. */
  lemma DistinctOfSix(b: string, w: string, ph: string, u: string, pr: string)
    requires b != w && b != ph && b != u && b != pr
    requires w != ph && w != u && w != pr && ph != u && ph != pr && u != pr
    ensures Distinct([b, w, ph, u, b, pr]) == [b, w, ph, u, pr]
  {
    DistinctSeenThenNew([b, w, ph, u], b, pr);
    assert [b, w, ph, u, b, pr] == [b, w, ph, u] + [b] + [pr];
  }

  /** The categories of the fallback samples, each once, in order of first appearance. */
  lemma DistinctFallbackCategories()
    ensures Distinct(["Branding", "Web Design", "Photography", "UI/UX", "Branding", "Print"])
      == ["Branding", "Web Design", "Photography", "UI/UX", "Print"]
  {
    assert "UI/UX"[0] != "Print"[0];
    DistinctOfSix("Branding", "Web Design", "Photography", "UI/UX", "Print");
  }

  /** With the fallback samples the buttons read All, Branding, Web Design, Photography,
      UI/UX, Print. */
  lemma FallbackButtons()
    ensures CategoryButtons(FallbackProjects())
      == [AllFilter, "Branding", "Web Design", "Photography", "UI/UX", "Print"]
  {
    FallbackCategories();
    DistinctFallbackCategories();
  }

  /** The projects a filter button shows: everything for `All`, otherwise exactly the
      projects of that category, in list order. */
  function FilterProjects(ps: seq<Project>, category: string): (r: seq<Project>)
    ensures category == AllFilter ==> r == ps
    ensures category != AllFilter ==> forall i | 0 <= i < |r| :: r[i].category == category
    ensures category != AllFilter ==>
      forall p :: multiset(r)[p] == if p.category == category then multiset(ps)[p] else 0
    ensures IsSubsequence(r, ps)
  {
    if category == AllFilter then
      SubsequenceOfItself(ps);
      ps
    else Filter(ps, (p: Project) => p.category == category)
  }

  /** Filtering an already filtered list by the same button changes nothing. */
  lemma FilterIdempotentOnList(ps: seq<Project>, category: string)
    ensures FilterProjects(FilterProjects(ps, category), category) == FilterProjects(ps, category)
  {
    if category != AllFilter {
      FilterIdempotent(ps, (p: Project) => p.category == category);
    }
  }

  /** Clicking a filter button: marks it active and shows its projects, always taken from
      the full list; the list and the buttons stay as they are. */
  function HandleFilterChange(st: PageState, category: string): (r: PageState)
    ensures r.projects == st.projects && r.categories == st.categories
    ensures r.activeFilter == category
    ensures r.filtered == FilterProjects(st.projects, category)
  {
    st.(activeFilter := category, filtered := FilterProjects(st.projects, category))
  }

  /** Clicking the same button twice is clicking it once. */
  lemma HandleFilterChangeIdempotent(st: PageState, category: string)
    ensures HandleFilterChange(HandleFilterChange(st, category), category)
      == HandleFilterChange(st, category)
  {
  }

  /** Loading: the listed projects, or the seeding reply when the list is empty, or the
      fallback samples when either request fails; everything is shown and the buttons are
      rebuilt, while the active filter is left as it was. */
  function LoadProjects(st: PageState, listed: Fetch<seq<Project>>, initialized: Fetch<seq<Project>>)
    : (r: PageState)
    ensures listed.Fetched? && listed.value != [] ==> r.projects == listed.value
    ensures listed == Fetched([]) && initialized.Fetched? ==> r.projects == initialized.value
    ensures listed.FetchFailed? || (listed == Fetched([]) && initialized.FetchFailed?) ==>
      r.projects == FallbackProjects()
    ensures r.filtered == r.projects
    ensures r.categories == CategoryButtons(r.projects)
    ensures r.activeFilter == st.activeFilter
  {
    var ps :=
      match ListThenInitialize(listed, initialized)
      case Fetched(ps) => ps
      case FetchFailed => FallbackProjects();
    st.(projects := ps, filtered := ps, categories := CategoryButtons(ps))
  }

  /** A freshly opened page loading against an empty store shows all six samples, with
      their filter buttons and `All` selected. */
  lemma LoadFromEmptyStore()
    ensures var r := LoadProjects(InitialState, Fetched(ListProjects([]).result.value),
        Fetched(InitializeProjects([]).result.value));
      && r.projects == SampleProjects()
      && r.filtered == SampleProjects()
      && r.activeFilter == AllFilter
      && r.categories == [AllFilter, "Branding", "Web Design", "Photography", "UI/UX", "Print"]
  {
    FallbackButtons();
  }
}
