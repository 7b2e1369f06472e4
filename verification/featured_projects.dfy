/** The home page's featured section: the first three projects of the listing (seeding an
    empty store first), or three placeholders when a request fails. */
module FeaturedProjects {
  import opened ProjectsApi
  import opened ProjectsClient
  import ProjectsPage

  /** How many projects the section shows at most. */
  const FeaturedCount := 3

  /** `ps.slice(0, 3)`: the leading projects, at most three of them. */
  function Featured(ps: seq<Project>): (r: seq<Project>)
    ensures r <= ps
    ensures |r| <= FeaturedCount
    ensures |ps| >= FeaturedCount ==> |r| == FeaturedCount
    ensures |ps| < FeaturedCount ==> r == ps
  {
    if |ps| < FeaturedCount then ps else ps[..FeaturedCount]
  }

  // The placeholders shown when the projects cannot be loaded.
  const Placeholder1 := Project(1, "Project One",
    "A modern web application with clean design principles.", "Web Design", "", [])
  const Placeholder2 := Project(2, "Project Two",
    "Corporate identity design for a tech startup.", "Branding", "", [])
  const Placeholder3 := Project(3, "Project Three",
    "User experience redesign for a mobile application.", "UI/UX", "", [])

  /** Three placeholders with ids 1 to 3, no image and no tags. */
  function Placeholders(): (r: seq<Project>)
    ensures |r| == FeaturedCount
    ensures forall i | 0 <= i < |r| :: r[i].id == i + 1 && r[i].imageUrl == [] && r[i].tags == []
  {
    [Placeholder1, Placeholder2, Placeholder3]
  }

  /** Loading the section: the first three listed projects, or the first three of the
      seeding reply when the listing is empty; three placeholders with ids 1 to 3, no
      image and no tags when either request fails. */
  function LoadFeatured(listed: Fetch<seq<Project>>, initialized: Fetch<seq<Project>>)
    : (r: seq<Project>)
    ensures listed.Fetched? && listed.value != [] ==>
      r <= listed.value && |r| == if |listed.value| < 3 then |listed.value| else 3
    ensures listed == Fetched([]) && initialized.Fetched? ==>
      r <= initialized.value && |r| == if |initialized.value| < 3 then |initialized.value| else 3
    ensures listed.FetchFailed? || (listed == Fetched([]) && initialized.FetchFailed?) ==>
      |r| == 3 && forall i | 0 <= i < 3 :: r[i].id == i + 1 && r[i].imageUrl == [] && r[i].tags == []
  {
    match ListThenInitialize(listed, initialized)
    case Fetched(ps) => Featured(ps)
    case FetchFailed => Placeholders()
  }

  /** Against an empty store the section shows the first three samples, ids 1 to 3. */
  lemma FeaturedFromEmptyStore()
    ensures LoadFeatured(Fetched(ListProjects([]).result.value), Fetched(InitializeProjects([]).result.value))
      == [Sample1, Sample2, Sample3]
  {
    assert SampleProjects()[..3] == [Sample1, Sample2, Sample3];
  }

  /** When the requests succeed, the home page features the first three projects of the
      list the gallery page loads from the same replies. */
  lemma FeaturedAgreesWithGallery(st: ProjectsPage.PageState, listed: Fetch<seq<Project>>,
    initialized: Fetch<seq<Project>>)
    requires ListThenInitialize(listed, initialized).Fetched?
    ensures LoadFeatured(listed, initialized)
      == Featured(ProjectsPage.LoadProjects(st, listed, initialized).projects)
  {
  }
}
