/** What the pages share when they read the projects API: the outcome of a request,
    the "list, and seed when empty" sequence, and the distinct categories of a list. */
module ProjectsClient {
  import opened Seqs
  import opened ProjectsApi

  /** A request's outcome as the page sees it: the decoded reply, or a thrown error. */
  datatype Fetch<T> = Fetched(value: T) | FetchFailed

  /** Lists the projects and, when the list is empty, asks the store to seed itself and
      uses that reply instead; either request failing fails the whole sequence.
      `initialized` is consulted only when the listing came back empty. */
  function ListThenInitialize(listed: Fetch<seq<Project>>, initialized: Fetch<seq<Project>>)
    : (r: Fetch<seq<Project>>)
    ensures listed.FetchFailed? ==> r.FetchFailed?
    ensures listed.Fetched? && listed.value != [] ==> r == listed
    ensures listed == Fetched([]) ==> r == initialized
  {
    match listed
    case FetchFailed => FetchFailed
    case Fetched(ps) => if ps == [] then initialized else listed
  }

  /** When both requests reach the same store, the page ends up with exactly the list the
      store holds after seeding: the six samples for an empty store, the store otherwise. */
  lemma ListThenInitializeSeesSeededStore(s: Store)
    ensures ListThenInitialize(Fetched(ListProjects(s).result.value), Fetched(InitializeProjects(s).result.value))
      == Fetched(InitializeProjects(s).store)
  {
  }

  /** Each project's category, in list order. */
  function CategoriesOf(ps: seq<Project>): (cs: seq<string>)
    ensures |cs| == |ps|
    ensures forall i | 0 <= i < |ps| :: cs[i] == ps[i].category
  {
    seq(|ps|, i requires 0 <= i < |ps| => ps[i].category)
  }

  /** The distinct categories in order of first appearance
      (`Array.from(new Set(projects.map(p => p.category)))`). */
  function UniqueCategories(ps: seq<Project>): (r: seq<string>)
    ensures NoDuplicates(r)
    ensures forall c :: c in r <==> c in CategoriesOf(ps)
    ensures forall i, j | 0 <= i < j < |r| ::
      FirstIndex(CategoriesOf(ps), r[i]) < FirstIndex(CategoriesOf(ps), r[j])
  {
    var cs := CategoriesOf(ps);
    assert forall c :: c in cs <==> exists i | 0 <= i < |ps| :: ps[i].category == c by {
      forall c | c in cs
        ensures exists i | 0 <= i < |ps| :: ps[i].category == c
      {
        var i :| 0 <= i < |cs| && cs[i] == c;
        assert ps[i].category == c;
      }
    }
    Distinct(cs)
  }
}
