/** The backend projects store: a list of project records persisted under one storage key,
    with list, get, create, partial update, delete and seed-if-empty operations.
    The persisted list is modelled as a value; every operation that writes returns the
    new list together with its reply. */
module ProjectsApi {
  import opened Wrappers
  import opened Seqs

  /** The storage key under which the list is persisted. */
  const ProjectsStorageKey: string := "portfolio_projects"

  /** The characters a storage key may keep: ASCII letters and digits, `.`, `_` and `-`. */
  predicate IsKeyChar(c: char) {
    || 'a' <= c <= 'z'
    || 'A' <= c <= 'Z'
    || '0' <= c <= '9'
    || c == '.' || c == '_' || c == '-'
  }

  /** Removes every character that may not appear in a storage key. */
  function SanitizeStorageKey(key: string): (r: string)
    ensures forall i | 0 <= i < |r| :: IsKeyChar(r[i])
    ensures forall c :: multiset(r)[c] == if IsKeyChar(c) then multiset(key)[c] else 0
    ensures IsSubsequence(r, key)
  {
    Filter(key, IsKeyChar)
  }

  /** A key made only of allowed characters passes through unchanged. */
  lemma SanitizeKeepsCleanKey(key: string)
    requires forall i | 0 <= i < |key| :: IsKeyChar(key[i])
    ensures SanitizeStorageKey(key) == key
  {
    FilterKeepsAll(key, IsKeyChar);
  }

  /** Sanitizing is idempotent. */
  lemma SanitizeIdempotent(key: string)
    ensures SanitizeStorageKey(SanitizeStorageKey(key)) == SanitizeStorageKey(key)
  {
    SanitizeKeepsCleanKey(SanitizeStorageKey(key));
  }

  /** The projects key is already clean, so the list is stored under that exact name. */
  lemma StorageKeyIsClean()
    ensures SanitizeStorageKey(ProjectsStorageKey) == ProjectsStorageKey
  {
    assert |ProjectsStorageKey| == 18;
    SanitizeKeepsCleanKey(ProjectsStorageKey);
  }

  /** The fields a client supplies when creating a project. */
  datatype ProjectCreate = ProjectCreate(
    title: string, description: string, category: string, imageUrl: string, tags: seq<string>)

  /** A partial patch: `None` stands for a field that is absent or `null`. */
  datatype ProjectUpdate = ProjectUpdate(
    title: Option<string>, description: Option<string>, category: Option<string>,
    imageUrl: Option<string>, tags: Option<seq<string>>)

  /** A stored project record. */
  datatype Project = Project(
    id: int, title: string, description: string, category: string, imageUrl: string,
    tags: seq<string>)

  /** The persisted list; a missing storage entry reads as the empty list. */
  type Store = seq<Project>

  datatype StoreError = NotFound

  /** The list after an operation, and what the operation answered. */
  datatype Reply<T> = Reply(store: Store, result: Result<T, StoreError>)

  /** No two records share an id. */
  ghost predicate UniqueIds(s: Store) {
    forall i, j | 0 <= i < j < |s| :: s[i].id != s[j].id
  }

  /** Some record has id `id`. */
  ghost predicate HasId(s: Store, id: int) {
    exists i | 0 <= i < |s| :: s[i].id == id
  }

  /** `i` is the position of the first record with id `id`. */
  ghost predicate FirstWithId(s: Store, id: int, i: int) {
    0 <= i < |s| && s[i].id == id && forall j | 0 <= j < i :: s[j].id != id
  }

  /** `p` carries exactly the client-supplied fields of `c`. */
  ghost predicate Carries(p: Project, c: ProjectCreate) {
    p.title == c.title && p.description == c.description && p.category == c.category
    && p.imageUrl == c.imageUrl && p.tags == c.tags
  }

  /** The position of the first record with id `id`, scanning from the front. */
  function IndexOfId(s: Store, id: int): (k: Option<nat>)
    ensures k.None? <==> !HasId(s, id)
    ensures k.Some? ==> FirstWithId(s, id, k.value)
  {
    if s == [] then None
    else if s[0].id == id then Some(0)
    else
      match IndexOfId(s[1..], id)
      case None =>
        assert forall i | 0 < i < |s| :: s[i] == s[1..][i - 1];
        None
      case Some(k) =>
        assert forall j | 0 < j < k + 1 :: s[j] == s[1..][j - 1];
        Some(k + 1)
  }

  /** The records, in stored order. */
  function ListProjects(s: Store): (r: Reply<seq<Project>>)
    ensures r.store == s
    ensures r.result.Success? && |r.result.value| == |s|
    ensures forall i | 0 <= i < |s| :: r.result.value[i] == s[i]
  {
    Reply(s, Success(s))
  }

  /** The first record with the requested id, or not-found. */
  function GetProject(s: Store, id: int): (r: Result<Project, StoreError>)
    ensures r.Failure? <==> !HasId(s, id)
    ensures r.Failure? ==> r.error == NotFound
    ensures r.Success? ==> exists i :: FirstWithId(s, id, i) && r.value == s[i]
  {
    match IndexOfId(s, id)
    case None => Failure(NotFound)
    case Some(i) => Success(s[i])
  }

  /** The largest id in a non-empty list. */
  function MaxId(s: Store): (m: int)
    requires s != []
    ensures forall i | 0 <= i < |s| :: s[i].id <= m
    ensures exists i | 0 <= i < |s| :: s[i].id == m
  {
    if |s| == 1 then s[0].id
    else
      var m := MaxId(s[1..]);
      assert forall i | 1 <= i < |s| :: s[i] == s[1..][i - 1];
      if s[0].id >= m then s[0].id else m
  }

  /** The id a new record receives: one more than the largest, or 1 for an empty list. */
  function NextId(s: Store): (n: int)
    ensures forall i | 0 <= i < |s| :: s[i].id < n
    ensures s == [] ==> n == 1
    ensures s != [] ==> exists i | 0 <= i < |s| :: s[i].id == n - 1
  {
    if s == [] then 1 else MaxId(s) + 1
  }

  /** Appends a record made of the supplied fields and a fresh id, and returns it. */
  function CreateProject(s: Store, c: ProjectCreate): (r: Reply<Project>)
    ensures r.result.Success? && r.store == s + [r.result.value]
    ensures Carries(r.result.value, c)
    ensures forall i | 0 <= i < |s| :: s[i].id < r.result.value.id
    ensures s == [] ==> r.result.value.id == 1
    ensures s != [] ==> exists i | 0 <= i < |s| :: s[i].id == r.result.value.id - 1
  {
    var p := Project(NextId(s), c.title, c.description, c.category, c.imageUrl, c.tags);
    Reply(s + [p], Success(p))
  }

  /** Applies the present, non-null fields of a patch; the id is never touched. */
  function ApplyPatch(p: Project, u: ProjectUpdate): (r: Project)
    ensures r.id == p.id
    ensures u.title.Some? ==> r.title == u.title.value
    ensures u.title.None? ==> r.title == p.title
    ensures u.description.Some? ==> r.description == u.description.value
    ensures u.description.None? ==> r.description == p.description
    ensures u.category.Some? ==> r.category == u.category.value
    ensures u.category.None? ==> r.category == p.category
    ensures u.imageUrl.Some? ==> r.imageUrl == u.imageUrl.value
    ensures u.imageUrl.None? ==> r.imageUrl == p.imageUrl
    ensures u.tags.Some? ==> r.tags == u.tags.value
    ensures u.tags.None? ==> r.tags == p.tags
  {
    p.(title := u.title.GetOr(p.title),
       description := u.description.GetOr(p.description),
       category := u.category.GetOr(p.category),
       imageUrl := u.imageUrl.GetOr(p.imageUrl),
       tags := u.tags.GetOr(p.tags))
  }

  /** Patches the first record with the requested id in place and returns it, or
      answers not-found and leaves the list alone. */
  function UpdateProject(s: Store, id: int, u: ProjectUpdate): (r: Reply<Project>)
    ensures r.result.Failure? <==> !HasId(s, id)
    ensures r.result.Failure? ==> r.result.error == NotFound && r.store == s
    ensures |r.store| == |s|
    ensures forall i | 0 <= i < |s| :: r.store[i].id == s[i].id
    ensures r.result.Success? ==>
      exists i :: FirstWithId(s, id, i)
        && r.store[i] == ApplyPatch(s[i], u) && r.result.value == r.store[i]
        && forall j | 0 <= j < |s| && j != i :: r.store[j] == s[j]
  {
    match IndexOfId(s, id)
    case None => Reply(s, Failure(NotFound))
    case Some(i) =>
      var p := ApplyPatch(s[i], u);
      Reply(s[i := p], Success(p))
  }

  /** Removes the first record with the requested id, or answers not-found and leaves
      the list alone. */
  function DeleteProject(s: Store, id: int): (r: Reply<()>)
    ensures r.result.Failure? <==> !HasId(s, id)
    ensures r.result.Failure? ==> r.result.error == NotFound && r.store == s
    ensures r.result.Success? ==>
      |r.store| == |s| - 1 && exists i :: FirstWithId(s, id, i) && r.store == s[..i] + s[i + 1..]
  {
    match IndexOfId(s, id)
    case None => Reply(s, Failure(NotFound))
    case Some(i) => Reply(s[..i] + s[i + 1..], Success(()))
  }

  // The six sample projects the store is seeded with, one constant per record.
  const Sample1: Project :=
    Project(1, "Minimalist Brand Identity",
        "A clean, modern brand identity for a luxury fashion label featuring custom typography and a refined color palette.",
        "Branding",
        "https://images.unsplash.com/photo-1541185933-ef5d8ed016c2?q=80&w=1170&auto=format&fit=crop",
        ["Brand Identity", "Logo Design", "Typography"])
  const Sample2: Project :=
    Project(2, "E-Commerce Website Design",
        "Responsive e-commerce platform with intuitive navigation and seamless checkout experience.",
        "Web Design",
        "https://images.unsplash.com/photo-1547658719-da2b51169166?q=80&w=1164&auto=format&fit=crop",
        ["UI/UX", "Web Development", "E-commerce"])
  const Sample3: Project :=
    Project(3, "Abstract Photography Series",
        "Collection of abstract architectural photographs exploring light, shadow, and form.",
        "Photography",
        "https://images.unsplash.com/photo-1545178803-4056771d60a3?q=80&w=1170&auto=format&fit=crop",
        ["Photography", "Abstract", "Architecture"])
  const Sample4: Project :=
    Project(4, "Mobile App Interface",
        "Health tracking application with intuitive data visualization and user-friendly interface.",
        "UI/UX",
        "https://images.unsplash.com/photo-1551650975-87deedd944c3?q=80&w=1074&auto=format&fit=crop",
        ["Mobile Design", "UI/UX", "App Development"])
  const Sample5: Project :=
    Project(5, "Packaging Design",
        "Sustainable packaging solution for an organic food brand with distinctive visual language.",
        "Branding",
        "https://images.unsplash.com/photo-1635405446898-da87459d15e3?q=80&w=1025&auto=format&fit=crop",
        ["Packaging", "Sustainable Design", "Branding"])
  const Sample6: Project :=
    Project(6, "Editorial Layout Design",
        "Magazine spread layout with innovative typography and visual hierarchy.",
        "Print",
        "https://images.unsplash.com/photo-1543002588-bfa74002ed7e?q=80&w=1287&auto=format&fit=crop",
        ["Editorial Design", "Typography", "Print"])

  /** The samples in seeding order. */
  function SampleProjects(): (r: seq<Project>)
    ensures |r| == 6
    ensures forall i | 0 <= i < 6 :: r[i].id == i + 1
  {
    [Sample1, Sample2, Sample3, Sample4, Sample5, Sample6]
  }

  /** The samples carry ids 1 to 6 in order, hence pairwise distinct ids. */
  lemma SampleIds()
    ensures |SampleProjects()| == 6
    ensures forall i | 0 <= i < 6 :: SampleProjects()[i].id == i + 1
    ensures UniqueIds(SampleProjects())
  {
  }

  /** Seeds the samples into an empty store and returns them; a non-empty store is
      returned as it is. */
  function InitializeProjects(s: Store): (r: Reply<seq<Project>>)
    ensures r.result.Success?
    ensures r.store == r.result.value
    ensures s == [] ==> r.store == SampleProjects()
    ensures s != [] ==> r.store == s
  {
    if s == [] then Reply(SampleProjects(), Success(SampleProjects()))
    else Reply(s, Success(s))
  }

  // ---- Properties relating several operations ----

  /** Seeding twice is seeding once. */
  lemma InitializeIdempotent(s: Store)
    ensures InitializeProjects(InitializeProjects(s).store) == InitializeProjects(s)
  {
  }

  /** Seeding establishes distinct ids and keeps them. */
  lemma InitializeKeepsUniqueIds(s: Store)
    requires s == [] || UniqueIds(s)
    ensures UniqueIds(InitializeProjects(s).store)
  {
    SampleIds();
  }

  /** A created record's id is fresh, so distinct ids stay distinct. */
  lemma CreateKeepsUniqueIds(s: Store, c: ProjectCreate)
    requires UniqueIds(s)
    ensures UniqueIds(CreateProject(s, c).store)
  {
  }

  /** An update never changes an id, so distinct ids stay distinct. */
  lemma UpdateKeepsUniqueIds(s: Store, id: int, u: ProjectUpdate)
    requires UniqueIds(s)
    ensures UniqueIds(UpdateProject(s, id, u).store)
  {
  }

  /** A deletion only removes a record, so distinct ids stay distinct. */
  lemma DeleteKeepsUniqueIds(s: Store, id: int)
    requires UniqueIds(s)
    ensures UniqueIds(DeleteProject(s, id).store)
  {
    var r := DeleteProject(s, id);
    if r.result.Success? {
      var i :| FirstWithId(s, id, i) && r.store == s[..i] + s[i + 1..];
      forall a, b | 0 <= a < b < |r.store|
        ensures r.store[a].id != r.store[b].id
      {
        var a' := if a < i then a else a + 1;
        var b' := if b < i then b else b + 1;
        assert r.store[a] == s[a'] && r.store[b] == s[b'];
      }
    }
  }

  /** Reading back a created record by its id yields the supplied fields plus that id. */
  lemma CreateThenGet(s: Store, c: ProjectCreate)
    ensures var r := CreateProject(s, c);
      GetProject(r.store, r.result.value.id) == Success(r.result.value)
  {
    var r := CreateProject(s, c);
    var p := r.result.value;
    assert r.store[|s|] == p;
    var g := GetProject(r.store, p.id);
    var i :| FirstWithId(r.store, p.id, i) && g.value == r.store[i];
    assert i == |s|;
  }

  /** Applying the same patch twice is applying it once, to the list and to the reply. */
  lemma UpdateIdempotent(s: Store, id: int, u: ProjectUpdate)
    ensures var r := UpdateProject(s, id, u);
      UpdateProject(r.store, id, u) == r
  {
    var r := UpdateProject(s, id, u);
    var r2 := UpdateProject(r.store, id, u);
    if r.result.Success? {
      var i :| FirstWithId(s, id, i) && r.store[i] == ApplyPatch(s[i], u) && r.result.value == r.store[i]
        && forall j | 0 <= j < |s| && j != i :: r.store[j] == s[j];
      assert FirstWithId(r.store, id, i);
      var i2 :| FirstWithId(r.store, id, i2) && r2.store[i2] == ApplyPatch(r.store[i2], u)
        && r2.result.value == r2.store[i2]
        && forall j | 0 <= j < |r.store| && j != i2 :: r2.store[j] == r.store[j];
      assert i2 == i;
      assert r2.store == r.store;
    }
  }

  /** The patch that sets every field of `p` to the value `p` already has. */
  function OwnFields(p: Project): (u: ProjectUpdate)
    ensures ApplyPatch(p, u) == p
  {
    ProjectUpdate(Some(p.title), Some(p.description), Some(p.category), Some(p.imageUrl),
      Some(p.tags))
  }

  /** With distinct ids, writing a stored record's own fields back leaves the list as it was. */
  lemma UpdateWithOwnFields(s: Store, p: Project)
    requires UniqueIds(s) && p in s
    ensures UpdateProject(s, p.id, OwnFields(p)) == Reply(s, Success(p))
  {
    var k :| 0 <= k < |s| && s[k] == p;
    var r := UpdateProject(s, p.id, OwnFields(p));
    var i :| FirstWithId(s, p.id, i) && r.store[i] == ApplyPatch(s[i], OwnFields(p))
      && r.result.value == r.store[i]
      && forall j | 0 <= j < |s| && j != i :: r.store[j] == s[j];
    assert i == k;
    assert r.store == s;
  }

  /** Once a record is deleted from a list with distinct ids, its id is not found. */
  lemma DeleteThenGet(s: Store, id: int)
    requires UniqueIds(s) && HasId(s, id)
    ensures GetProject(DeleteProject(s, id).store, id) == Failure(NotFound)
  {
    var r := DeleteProject(s, id);
    var i :| FirstWithId(s, id, i) && r.store == s[..i] + s[i + 1..];
    forall k | 0 <= k < |r.store|
      ensures r.store[k].id != id
    {
      if k < i { assert r.store[k] == s[k]; } else { assert r.store[k] == s[k + 1]; }
    }
  }

  /** After seeding, listing answers the six samples for a store that was empty, and the
      store's own records otherwise. */
  lemma InitializeThenList(s: Store)
    ensures ListProjects(InitializeProjects(s).store).result
      == Success(if s == [] then SampleProjects() else s)
  {
  }
}
