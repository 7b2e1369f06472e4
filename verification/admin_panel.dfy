/** The admin page: the add/edit dialog, the comma-separated tag field, the save that
    creates or updates, the id check before a delete, and the category list. */
module AdminPanel {
  import opened Wrappers
  import opened Seqs
  import opened Text
  import opened ProjectsApi
  import opened ProjectsClient

  /** The dialog's project fields; `tags` holds the list the dialog was opened with. */
  datatype ProjectForm = ProjectForm(
    title: string, description: string, category: string, imageUrl: string, tags: seq<string>)

  /** The dialog: whether it edits, the project last chosen for editing, the fields, and
      the free text of the tag input. */
  datatype Dialog = Dialog(editing: bool, selected: Option<Project>, form: ProjectForm, tagsInput: string)

  /** What a save sends to the store, if anything. */
  datatype SaveRequest =
    | Rejected
    | CreateRequest(data: ProjectCreate)
    | UpdateRequest(id: int, patch: ProjectUpdate)

  /** A tag the tag field reproduces faithfully: non-empty, trimmed and comma-free. */
  ghost predicate CleanTag(t: string) {
    t != [] && Trimmed(t) && ',' !in t
  }

  // ---- The tag field ----

  /** No string of `xs` contains `c`. */
  ghost predicate NoneContains(xs: seq<string>, c: char) {
    forall i | 0 <= i < |xs| :: c !in xs[i]
  }

  /** One piece of the tag text as a tag: trimmed, and dropped when nothing is left. */
  function CleanPiece(piece: string): (tags: seq<string>)
    ensures |tags| <= 1
    ensures tags == [] <==> Blank(piece)
    ensures tags != [] ==> PaddedBy(piece, tags[0])
    ensures forall i | 0 <= i < |tags| :: tags[i] != [] && Trimmed(tags[i])
    ensures ',' !in piece ==> NoneContains(tags, ',')
  {
    var t := Trim(piece);
    if t == [] then []
    else
      TrimIsPaddedSlice(piece);
      assert ',' !in piece ==> ',' !in t;
      [t]
  }

  /** Trims each piece and drops the pieces that end up empty. */
  function CleanTags(pieces: seq<string>): (tags: seq<string>)
    ensures forall i | 0 <= i < |tags| :: tags[i] != [] && Trimmed(tags[i])
    ensures NoneContains(pieces, ',') ==> NoneContains(tags, ',')
    ensures |tags| <= |pieces|
  {
    if pieces == [] then []
    else
      assert NoneContains(pieces, ',') ==> ',' !in pieces[0] && NoneContains(pieces[1..], ',') by {
        if NoneContains(pieces, ',') {
          assert forall i | 0 <= i < |pieces| - 1 :: pieces[1..][i] == pieces[i + 1];
        }
      }
      var head, rest := CleanPiece(pieces[0]), CleanTags(pieces[1..]);
      TagListsAppend(head, rest);
      head + rest
  }

  /** Non-empty trimmed tags, and comma-free ones, stay so when two lists are joined. */
  lemma TagListsAppend(h: seq<string>, r: seq<string>)
    requires forall i | 0 <= i < |h| :: h[i] != [] && Trimmed(h[i])
    requires forall i | 0 <= i < |r| :: r[i] != [] && Trimmed(r[i])
    ensures forall i | 0 <= i < |h + r| :: (h + r)[i] != [] && Trimmed((h + r)[i])
    ensures NoneContains(h, ',') && NoneContains(r, ',') ==> NoneContains(h + r, ',')
  {
    assert forall i | 0 <= i < |h + r| :: (h + r)[i] == if i < |h| then h[i] else r[i - |h|];
  }

  lemma {:induction false} CleanTagsAppend(p: seq<string>, q: seq<string>)
    ensures CleanTags(p + q) == CleanTags(p) + CleanTags(q)
  {
    if p == [] {
      assert p + q == q;
    } else {
      var pq := p + q;
      assert pq[1..] == p[1..] + q;
      assert pq[0] == p[0];
      CleanTagsAppend(p[1..], q);
      calc {
        CleanTags(pq);
        CleanPiece(p[0]) + CleanTags(p[1..] + q);
        CleanPiece(p[0]) + (CleanTags(p[1..]) + CleanTags(q));
        (CleanPiece(p[0]) + CleanTags(p[1..])) + CleanTags(q);
      }
    }
  }

  /** The tag field's text as a tag list: split at commas, trim, drop empty pieces. */
  function ParseTags(input: string): (tags: seq<string>)
    ensures forall i | 0 <= i < |tags| :: CleanTag(tags[i])
  {
    CleanTags(Split(input, ','))
  }

  /** A non-empty string. */
  predicate NonEmptyTag(t: string) {
    t != []
  }

  /** Each piece trimmed (`.map(tag => tag.trim())`). */
  function TrimAll(pieces: seq<string>): (r: seq<string>)
    ensures |r| == |pieces|
    ensures forall i | 0 <= i < |pieces| :: r[i] == Trim(pieces[i])
  {
    seq(|pieces|, i requires 0 <= i < |pieces| => Trim(pieces[i]))
  }

  /** Cleaning piece by piece is trimming every piece, then keeping the non-empty results. */
  lemma {:induction false} CleanTagsIsTrimThenFilter(pieces: seq<string>)
    ensures CleanTags(pieces) == Filter(TrimAll(pieces), NonEmptyTag)
  {
    if pieces != [] {
      var t := TrimAll(pieces);
      var head := if NonEmptyTag(t[0]) then [t[0]] else [];
      assert t[1..] == TrimAll(pieces[1..]);
      CleanTagsIsTrimThenFilter(pieces[1..]);
      assert CleanPiece(pieces[0]) == head;
      assert Filter(t, NonEmptyTag) == head + Filter(t[1..], NonEmptyTag);
    }
  }

  /** The parser is the three-step pipeline of the tag field: split at commas, trim each
      piece, keep the non-empty ones. */
  lemma ParseTagsIsTrimThenFilter(input: string)
    ensures ParseTags(input) == Filter(TrimAll(Split(input, ',')), NonEmptyTag)
  {
    CleanTagsIsTrimThenFilter(Split(input, ','));
  }

  /** Text without a comma is one piece: no tag when blank, else the text without its
      surrounding white space. */
  lemma ParseTagsOfPiece(p: string)
    requires ',' !in p
    ensures ParseTags(p) == CleanPiece(p)
  {
    SplitWithoutSeparator(p, ',');
    assert CleanTags([p]) == CleanPiece(p) + CleanTags([]);
  }

  /** Tags keep their order: the tags left of a comma come before those right of it. */
  lemma ParseTagsAround(a: string, b: string)
    ensures ParseTags(a + [','] + b) == ParseTags(a) + ParseTags(b)
  {
    SplitAround(a, ',', b);
    CleanTagsAppend(Split(a, ','), Split(b, ','));
  }

  /** A leading white-space character never changes the parsed tags. */
  lemma ParseTagsAfterSpace(c: char, x: string)
    requires IsSpace(c)
    ensures ParseTags([c] + x) == ParseTags(x)
  {
    SplitCons(c, x, ',');
    var px := Split(x, ',');
    var p := Split([c] + x, ',');
    assert p[0] == [c] + px[0] && p[1..] == px[1..];
    assert p[0][1..] == px[0];
    TrimDropsLeadingSpace(p[0]);
    assert px == [px[0]] + px[1..];
  }

  /** An empty tag field holds no tags. */
  lemma ParseTagsOfEmpty()
    ensures ParseTags([]) == []
  {
    assert Split([], ',') == [[]];
    assert CleanPiece([]) == [] by {
      assert Blank([]);
    }
    assert CleanTags([[]]) == CleanPiece([]) + CleanTags([]);
  }

  /** A single clean tag parses to itself. */
  lemma ParseOneTag(t: string)
    requires CleanTag(t)
    ensures ParseTags(t) == [t]
  {
    SplitWithoutSeparator(t, ',');
    TrimOfPadded([], t, []);
    assert [] + t + [] == t;
  }

  /** How the edit dialog shows a tag list. */
  function JoinTags(tags: seq<string>): (r: string)
    ensures |tags| >= 1 ==> tags[0] <= r
    ensures |tags| >= 1 ==> |r| == TotalLength(tags) + 2 * (|tags| - 1)
  {
    Join(tags, ", ")
  }

  /** The joined text of two or more tags: the first, a comma, a space, the rest. */
  lemma JoinTagsCons(tags: seq<string>)
    requires |tags| >= 2
    ensures JoinTags(tags) == tags[0] + [','] + ([' '] + JoinTags(tags[1..]))
  {
    assert JoinTags(tags) == tags[0] + ", " + JoinTags(tags[1..]);
  }

  /** Showing clean tags in the dialog and parsing the text back gives the same tags. */
  lemma {:induction false} TagsRoundTrip(tags: seq<string>)
    requires forall i | 0 <= i < |tags| :: CleanTag(tags[i])
    ensures ParseTags(JoinTags(tags)) == tags
  {
    if |tags| == 0 {
      assert JoinTags(tags) == [];
      ParseTagsOfEmpty();
    } else if |tags| == 1 {
      assert JoinTags(tags) == tags[0];
      ParseOneTag(tags[0]);
    } else {
      TagsRoundTrip(tags[1..]);
      TagsRoundTripStep(tags);
    }
  }

  /** One tag in front of a list that already round-trips. */
  lemma TagsRoundTripStep(tags: seq<string>)
    requires |tags| >= 2 && CleanTag(tags[0])
    requires ParseTags(JoinTags(tags[1..])) == tags[1..]
    ensures ParseTags(JoinTags(tags)) == tags
  {
    var rest := JoinTags(tags[1..]);
    JoinTagsCons(tags);
    calc {
      ParseTags(JoinTags(tags));
      { ParseTagsAround(tags[0], [' '] + rest); }
      ParseTags(tags[0]) + ParseTags([' '] + rest);
      { ParseTagsAfterSpace(' ', rest); }
      ParseTags(tags[0]) + ParseTags(rest);
      { ParseOneTag(tags[0]); }
      [tags[0]] + tags[1..];
    }
    assert tags == [tags[0]] + tags[1..];
  }

  // ---- The dialog ----

  const EmptyForm := ProjectForm([], [], [], [], [])

  /** Opens the dialog for a new project: empty fields, no tags, empty tag text. The
      project last chosen for editing stays chosen. */
  function AddProject(d: Dialog): (r: Dialog)
    ensures !r.editing && r.selected == d.selected
    ensures r.form == EmptyForm && r.tagsInput == []
  {
    Dialog(false, d.selected, EmptyForm, [])
  }

  /** Opens the dialog on an existing project, with its tags joined into the tag text. */
  function EditProject(d: Dialog, p: Project): (r: Dialog)
    ensures r.editing && r.selected == Some(p)
    ensures r.form.title == p.title && r.form.description == p.description
    ensures r.form.category == p.category && r.form.imageUrl == p.imageUrl
    ensures r.form.tags == p.tags
    ensures r.tagsInput == JoinTags(p.tags)
  {
    Dialog(true, Some(p), ProjectForm(p.title, p.description, p.category, p.imageUrl, p.tags),
      JoinTags(p.tags))
  }

  /** The dialog's four text inputs. */
  datatype FormField = Title | Description | Category | ImageUrl

  function FieldOf(form: ProjectForm, f: FormField): string {
    match f
    case Title => form.title
    case Description => form.description
    case Category => form.category
    case ImageUrl => form.imageUrl
  }

  /** Typing into one of the text inputs: only that field of the form changes. */
  function HandleInputChange(d: Dialog, f: FormField, v: string): (r: Dialog)
    ensures FieldOf(r.form, f) == v
    ensures forall g: FormField | g != f :: FieldOf(r.form, g) == FieldOf(d.form, g)
    ensures r.form.tags == d.form.tags && r.tagsInput == d.tagsInput
    ensures r.editing == d.editing && r.selected == d.selected
  {
    var form := match f
      case Title => d.form.(title := v)
      case Description => d.form.(description := v)
      case Category => d.form.(category := v)
      case ImageUrl => d.form.(imageUrl := v);
    d.(form := form)
  }

  /** Typing into the tag input: only the tag text changes. */
  function HandleTagsInputChange(d: Dialog, v: string): (r: Dialog)
    ensures r.tagsInput == v
    ensures r.editing == d.editing && r.selected == d.selected && r.form == d.form
  {
    d.(tagsInput := v)
  }

  /** The four fields a save insists on; white space alone counts as filled. */
  predicate RequiredFilled(f: ProjectForm): (b: bool)
    ensures b <==> forall g: FormField :: FieldOf(f, g) != []
  {
    assert FieldOf(f, Title) == f.title && FieldOf(f, Description) == f.description;
    assert FieldOf(f, Category) == f.category && FieldOf(f, ImageUrl) == f.imageUrl;
    f.title != [] && f.description != [] && f.category != [] && f.imageUrl != []
  }

  /** Saving the dialog: nothing is sent while a required field is empty; otherwise the
      fields with the parsed tags update the chosen project when editing, and create a
      new project when not. */
  function Save(d: Dialog): (r: SaveRequest)
    ensures r.Rejected? <==> !RequiredFilled(d.form)
    ensures r.CreateRequest? <==> RequiredFilled(d.form) && !(d.editing && d.selected.Some?)
    ensures r.CreateRequest? ==>
      r.data == ProjectCreate(d.form.title, d.form.description, d.form.category,
        d.form.imageUrl, ParseTags(d.tagsInput))
    ensures r.UpdateRequest? ==>
      && d.editing && d.selected.Some? && r.id == d.selected.value.id
      && r.patch == ProjectUpdate(Some(d.form.title), Some(d.form.description),
           Some(d.form.category), Some(d.form.imageUrl), Some(ParseTags(d.tagsInput)))
  {
    if !RequiredFilled(d.form) then Rejected
    else
      var tags := ParseTags(d.tagsInput);
      if d.editing && d.selected.Some? then
        UpdateRequest(d.selected.value.id,
          ProjectUpdate(Some(d.form.title), Some(d.form.description), Some(d.form.category),
            Some(d.form.imageUrl), Some(tags)))
      else
        CreateRequest(ProjectCreate(d.form.title, d.form.description, d.form.category,
          d.form.imageUrl, tags))
  }

  /** The store after a save request reaches it: a rejected save leaves it alone, a create
      adds one record after the existing ones, an update keeps the length and every id. */
  function Dispatch(s: Store, req: SaveRequest): (r: Store)
    ensures req.Rejected? ==> r == s
    ensures req.CreateRequest? ==> |r| == |s| + 1 && r[..|s|] == s
    ensures req.UpdateRequest? ==> |r| == |s| && forall i | 0 <= i < |s| :: r[i].id == s[i].id
  {
    match req
    case Rejected => s
    case CreateRequest(c) => CreateProject(s, c).store
    case UpdateRequest(id, u) => UpdateProject(s, id, u).store
  }

  /** A freshly opened add dialog cannot be saved. */
  lemma AddThenSaveRejected(d: Dialog)
    ensures Save(AddProject(d)) == Rejected
  {
  }

  /** Opening a stored project for editing and saving without changes leaves the store as
      it was, provided ids are distinct and the project's tags are clean. */
  lemma EditThenSaveKeepsStore(s: Store, d: Dialog, p: Project)
    requires UniqueIds(s) && p in s
    requires forall i | 0 <= i < |p.tags| :: CleanTag(p.tags[i])
    ensures Dispatch(s, Save(EditProject(d, p))) == s
  {
    TagsRoundTrip(p.tags);
    if RequiredFilled(EditProject(d, p).form) {
      assert Save(EditProject(d, p)) == UpdateRequest(p.id, OwnFields(p));
      UpdateWithOwnFields(s, p);
    }
  }

  /** Emptying any required input makes the save send nothing. */
  lemma ClearedFieldRejects(d: Dialog, f: FormField)
    ensures Save(HandleInputChange(d, f, [])) == Rejected
  {
  }

  /** Typing a list of clean tags, joined as the dialog shows them, saves exactly that list. */
  lemma TypedTagsAreSaved(d: Dialog, tags: seq<string>)
    requires RequiredFilled(d.form)
    requires forall i | 0 <= i < |tags| :: CleanTag(tags[i])
    ensures var req := Save(HandleTagsInputChange(d, JoinTags(tags)));
      (req.CreateRequest? && req.data.tags == tags) || (req.UpdateRequest? && req.patch.tags == Some(tags))
  {
    TagsRoundTrip(tags);
  }

  // ---- Deleting ----

  /** The id argument as JavaScript sees it: a number, `NaN`, or something else. */
  datatype IdArg = NumberId(v: int) | NaNId | NotANumberId

  /** Checks the id before the delete request; a bad id fails without any request. */
  function HandleDelete(s: Store, id: IdArg): (r: (Store, bool))
    ensures !id.NumberId? ==> r == (s, false)
    ensures id.NumberId? ==> r.0 == DeleteProject(s, id.v).store
    ensures id.NumberId? ==> (r.1 <==> HasId(s, id.v))
  {
    match id
    case NumberId(v) =>
      var reply := DeleteProject(s, v);
      (reply.store, reply.result.Success?)
    case _ => (s, false)
  }

  /** A listed project's delete button: a project whose id is 0 (falsy in JavaScript)
      sends nothing; any other id goes through the checked delete. */
  function DeleteButton(s: Store, p: Project): (r: Store)
    ensures p.id == 0 ==> r == s
    ensures p.id != 0 ==> r == DeleteProject(s, p.id).store
  {
    if p.id == 0 then s else HandleDelete(s, NumberId(p.id)).0
  }

  /** In a store with distinct ids, the delete button of a stored project with a non-zero
      id removes exactly that project. */
  lemma DeleteButtonRemovesProject(s: Store, p: Project)
    requires UniqueIds(s) && p in s && p.id != 0
    ensures p !in DeleteButton(s, p)
    ensures |DeleteButton(s, p)| == |s| - 1
  {
    DeleteThenGet(s, p.id);
  }

  /** The category list the admin page shows after loading: distinct, first-seen order. */
  function AdminCategories(ps: seq<Project>): (r: seq<string>)
    ensures NoDuplicates(r)
    ensures forall c :: c in r <==> c in CategoriesOf(ps)
    ensures forall i, j | 0 <= i < j < |r| ::
      FirstIndex(CategoriesOf(ps), r[i]) < FirstIndex(CategoriesOf(ps), r[j])
  {
    UniqueCategories(ps)
  }
}
