# Portfolio projects store and page logic, in Dafny

This project models the small logical core of a personal-portfolio web site:

- **The backend projects store** (`backend/app/apis/projects/__init__.py`). It keeps a list of
  project records under one sanitized storage key. It offers list, get by id, create (the new
  id is the largest id plus one, or 1 for an empty store), a partial update that applies only
  the present, non-null fields, delete, and seed-if-empty with six sample projects.
- **The page logic** around it:
  - the contact form's validation, error clearing and submit gate (`Contact.tsx`);
  - the admin dialog (`Admin.tsx`): filling the form for add or edit, the comma-separated tag
    field, the required-field gate, the create-or-update save, the id check before a delete,
    and the category list;
  - the gallery page (`Projects.tsx`): list, or seed when empty, or fall back to built-in
    samples; the `All` plus distinct-categories filter buttons; filtering;
  - the home page's featured section (`FeaturedProjects.tsx`): the first three projects, or
    three placeholders.

Modules follow the program's structure:

| file | module | what |
|---|---|---|
| `wrappers.dfy` | `Wrappers` | `Option`, `Result` |
| `seqs.dfy` | `Seqs` | subsequences, filtering, first-occurrence de-duplication |
| `text.dfy` | `Text` | JavaScript white space, `trim`, `split` on one character, `join` |
| `projects_api.dfy` | `ProjectsApi` | the backend store |
| `projects_client.dfy` | `ProjectsClient` | request outcomes, list-then-seed, distinct categories |
| `contact_form.dfy` | `ContactForm` | the contact form |
| `admin_panel.dfy` | `AdminPanel` | the admin dialog, tags, save and delete |
| `projects_page.dfy` | `ProjectsPage` | the gallery page |
| `featured_projects.dfy` | `FeaturedProjects` | the featured section |

The persisted list is a value (`Store = seq<Project>`); every writing operation returns the
new list together with its reply (`Reply<T>`), and not-found is a `Failure(NotFound)`. A
request's outcome as a page sees it is a parameter, `Fetched(value)` or `FetchFailed`, so
the pages' loaders are pure functions of what the requests answered.

Modelling decisions:

- The backend's update skips patch fields that are `null` as well as absent ones, so a
  `null` never clears a field. The model follows the code: a patch field is `None` for both.
- The contact form's subject is required, despite a comment in the code calling it optional.
- The gallery page's fallback list is textually the same six records the backend seeds, so
  it is defined as `SampleProjects()`.
- JavaScript white space (for `trim` and `\S`) is the ECMAScript WhiteSpace and
  LineTerminator set, written out in `Text.IsSpace`.
- JavaScript's `length` counts UTF-16 code units, so the contact form's ten-character
  minimum counts a character outside the Basic Multilingual Plane (an emoji, say) twice;
  `Text.Utf16Length` models that count.
- The admin dialog's required-field test uses JavaScript truthiness on the untrimmed
  strings, so white space alone counts as filled.
- The delete button of a listed project does nothing when the id is 0, which is falsy in
  JavaScript.

## Model

| member | source | states |
|---|---|---|
| ProjectsApi.SanitizeStorageKey | backend/app/apis/projects/__init__.py:14-16 | only `[A-Za-z0-9._-]` remain; each allowed character keeps its count, each other character is gone; the result is a subsequence of the key (order kept) |
| ProjectsApi.SanitizeKeepsCleanKey | backend/app/apis/projects/__init__.py:14-16 | a key made only of allowed characters is returned unchanged |
| ProjectsApi.SanitizeIdempotent | backend/app/apis/projects/__init__.py:14-16 | sanitizing twice equals sanitizing once |
| ProjectsApi.StorageKeyIsClean | backend/app/apis/projects/__init__.py:11-16 | `portfolio_projects` passes sanitizing unchanged |
| ProjectsApi.IndexOfId | backend/app/apis/projects/__init__.py:70-72 | the scan finds nothing exactly when no record has the id, and otherwise the first record with it |
| ProjectsApi.GetProject | backend/app/apis/projects/__init__.py:66-74 | fails with not-found exactly when no record has the id; otherwise returns the first record with that id |
| ProjectsApi.MaxId | backend/app/apis/projects/__init__.py:84 | the maximum is at least every id and is some record's id |
| ProjectsApi.NextId | backend/app/apis/projects/__init__.py:81-84 | the new id exceeds every id; it is 1 for an empty list and one more than an existing id otherwise |
| ProjectsApi.CreateProject | backend/app/apis/projects/__init__.py:77-102 | appends exactly one record at the end, carrying the supplied fields and a fresh id (1 on an empty store, max + 1 otherwise), and returns that record |
| ProjectsApi.ApplyPatch | backend/app/apis/projects/__init__.py:113-114 | each present field replaces the old value, each absent or null one keeps it; the id never changes |
| ProjectsApi.UpdateProject | backend/app/apis/projects/__init__.py:105-121 | on a missing id, not-found and the store unchanged; otherwise only the first record with the id is patched in place, and the length, every id and all other records are unchanged |
| ProjectsApi.DeleteProject | backend/app/apis/projects/__init__.py:124-139 | on a missing id, not-found and the store unchanged; otherwise exactly the first record with the id is removed, the rest keep their order, and the length drops by one |
| ProjectsApi.ListProjects | backend/app/apis/projects/__init__.py:60-63 | succeeds with every stored record, in stored order, and leaves the store unchanged |
| ProjectsApi.SampleProjects | backend/app/apis/projects/__init__.py:149-198 | six samples carrying ids 1 to 6 in order |
| ProjectsApi.SampleIds | backend/app/apis/projects/__init__.py:149-198 | six samples with ids 1 to 6, pairwise distinct |
| ProjectsApi.InitializeProjects | backend/app/apis/projects/__init__.py:142-204 | an empty store is seeded with the six samples; a non-empty one is left and returned as it is; the reply is the stored list |
| ProjectsApi.InitializeIdempotent | backend/app/apis/projects/__init__.py:144-204 | seeding twice equals seeding once |
| ProjectsApi.InitializeKeepsUniqueIds | backend/app/apis/projects/__init__.py:147-202 | after seeding, ids are pairwise distinct |
| ProjectsApi.CreateKeepsUniqueIds | backend/app/apis/projects/__init__.py:81-97 | create keeps ids pairwise distinct |
| ProjectsApi.UpdateKeepsUniqueIds | backend/app/apis/projects/__init__.py:110-119 | update keeps ids pairwise distinct |
| ProjectsApi.DeleteKeepsUniqueIds | backend/app/apis/projects/__init__.py:129-137 | delete keeps ids pairwise distinct |
| ProjectsApi.CreateThenGet | backend/app/apis/projects/__init__.py:66-102 | for every store, getting the created record's id returns the supplied fields with that id |
| ProjectsApi.UpdateIdempotent | backend/app/apis/projects/__init__.py:105-121 | applying the same patch twice equals applying it once, for the store and the reply |
| ProjectsApi.OwnFields | backend/app/apis/projects/__init__.py:113-114 | a patch holding a record's own values leaves the record unchanged |
| ProjectsApi.UpdateWithOwnFields | backend/app/apis/projects/__init__.py:105-121 | with distinct ids, writing a stored record's own fields back leaves the store unchanged and returns that record |
| ProjectsApi.DeleteThenGet | backend/app/apis/projects/__init__.py:124-139 | with distinct ids, after deleting an existing id, getting it fails with not-found |
| ProjectsApi.InitializeThenList | backend/app/apis/projects/__init__.py:142-204 | after seeding, listing answers the six samples when the store was empty and the store's own records otherwise |
| Seqs.Filter | frontend/src/pages/Projects.tsx:155 | every kept element passes the test; kept elements keep their multiplicity, the others are gone; the result is a subsequence |
| Seqs.FilterIdempotent | frontend/src/pages/Projects.tsx:155 | filtering twice with one test equals filtering once |
| Seqs.Distinct | frontend/src/pages/Admin.tsx:52 | no duplicates, the same elements as the input, ordered by first occurrence |
| Seqs.DistinctSnoc | frontend/src/pages/Admin.tsx:52 | appending an element adds it at the end exactly when it was not yet present |
| Seqs.DistinctOfUnique | frontend/src/pages/Admin.tsx:52 | a list without duplicates is unchanged by de-duplication |
| Text.Trim | frontend/src/pages/Contact.tsx:51 | the result has no white space at either end, is empty exactly for blank input, and uses only characters of the input |
| Text.TrimIsPaddedSlice | frontend/src/pages/Contact.tsx:51 | the input is the trimmed result with only white space added at either end |
| Text.TrimOfPadded | frontend/src/pages/Admin.tsx:131 | white space around a trimmed string is removed and nothing else is |
| Text.TrimDropsLeadingSpace | frontend/src/pages/Admin.tsx:131 | a leading white-space character does not change the trimmed result |
| Text.Utf16Length | frontend/src/pages/Contact.tsx:70 | between one and two code units per character: exactly one each when all lie in the Basic Multilingual Plane, two each when none do |
| Text.Utf16LengthAppend | frontend/src/pages/Contact.tsx:70 | the code-unit count of a concatenation is the sum of the parts' counts |
| Text.Join | frontend/src/pages/Admin.tsx:117 | no pieces give the empty string; otherwise the first piece is a prefix and the length is the pieces' total plus one separator between each pair of neighbours |
| Text.Split | frontend/src/pages/Admin.tsx:130 | at least one piece, and no piece contains the separator |
| Text.JoinSplit | frontend/src/pages/Admin.tsx:129-130 | joining the pieces with the separator gives back the split string |
| Text.SplitAround | frontend/src/pages/Admin.tsx:130 | a separator splits the pieces on its left from those on its right |
| Text.SplitJoin | frontend/src/pages/Admin.tsx:117-130 | splitting the join of a non-empty list of separator-free pieces gives back that list |
| ContactForm.EmailMatches | frontend/src/pages/Contact.tsx:58 | true exactly when the address matches `^\S+@\S+\.\S+$`: no white space, an `@` after at least one character, then at least one character, a `.` and at least one character |
| ContactForm.Validate | frontend/src/pages/Contact.tsx:47-76 | the name and subject errors exactly for blank values; email "required" when blank, else "invalid" exactly when the pattern fails; message "required" when blank, else "too short" exactly when the trimmed message is below 10 UTF-16 code units |
| ContactForm.SurrogatePairsCountTwice | frontend/src/pages/Contact.tsx:70 | any message of five characters outside the Basic Multilingual Plane counts ten code units and is long enough |
| ContactForm.ValidateAcceptsExactly | frontend/src/pages/Contact.tsx:47-76 | the error map is empty exactly when all four rules pass |
| ContactForm.ValidateMessagesNonEmpty | frontend/src/pages/Contact.tsx:50-72 | every error shown is a non-empty message |
| ContactForm.HandleChange | frontend/src/pages/Contact.tsx:36-44 | only the edited field's value changes; that field's error is cleared when it shows a message; other errors and the submitting flag are unchanged |
| ContactForm.HandleSubmit | frontend/src/pages/Contact.tsx:79-83 | the errors become the validation's; submission starts exactly when the form is acceptable, and is otherwise unchanged |
| ContactForm.TypingAfterSubmitClearsError | frontend/src/pages/Contact.tsx:36-83 | after a submit, typing into a field clears its error and leaves the other errors as validated |
| ProjectsClient.ListThenInitialize | frontend/src/pages/Projects.tsx:46-68 | a non-empty listing is used as it is; an empty one is replaced by the seeding reply; a failed listing fails |
| ProjectsClient.ListThenInitializeSeesSeededStore | frontend/src/components/FeaturedProjects.tsx:35-47 | against one store, listing then seeding yields the store as it is after seeding |
| ProjectsClient.CategoriesOf | frontend/src/pages/Projects.tsx:54 | one category per project, the i-th being the i-th project's |
| ProjectsClient.UniqueCategories | frontend/src/pages/Projects.tsx:54 | no duplicates, exactly the categories some project has, ordered by first appearance |
| AdminPanel.CleanPiece | frontend/src/pages/Admin.tsx:131-132 | no tag exactly for a blank piece; otherwise one non-empty trimmed tag, which is the piece minus white space at its ends; comma-free pieces give comma-free tags |
| AdminPanel.CleanTags | frontend/src/pages/Admin.tsx:131-132 | every tag is non-empty and trimmed; comma-free pieces give comma-free tags; never more tags than pieces |
| AdminPanel.TrimAll | frontend/src/pages/Admin.tsx:131 | one trimmed piece per piece, in order |
| AdminPanel.CleanTagsIsTrimThenFilter | frontend/src/pages/Admin.tsx:131-132 | cleaning equals trimming every piece and then keeping the non-empty ones, in order |
| AdminPanel.CleanTagsAppend | frontend/src/pages/Admin.tsx:131-132 | cleaning distributes over concatenation, so piece order is kept |
| AdminPanel.ParseTags | frontend/src/pages/Admin.tsx:129-132 | every parsed tag is non-empty, trimmed and comma-free |
| AdminPanel.ParseTagsIsTrimThenFilter | frontend/src/pages/Admin.tsx:129-132 | the parsed tags are the comma-split pieces, trimmed, with the empty ones dropped, in order |
| AdminPanel.ParseTagsOfPiece | frontend/src/pages/Admin.tsx:129-132 | text without a comma parses as that one piece cleaned |
| AdminPanel.ParseTagsAround | frontend/src/pages/Admin.tsx:129-132 | tags left of a comma come before those right of it |
| AdminPanel.ParseTagsAfterSpace | frontend/src/pages/Admin.tsx:131 | a leading white-space character (any that `trim` removes) does not change the parsed tags |
| AdminPanel.ParseOneTag | frontend/src/pages/Admin.tsx:129-132 | a clean tag parses to itself |
| AdminPanel.JoinTags | frontend/src/pages/Admin.tsx:117 | the first tag starts the text; its length is the tags' total plus two characters between each pair of neighbours |
| AdminPanel.JoinTagsCons | frontend/src/pages/Admin.tsx:117 | two or more tags are shown as the first, a comma and a space, then the rest |
| AdminPanel.TagsRoundTrip | frontend/src/pages/Admin.tsx:117-132 | parsing the edit dialog's joined text gives back every list of clean tags |
| AdminPanel.AddProject | frontend/src/pages/Admin.tsx:93-104 | not editing; every field, the tags and the tag text are empty; the chosen project stays chosen |
| AdminPanel.EditProject | frontend/src/pages/Admin.tsx:107-119 | editing the given project; the form holds exactly its fields; the tag text is its tags joined with `, ` |
| AdminPanel.HandleInputChange | frontend/src/pages/Admin.tsx:82-85 | only the typed field changes |
| AdminPanel.HandleTagsInputChange | frontend/src/pages/Admin.tsx:88-90 | only the tag text changes |
| AdminPanel.RequiredFilled | frontend/src/pages/Admin.tsx:123 | holds exactly when every one of the four text inputs is non-empty |
| AdminPanel.Save | frontend/src/pages/Admin.tsx:122-151 | rejected exactly when a required field is empty; otherwise the fields with the parsed tags update the chosen project when editing one and create a project when not |
| AdminPanel.Dispatch | frontend/src/pages/Admin.tsx:140-150 | a rejected save leaves the store alone; a create adds one record after the existing ones; an update keeps the length and every id |
| AdminPanel.AddThenSaveRejected | frontend/src/pages/Admin.tsx:93-126 | a fresh add dialog cannot be saved |
| AdminPanel.EditThenSaveKeepsStore | frontend/src/pages/Admin.tsx:107-151 | with distinct ids, opening a stored project with clean tags and saving without changes leaves the store as it was |
| AdminPanel.ClearedFieldRejects | frontend/src/pages/Admin.tsx:123-126 | emptying any required input makes the save send nothing |
| AdminPanel.TypedTagsAreSaved | frontend/src/pages/Admin.tsx:88-151 | typing a clean tag list in the dialog's own format saves exactly that list, on create and on update |
| AdminPanel.HandleDelete | frontend/src/pages/Admin.tsx:163-180 | a non-number or NaN id makes no request and fails; a number deletes and succeeds exactly when the id exists |
| AdminPanel.DeleteButton | frontend/src/pages/Admin.tsx:289 | an id of 0 sends nothing; any other id goes through the checked delete |
| AdminPanel.DeleteButtonRemovesProject | frontend/src/pages/Admin.tsx:289 | with distinct ids, a stored project with non-zero id is removed and the list shrinks by one |
| AdminPanel.AdminCategories | frontend/src/pages/Admin.tsx:51-53 | no duplicates; exactly the categories some project has; ordered by first appearance |
| ProjectsPage.FallbackProjects | frontend/src/pages/Projects.tsx:80-131 | six fallback projects with ids 1 to 6 in order, pairwise distinct |
| ProjectsPage.CategoryButtons | frontend/src/pages/Projects.tsx:54-55 | `All` first, then each project category once, ordered by first appearance |
| ProjectsPage.FallbackCategories | frontend/src/pages/Projects.tsx:82-131 | the fallback categories in list order |
| ProjectsPage.DistinctFallbackCategories | frontend/src/pages/Projects.tsx:137 | de-duplicating them drops the second Branding |
| ProjectsPage.FallbackButtons | frontend/src/pages/Projects.tsx:136-138 | the fallback buttons read All, Branding, Web Design, Photography, UI/UX, Print |
| ProjectsPage.FilterProjects | frontend/src/pages/Projects.tsx:152-156 | `All` shows the full list; any other button shows exactly the projects of that category, in list order |
| ProjectsPage.FilterIdempotentOnList | frontend/src/pages/Projects.tsx:155 | filtering a filtered list by the same button changes nothing |
| ProjectsPage.HandleFilterChange | frontend/src/pages/Projects.tsx:149-156 | marks the button active and filters the full list; the list and the buttons are unchanged |
| ProjectsPage.HandleFilterChangeIdempotent | frontend/src/pages/Projects.tsx:149-156 | clicking the same button twice equals clicking it once |
| ProjectsPage.LoadProjects | frontend/src/pages/Projects.tsx:39-77 | the listed projects, the seeding reply for an empty listing, or the fallback on any failure; all shown; buttons rebuilt; active filter kept |
| ProjectsPage.LoadFromEmptyStore | frontend/src/pages/Projects.tsx:30-55 | a freshly opened page loading against an empty store shows all six samples, keeps `All` active and shows their six buttons |
| FeaturedProjects.Featured | frontend/src/components/FeaturedProjects.tsx:44-47 | a prefix of the list, exactly three long when there are three or more, the whole list otherwise |
| FeaturedProjects.Placeholders | frontend/src/components/FeaturedProjects.tsx:58-82 | three placeholders with ids 1 to 3, no image and no tags |
| FeaturedProjects.LoadFeatured | frontend/src/components/FeaturedProjects.tsx:31-87 | the first three of the listing, or of the seeding reply when the listing is empty; on failure three placeholders with ids 1 to 3, no image and no tags |
| FeaturedProjects.FeaturedFromEmptyStore | frontend/src/components/FeaturedProjects.tsx:39-44 | against an empty store the first three samples are featured |
| FeaturedProjects.FeaturedAgreesWithGallery | frontend/src/components/FeaturedProjects.tsx:39-47 | when the requests succeed, the featured projects are the first three of the gallery's list |

## Left out

- Storage I/O (`db.storage.json` get and put), its exception swallowing and the 500 error
  on a failed write: the store is a value, and a missing storage entry is the empty list.
- The HTTP layer: routing, status codes other than not-found, request parsing and
  validation, and the generated client; request outcomes are parameters.
- Records without an `id` (read with a default of 0 when computing the next id): every
  modelled record has an integer id.
- Asynchronous sequencing, React state hooks, toasts, the `confirm()` dialog before a delete
  (the model assumes it was confirmed), the timed reset after a contact submission, the
  loading flags, the dialog's open/closed flag, and the gallery's reflow animation.
- The admin page's refresh after a save or a delete, and its separate seed handler (lines
  64-74 of `Admin.tsx`), which only replace the shown list with a store reply.
- Concurrent requests racing on the store.
- JavaScript numbers: ids are unbounded integers, with `NaN` and non-numbers as separate
  cases of the delete argument.
- White space beyond the ECMAScript set written out in `Text.IsSpace`; no Unicode
  normalisation or case folding.
- The presentation-only files (setup guide, about page, app shell, hero, navigation bar,
  footer, button container) and the type-only data contracts.
- AdminPanel.TagsRoundTrip: holds only for non-empty, trimmed, comma-free tags; other tags
  are changed by an edit-and-save, as the parser trims and splits them.
- ProjectsApi.DeleteThenGet: requires distinct ids; with a duplicate id the next record with
  that id would be found after the delete.
