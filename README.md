# Visit registry of the "Visitas Técnicas" screen

This project models the visit registry of a moving company's scheduling
screen, `frontend/src/pages/Visitas.jsx`, and proves properties of it. The
model covers these parts:

- the ordered, in-memory list of technical visits, seeded with four records;
- the projection that turns the status select and the search box into the
  rows the table shows;
- saving a visit, either inserting it under a fresh id or updating the one
  being edited;
- deleting a visit after the user confirms;
- the status badge styling;
- the modal form's draft and its open, edit, cancel and submit transitions.

Modules, in dependency order:

- `Sequences`: `Keep` is the meaning of `Array.prototype.filter`. It keeps
  order, keeps each kept element's count, and can be composed and split.
- `Strings`: ASCII `toLowerCase` (`Lower`) and `includes` (`Includes`), where
  `Includes` is proved equal to a substring predicate.
- `VisitModel`: the visit record, its status, technician and move-type
  enumerations, the modal's form draft and its defaults.
- `Projector`: `filteredVisitas` and its laws.
- `RecordStore`: id assignment, insert, update by id, delete by id, and the
  id-uniqueness invariant. It also models the id computation exactly as written
  in JavaScript.
- `StatusStyle`: `getStatusColor`, `getStatusIcon` and the empty-table hint.
- `Fixture`: the four seed visits and scenarios on them.
- `Screen`: the class `VisitsPage` with the component's state fields
  (`visits`, `showModal`, `editing`, `draft`, `statusFilter`,
  `searchTerm`) and one method per handler. Each method states its whole new
  state and preserves `Valid()`: ids are unique, and there is an editing
  target only while the modal is shown.

Each React state setter is modelled as an immediate assignment. The modal's
`formData` exists only while the modal is mounted, so the model resets it
when the modal mounts: `OpenNew` from a closed modal, `OpenEdit` unless the
modal already edits that same visit, in which case both setters receive the
values they hold and nothing re-renders. `VisitaModal` is declared inside
`Visitas` (frontend/src/pages/Visitas.jsx:143), so every re-render of the page
creates a new component type and remounts a shown modal. Its `formData` then
starts over: the defaults, or a fresh copy of the editing target. The page
re-renders when the search term or the status filter changes and when a
deletion is confirmed, so `SetSearchTerm`, `SetStatusFilter` and `Delete`
reset the draft while the modal is shown. Typing in the modal only re-renders
the modal and keeps the draft. The modal's own handlers (`EditText`, `SetTechnician`,
`SetMoveType`, `SetDraftStatus`, `Cancel`, `Save`) exist only while
`VisitaModal` is mounted (frontend/src/pages/Visitas.jsx:163-166, 545), so
each requires the modal to be shown.

A stored record is `Visit(id, form, googleEventId)`. `form` holds the ten
fields the modal edits. In edit mode the source copies the whole target record
into `formData`, so the saved record keeps the target's `googleEventId` and
has its `id` forced. Splitting the record this way lets the draft be a `Form`
and makes `Updated` take the id and the event id from the editing target.

Apart from the abstractions listed under "## Left out" (among them ASCII-only
lower-casing, which changes which rows a search with accented capitals finds),
the model corrects the code in one place. On an empty store the code
computes `Math.max()` of no ids, which is `-Infinity`, so the new visit gets
no integer id (frontend/src/pages/Visitas.jsx:116). That as-written id is
`RecordStore.JsNextId`. The store, `Inserted` and `Save` use the corrected
`RecordStore.NextId` instead. It gives the evidently intended behaviour: the
first visit gets id 1 and ids stay unique (see "Findings").

## Model

| member | source | states |
|---|---|---|
| `Sequences.Keep` | frontend/src/pages/Visitas.jsx:136-141 | `filter` keeps exactly the elements that pass and is never longer than its input |
| `Sequences.KeepAll` | frontend/src/pages/Visitas.jsx:136 | `filter` by a test every element passes returns the input unchanged |
| `Sequences.KeepIsSubsequence` | frontend/src/pages/Visitas.jsx:136 | `filter` only deletes elements and never reorders the rest |
| `Sequences.KeepCounts` | frontend/src/pages/Visitas.jsx:136 | each element that passes is kept as many times as it occurs; the others are dropped |
| `Sequences.KeepKeep` | frontend/src/pages/Visitas.jsx:140 | filtering by one test and then another is filtering once by their conjunction |
| `Strings.LowerIsLowerCase` | frontend/src/pages/Visitas.jsx:138-139 | `toLowerCase` keeps the length, turns each upper-case letter into its own lower-case letter, leaves no upper-case letter and keeps every other character |
| `Strings.LowerIdempotent` | frontend/src/pages/Visitas.jsx:138-139 | lower-casing twice is lower-casing once |
| `Strings.Includes` | frontend/src/pages/Visitas.jsx:138-139 | `includes` is true exactly when the term occurs as a contiguous substring |
| `Strings.IncludesEmpty` | frontend/src/pages/Visitas.jsx:138-139 | the empty term is included in every string |
| `Strings.MissingLetterExcludes` | frontend/src/pages/Visitas.jsx:138-139 | a term is not included, whatever the case, in a string that lacks one of its letters in both cases |
| `VisitModel.StatusNameRoundTrip` | frontend/src/pages/Visitas.jsx:137 | status values and status strings correspond one to one, so comparing statuses is comparing the strings the source compares |
| `VisitModel.WithText` | frontend/src/pages/Visitas.jsx:186-316 | a text input's `onChange` sets its own field and leaves every other field and the three choices unchanged |
| `VisitModel.WithTextLaws` | frontend/src/pages/Visitas.jsx:186-316 | writing back a field's own value changes nothing, and the last of two writes to a field wins |
| `VisitModel.DraftFor` | frontend/src/pages/Visitas.jsx:144-161 | in edit mode the draft is a copy of the target's fields; otherwise every text field is empty, the technician is Kenneth, the status agendada and the move type Residencial |
| `Projector.StatusMatchesAsWritten` | frontend/src/pages/Visitas.jsx:137 | the status test holds exactly when the filter value is "todas" or equals the visit's status string |
| `Projector.EmptyTermMatches` | frontend/src/pages/Visitas.jsx:138-139 | an empty search term matches every visit |
| `Projector.Filtered` | frontend/src/pages/Visitas.jsx:136-141 | a visit is shown exactly when it is stored, passes the status test, and the lower-cased term is a substring of its lower-cased client name or address; shown rows keep their stored multiplicity and order |
| `Projector.ShowAll` | frontend/src/pages/Visitas.jsx:137-139 | "todas" with an empty search shows every stored visit, in order |
| `Projector.ShowStatus` | frontend/src/pages/Visitas.jsx:137 | a status filter with an empty search shows exactly the visits with that status, in order |
| `Projector.StatusThenSearch` | frontend/src/pages/Visitas.jsx:140 | the status and search tests are ANDed: applying them one after the other equals applying both |
| `Projector.SearchIgnoresCase` | frontend/src/pages/Visitas.jsx:138-139 | the rows shown do not depend on the case of the term |
| `RecordStore.Ids` | frontend/src/pages/Visitas.jsx:116 | `visitas.map(v => v.id)`: the ids in stored order |
| `RecordStore.MaxId` | frontend/src/pages/Visitas.jsx:116 | the maximum of a non-empty id list is one of its ids and no id exceeds it |
| `RecordStore.NextId` | frontend/src/pages/Visitas.jsx:116 | a new id exceeds every stored id and, on a non-empty store, is one more than a stored id; it is 1 on an empty store |
| `RecordStore.JsMaxIsMaxId` | frontend/src/pages/Visitas.jsx:116 | on a non-empty list, JavaScript's `Math.max` is the integer maximum |
| `RecordStore.JsNextIdAgrees` | frontend/src/pages/Visitas.jsx:116 | on a non-empty store the id as written in JavaScript is `NextId` |
| `RecordStore.JsNextIdOnEmptyStore` | frontend/src/pages/Visitas.jsx:116 | on an empty store the id as written is -Infinity, not the intended 1 |
| `RecordStore.Inserted` | frontend/src/pages/Visitas.jsx:114-119 | the new visit is at index 0 with the draft's fields, the given event id and an id above every stored id; the old list follows it unchanged, one longer |
| `RecordStore.InsertKeepsUniqueIds` | frontend/src/pages/Visitas.jsx:114-119 | inserting keeps ids unique |
| `RecordStore.InsertOnNonEmptyStore` | frontend/src/pages/Visitas.jsx:116 | on a non-empty store the new id is the maximum id plus one, which is also what the JavaScript computes |
| `RecordStore.Updated` | frontend/src/pages/Visitas.jsx:111-112 | length, positions and ids are unchanged; every visit with the target's id takes the draft's fields and keeps the target's id and event id; every other visit is unchanged |
| `RecordStore.UpdateKeepsUniqueIds` | frontend/src/pages/Visitas.jsx:111-112 | updating keeps ids unique |
| `RecordStore.UpdateReplacesOne` | frontend/src/pages/Visitas.jsx:111-112 | with unique ids, updating a stored visit replaces exactly its position |
| `RecordStore.UpdateWithUnchangedDraft` | frontend/src/pages/Visitas.jsx:111-112 | saving a stored visit's own fields back changes nothing |
| `RecordStore.UpdateAbsentIsNoOp` | frontend/src/pages/Visitas.jsx:111-112 | updating with an id no visit has changes nothing |
| `RecordStore.SaveKeepsUniqueIds` | frontend/src/pages/Visitas.jsx:110-123 | the array `handleSaveVisita` stores, `Updated` with an editing target and `Inserted` otherwise, keeps ids unique |
| `RecordStore.Removed` | frontend/src/pages/Visitas.jsx:127 | exactly the visits with another id remain, each as often as it was stored and in their order; an absent id changes nothing |
| `RecordStore.RemovedCons` | frontend/src/pages/Visitas.jsx:127 | deleting by id decides the first visit and then deletes from the rest |
| `RecordStore.RemoveUniqueDropsOne` | frontend/src/pages/Visitas.jsx:127 | with unique ids, deleting a stored visit's id removes exactly its position and nothing else |
| `RecordStore.RemoveKeepsUniqueIds` | frontend/src/pages/Visitas.jsx:127 | deleting keeps ids unique |
| `StatusStyle.StatusClasses` | frontend/src/pages/Visitas.jsx:92-98 | agendada is blue, realizada green, cancelada red and every other string gray, with the exact classes |
| `StatusStyle.StyleSeparatesStatuses` | frontend/src/pages/Visitas.jsx:92-107 | gray and the alert icon are used exactly for unknown statuses; the three known statuses get distinct colours, and colour and icon always agree |
| `StatusStyle.StartSchedulingMeansEmptyStore` | frontend/src/pages/Visitas.jsx:512-520 | the table is empty with the "start scheduling" hint exactly when the store is empty under "todas" and an empty search |
| `Fixture.SeedIds` | frontend/src/pages/Visitas.jsx:31-88 | the seed's ids are 1, 2, 3, 4 in order, hence unique |
| `Fixture.ScenarioCancelled` | frontend/src/pages/Visitas.jsx:31-88 | on the seed, "cancelada" with no search shows only visit 3 |
| `Fixture.PaulistaVerdicts` | frontend/src/pages/Visitas.jsx:31-88 | of the seed, only visit 2 matches the search "Paulista" |
| `Fixture.ScenarioPaulista` | frontend/src/pages/Visitas.jsx:31-88 | on the seed, "Paulista" under "todas" shows only visit 2 |
| `Fixture.ScenarioInsert` | frontend/src/pages/Visitas.jsx:114-119 | a visit inserted into the seed gets id 5 and comes first, before the unchanged seed |
| `Fixture.RemoveSecondId` | frontend/src/pages/Visitas.jsx:127 | deleting id 2 from visits with ids 5, 1, 2, 3, 4 drops the third and keeps the others in order |
| `Fixture.ScenarioInsertThenDelete` | frontend/src/pages/Visitas.jsx:114-127 | inserting into the seed and then deleting visit 2 leaves ids 5, 1, 3, 4 in that order |
| `Screen.VisitsPage.constructor` | frontend/src/pages/Visitas.jsx:22-90 | the mounted page holds the seed, no modal, no editing target, "todas" and an empty search |
| `Screen.VisitsPage.Shown` | frontend/src/pages/Visitas.jsx:136-141 | the table shows exactly the stored visits that pass the current status filter and search |
| `Screen.VisitsPage.SetSearchTerm` | frontend/src/pages/Visitas.jsx:381 | the search box sets the search term; a changed term behind a shown modal remounts it, so the draft starts over from the editing target or the defaults; nothing else changes |
| `Screen.VisitsPage.SetStatusFilter` | frontend/src/pages/Visitas.jsx:388-395 | the status select sets the filter, read from the option's value; a changed filter behind a shown modal makes the draft start over; nothing else changes |
| `Screen.VisitsPage.OpenNew` | frontend/src/pages/Visitas.jsx:359 | "Nova Visita" shows the modal; a modal that was closed mounts with the default draft, and nothing else changes |
| `Screen.VisitsPage.OpenEdit` | frontend/src/pages/Visitas.jsx:487-490 | the edit button makes the visit the editing target and shows the modal; the draft becomes a copy of the visit's fields unless the modal already edits that visit, when it keeps what was typed |
| `Screen.EditReopenSave` | frontend/src/pages/Visitas.jsx:487-490 | pressing the edit button of the row being edited keeps the typed change, so saving stores the edited form |
| `Screen.VisitsPage.EditText` | frontend/src/pages/Visitas.jsx:186-316 | a text input changes only its own field of the draft |
| `Screen.VisitsPage.SetTechnician` | frontend/src/pages/Visitas.jsx:269-275 | the technician select changes only the draft's technician |
| `Screen.VisitsPage.SetMoveType` | frontend/src/pages/Visitas.jsx:285-290 | the move-type select changes only the draft's move type |
| `Screen.VisitsPage.SetDraftStatus` | frontend/src/pages/Visitas.jsx:301-306 | the modal's status select, offering the three statuses, changes only the draft's status |
| `Screen.VisitsPage.Cancel` | frontend/src/pages/Visitas.jsx:326-329 | "Cancelar" closes the modal and drops the editing target; the stored visits are untouched |
| `Screen.VisitsPage.Save` | frontend/src/pages/Visitas.jsx:110-123 | submit from the shown modal stores `Saved` of the visits, the editing target and the draft, which updates the target's visits in edit mode and inserts the draft otherwise; the modal closes with no editing target and ids stay unique |
| `Screen.VisitsPage.Delete` | frontend/src/pages/Visitas.jsx:125-129 | on confirmation the visits with that id go and the rest keep their order, and a shown modal's draft starts over; without it nothing changes; ids stay unique |
| `Screen.EditThenSaveUnchanged` | frontend/src/pages/Visitas.jsx:110-123 | opening a stored visit the modal does not already edit and submitting the untouched draft leaves the stored visits as they were |
| `Screen.EditSearchSave` | frontend/src/pages/Visitas.jsx:143-161 | edits made in an edit modal are lost when the search term changes behind it, so saving then leaves the stored visits unchanged |
| `Screen.EmptyTableHint` | frontend/src/pages/Visitas.jsx:512-520 | the page shows no row and the "start scheduling" hint exactly when its store is empty under "todas" and an empty search |
| `Screen.OpenThenCancel` | frontend/src/pages/Visitas.jsx:326-329 | opening a new visit and cancelling leaves the stored visits and the filters unchanged, with the modal closed |

## Left out

- Rendering: the JSX layout, the icons as React elements (modelled as the enumeration `Icon`) and the detail columns of the table.
- Date display with `toLocaleDateString('pt-BR')`: it depends on the locale and the time zone.
- `Date.now()` inside `googleEventId`: the event id is the parameter `eventId` of `Save` and `Inserted`.
- `window.confirm` and `alert`: the answer to the confirmation is the boolean `confirmed` of `Delete`. The calendar-sync button only shows an alert and changes no state.
- Browser `required` validation of the form: the DOM enforces it, not the code, so `Save` accepts any draft.
- React scheduling of `useState`/`useEffect`: each setter is an immediate assignment. The first render with an empty list, before the mount effect loads the seed, is not modelled; the constructor is the state after that effect.
- `Strings.Lower`: lower-casing is ASCII-only. `toLowerCase` also folds accented and other non-ASCII letters such as "Ã".
- `VisitModel.Visit`: stores `id` as an integer. The `-Infinity` id the source produces on an empty store is modelled only in `RecordStore.JsNextId`.
- The technician and move-type selects are modelled by their option types, and `SetDraftStatus` requires one of the three statuses its select offers, so no value from outside the options can reach the draft; a stored record with another status string is modelled (`Other`), a draft edited to one is not.
- The backend routes, the login page and the layout component are not part of this model.

## Findings

| source | as written | input that shows it | evidently intended | confidence | as-written member | corrected member |
|---|---|---|---|---|---|---|
| frontend/src/pages/Visitas.jsx:116 | the new id is `Math.max(...visitas.map(v => v.id)) + 1`, and `Math.max()` of no numbers is `-Infinity` | saving a new visit after every visit was deleted: the store is `[]`, so the id is `-Infinity` | the first visit gets id 1, and ids stay unique integers | not executed | `RecordStore.JsNextIdOnEmptyStore` | `RecordStore.NextId` |
