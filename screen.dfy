/**
 * The state of the `Visitas` component (frontend/src/pages/Visitas.jsx:22-27,
 * 143-148) and the handlers that change it. Each React setter is read as an
 * immediate assignment; the modal's own `formData` is the `draft` field,
 * which only means something while the modal is shown.
 */
module Screen {
  import opened VisitModel
  import opened Projector
  import opened RecordStore
  import opened StatusStyle
  import opened Fixture

  class VisitsPage {
    /** `visitas`, in display order. */
    var visits: seq<Visit>
    /** `showModal`. */
    var showModal: bool
    /** `editingVisita`; `None` is `null`. */
    var editing: Option<Visit>
    /** The mounted modal's `formData`. */
    var draft: Form
    /** `filtroStatus`. */
    var statusFilter: StatusFilter
    /** `searchTerm`. */
    var searchTerm: string

    /** What every handler preserves: ids stay unique, and there is an
        editing target only while the modal is shown. */
    ghost predicate Valid()
      reads this
    {
      UniqueIds(visits) && (editing.Some? ==> showModal)
    }

    /** The page once mounted: the seed is loaded, no modal, "todas" and
        an empty search. */
    constructor ()
      ensures Valid()
      ensures visits == Seed()
      ensures !showModal && editing == None
      ensures draft == DefaultDraft()
      ensures statusFilter == All && searchTerm == ""
    {
      SeedIds();
      visits := Seed();
      showModal := false;
      editing := None;
      draft := DefaultDraft();
      statusFilter := All;
      searchTerm := "";
    }

    /** `filteredVisitas`: the rows the table shows. */
    function Shown(): (r: seq<Visit>)
      reads this
      ensures forall v :: v in r <==> v in visits && Matches(v, statusFilter, searchTerm)
    {
      Filtered(visits, statusFilter, searchTerm)
    }

    /** The message shown under an empty table. */
    function Hint(): EmptyHint
      reads this
    {
      EmptyHintFor(statusFilter, searchTerm)
    }

    /** The search box's `onChange`. A new term re-renders the page, and
        with the modal shown that remounts it, so the draft starts over. */
    method SetSearchTerm(term: string)
      requires Valid()
      modifies this
      ensures Valid()
      ensures searchTerm == term
      ensures visits == old(visits) && showModal == old(showModal) && editing == old(editing)
      ensures statusFilter == old(statusFilter)
      ensures old(showModal) && term != old(searchTerm) ==> draft == DraftFor(old(editing))
      ensures !(old(showModal) && term != old(searchTerm)) ==> draft == old(draft)
    {
      if showModal && term != searchTerm {
        draft := DraftFor(editing);
      }
      searchTerm := term;
    }

    /** The status select's `onChange`, given the option's value. A new
        value re-renders the page, and with the modal shown that remounts it,
        so the draft starts over. */
    method SetStatusFilter(value: string)
      requires Valid()
      modifies this
      ensures Valid()
      ensures statusFilter == FilterOf(value)
      ensures visits == old(visits) && showModal == old(showModal) && editing == old(editing)
      ensures searchTerm == old(searchTerm)
      ensures old(showModal) && FilterOf(value) != old(statusFilter) ==> draft == DraftFor(old(editing))
      ensures !(old(showModal) && FilterOf(value) != old(statusFilter)) ==> draft == old(draft)
    {
      if showModal && FilterOf(value) != statusFilter {
        draft := DraftFor(editing);
      }
      statusFilter := FilterOf(value);
    }

    /** "Nova Visita": shows the modal. A modal that was closed mounts with
        the default draft, since there is no editing target; one already
        shown keeps its draft. */
    method OpenNew()
      requires Valid()
      modifies this
      ensures Valid()
      ensures showModal
      ensures old(showModal) ==> draft == old(draft)
      ensures !old(showModal) ==> draft == DefaultDraft()
      ensures visits == old(visits) && editing == old(editing)
      ensures statusFilter == old(statusFilter) && searchTerm == old(searchTerm)
    {
      if !showModal {
        draft := DraftFor(editing);
        showModal := true;
      }
    }

    /** The row's edit button: `v` becomes the editing target and the modal
        shows a copy of its fields. When the modal already edits `v`, both
        setters receive the values they hold, nothing re-renders and the
        draft keeps what was typed. */
    method OpenEdit(v: Visit)
      requires Valid() && v in visits
      modifies this
      ensures Valid()
      ensures showModal && editing == Some(v)
      ensures old(showModal) && old(editing) == Some(v) ==> draft == old(draft)
      ensures !(old(showModal) && old(editing) == Some(v)) ==> draft == v.form
      ensures visits == old(visits)
      ensures statusFilter == old(statusFilter) && searchTerm == old(searchTerm)
    {
      if !(showModal && editing == Some(v)) {
        editing := Some(v);
        showModal := true;
        draft := DraftFor(editing);
      }
    }

    /** A text input's `onChange`: only that field of the draft changes. */
    method EditText(k: TextField, value: string)
      requires Valid() && showModal
      modifies this
      ensures Valid()
      ensures draft == WithText(old(draft), k, value)
      ensures visits == old(visits) && showModal == old(showModal) && editing == old(editing)
      ensures statusFilter == old(statusFilter) && searchTerm == old(searchTerm)
    {
      draft := WithText(draft, k, value);
    }

    /** The technician select's `onChange`. */
    method SetTechnician(t: Technician)
      requires Valid() && showModal
      modifies this
      ensures Valid()
      ensures draft == old(draft).(responsavel := t)
      ensures visits == old(visits) && showModal == old(showModal) && editing == old(editing)
      ensures statusFilter == old(statusFilter) && searchTerm == old(searchTerm)
    {
      draft := draft.(responsavel := t);
    }

    /** The move-type select's `onChange`. */
    method SetMoveType(m: MoveType)
      requires Valid() && showModal
      modifies this
      ensures Valid()
      ensures draft == old(draft).(tipoMudanca := m)
      ensures visits == old(visits) && showModal == old(showModal) && editing == old(editing)
      ensures statusFilter == old(statusFilter) && searchTerm == old(searchTerm)
    {
      draft := draft.(tipoMudanca := m);
    }

    /** The status select's `onChange` inside the modal. */
    method SetDraftStatus(s: Status)
      requires Valid() && showModal && !s.Other?
      modifies this
      ensures Valid()
      ensures draft == old(draft).(status := s)
      ensures visits == old(visits) && showModal == old(showModal) && editing == old(editing)
      ensures statusFilter == old(statusFilter) && searchTerm == old(searchTerm)
    {
      draft := draft.(status := s);
    }

    /** "Cancelar": closes the modal and drops the editing target; the
        stored visits are untouched. */
    method Cancel()
      requires Valid() && showModal
      modifies this
      ensures Valid()
      ensures !showModal && editing == None
      ensures visits == old(visits) && draft == old(draft)
      ensures statusFilter == old(statusFilter) && searchTerm == old(searchTerm)
    {
      showModal := false;
      editing := None;
    }

    /** The form's submit, `handleSaveVisita(formData)`. With an editing
        target, every visit with its id takes the draft's fields and keeps
        its id and calendar event; otherwise the draft is stored, first, under
        a fresh id and `eventId`. Either way the modal closes with no target. */
    method Save(eventId: string)
      requires Valid() && showModal
      modifies this
      ensures Valid()
      ensures visits == Saved(old(visits), old(editing), old(draft), eventId)
      ensures !showModal && editing == None
      ensures draft == old(draft)
      ensures statusFilter == old(statusFilter) && searchTerm == old(searchTerm)
    {
      var stored := Saved(visits, editing, draft, eventId);
      SaveKeepsUniqueIds(visits, editing, draft, eventId);
      visits := stored;
      showModal := false;
      editing := None;
    }

    /** The row's delete button, `handleDeleteVisita(id)`, with the answer to
        the confirmation dialog: on yes, the visits with that id go and the
        rest keep their order; on no, nothing changes. The filtered list is a
        new array, so a yes re-renders the page and, with the modal shown,
        remounts it with a fresh draft. */
    method Delete(id: int, confirmed: bool)
      requires Valid()
      modifies this
      ensures Valid()
      ensures confirmed ==> visits == Removed(old(visits), id)
      ensures !confirmed ==> visits == old(visits)
      ensures showModal == old(showModal) && editing == old(editing)
      ensures confirmed && old(showModal) ==> draft == DraftFor(old(editing))
      ensures !(confirmed && old(showModal)) ==> draft == old(draft)
      ensures statusFilter == old(statusFilter) && searchTerm == old(searchTerm)
    {
      if confirmed {
        RemoveKeepsUniqueIds(visits, id);
        visits := Removed(visits, id);
        if showModal {
          draft := DraftFor(editing);
        }
      }
    }
  }

  /** Editing a stored visit that the modal does not already edit, and
      saving its draft untouched, leaves the stored visits as they were. */
  method EditThenSaveUnchanged(page: VisitsPage, v: Visit, eventId: string)
    requires page.Valid() && v in page.visits
    requires !(page.showModal && page.editing == Some(v))
    modifies page
    ensures page.visits == old(page.visits)
    ensures page.Valid() && !page.showModal && page.editing == None
  {
    page.OpenEdit(v);
    UpdateWithUnchangedDraft(page.visits, v);
    page.Save(eventId);
  }

  /** Opening a row for editing, typing, and pressing its edit button again
      keeps the typed change, so saving stores it. */
  method EditReopenSave(page: VisitsPage, v: Visit, k: TextField, value: string,
                        eventId: string)
    requires page.Valid() && v in page.visits
    requires !(page.showModal && page.editing == Some(v))
    modifies page
    ensures page.visits == Updated(old(page.visits), v, WithText(v.form, k, value))
    ensures page.Valid() && !page.showModal && page.editing == None
  {
    page.OpenEdit(v);
    page.EditText(k, value);
    page.OpenEdit(v);
    page.Save(eventId);
  }

  /** Edits made in the modal are lost when the search term changes behind
      it: the remount copies the editing target again, so saving leaves the
      stored visits as they were. */
  method EditSearchSave(page: VisitsPage, v: Visit, k: TextField, value: string,
                        term: string, eventId: string)
    requires page.Valid() && v in page.visits && term != page.searchTerm
    modifies page
    ensures page.visits == old(page.visits)
    ensures page.Valid() && !page.showModal && page.editing == None
  {
    page.OpenEdit(v);
    page.EditText(k, value);
    page.SetSearchTerm(term);
    assert page.draft == v.form;
    UpdateWithUnchangedDraft(page.visits, v);
    page.Save(eventId);
  }

  /** The empty table tells the user to start scheduling exactly when the
      store is empty and neither the select nor the search narrows it. */
  lemma EmptyTableHint(page: VisitsPage)
    ensures (page.Shown() == [] && page.Hint() == StartScheduling) <==>
      (page.visits == [] && page.statusFilter == All && page.searchTerm == "")
  {
    StartSchedulingMeansEmptyStore(page.visits, page.statusFilter, page.searchTerm);
  }

  /** Opening a new visit and cancelling leaves the stored visits and the
      filters as they were, with the modal closed. */
  method OpenThenCancel(page: VisitsPage)
    requires page.Valid()
    modifies page
    ensures page.visits == old(page.visits)
    ensures page.Valid() && !page.showModal && page.editing == None
    ensures page.statusFilter == old(page.statusFilter) && page.searchTerm == old(page.searchTerm)
  {
    page.OpenNew();
    page.Cancel();
  }
}
