/**
 * `filteredVisitas` (frontend/src/pages/Visitas.jsx:136-141): the rows the
 * table shows, derived from the stored visits, the status select and the
 * search box.
 */
module Projector {
  import opened Sequences
  import opened Strings
  import opened VisitModel

  /** The status select: "todas" or one status. */
  datatype StatusFilter = All | Only(status: Status)

  /** Reads the select's string value. */
  function FilterOf(value: string): StatusFilter
  {
    if value == "todas" then All else Only(StatusOf(value))
  }

  /** `matchesStatus`. */
  predicate StatusMatches(f: StatusFilter, s: Status)
  {
    f.All? || f.status == s
  }

  /** On the strings the source handles, `StatusMatches` is
      `filtroStatus === 'todas' || visita.status === filtroStatus`. */
  lemma StatusMatchesAsWritten(value: string, s: Status)
    ensures StatusMatches(FilterOf(value), s) <==> value == "todas" || StatusName(s) == value
  {
    StatusNameRoundTrip(s, value);
  }

  /** `matchesSearch`. */
  predicate SearchMatches(v: Visit, term: string)
  {
    Includes(Lower(v.form.cliente), Lower(term)) || Includes(Lower(v.form.endereco), Lower(term))
  }

  /** An empty search term matches every visit. */
  lemma EmptyTermMatches(v: Visit)
    ensures SearchMatches(v, "")
  {
    assert Lower("") == "";
    IncludesEmpty(Lower(v.form.cliente));
  }

  /** The callback given to `visitas.filter`. */
  predicate Matches(v: Visit, f: StatusFilter, term: string)
  {
    StatusMatches(f, v.form.status) && SearchMatches(v, term)
  }

  /** The shown rows. A visit is shown exactly when its status passes the
      select and the lower-cased term occurs in its lower-cased client name or
      address; every shown row is shown as often as it is stored, and in the
      stored order. */
  function Filtered(vs: seq<Visit>, f: StatusFilter, term: string): (r: seq<Visit>)
    ensures forall v :: v in r <==>
      v in vs &&
      (f.All? || v.form.status == f.status) &&
      (IsSubstring(Lower(term), Lower(v.form.cliente)) || IsSubstring(Lower(term), Lower(v.form.endereco)))
    ensures forall v :: multiset(r)[v] == if Matches(v, f, term) then multiset(vs)[v] else 0
    ensures IsSubsequence(r, vs)
  {
    KeepCounts(vs, v => Matches(v, f, term));
    KeepIsSubsequence(vs, v => Matches(v, f, term));
    Keep(vs, v => Matches(v, f, term))
  }

  /** "todas" with an empty search shows every stored visit, in order. */
  lemma ShowAll(vs: seq<Visit>)
    ensures Filtered(vs, All, "") == vs
  {
    forall v | v in vs ensures Matches(v, All, "") {
      EmptyTermMatches(v);
    }
    KeepAll(vs, v => Matches(v, All, ""));
  }

  /** A status with an empty search shows exactly the visits with that status. */
  lemma ShowStatus(vs: seq<Visit>, s: Status)
    ensures Filtered(vs, Only(s), "") == Keep(vs, (v: Visit) => v.form.status == s)
  {
    forall v | v in vs ensures Matches(v, Only(s), "") <==> v.form.status == s {
      EmptyTermMatches(v);
    }
    KeepCongruent(vs, v => Matches(v, Only(s), ""), (v: Visit) => v.form.status == s);
  }

  /** The two tests are ANDed: searching the status-filtered rows under
      "todas" gives the same rows as applying both at once. */
  lemma StatusThenSearch(vs: seq<Visit>, f: StatusFilter, term: string)
    ensures Filtered(Filtered(vs, f, ""), All, term) == Filtered(vs, f, term)
  {
    forall v | v in vs ensures Matches(v, f, term) <==> Matches(v, f, "") && Matches(v, All, term) {
      EmptyTermMatches(v);
    }
    KeepKeep(vs, v => Matches(v, f, ""), v => Matches(v, All, term), v => Matches(v, f, term));
  }

  /** The search ignores the case of the term. */
  lemma SearchIgnoresCase(vs: seq<Visit>, f: StatusFilter, term: string)
    ensures Filtered(vs, f, Lower(term)) == Filtered(vs, f, term)
  {
    LowerIdempotent(term);
    KeepCongruent(vs, v => Matches(v, f, Lower(term)), v => Matches(v, f, term));
  }
}
