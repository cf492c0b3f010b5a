/**
 * `getStatusColor` and `getStatusIcon` (frontend/src/pages/Visitas.jsx:92-107),
 * and the hint shown when no row is left (frontend/src/pages/Visitas.jsx:512-520).
 */
module StatusStyle {
  import opened VisitModel
  import opened Projector

  /** The colour family of a status badge. */
  datatype Color = Blue | Green | Red | Gray

  /** The badge icon, as a tag. */
  datatype Icon = Clock | CheckCircle | XCircle | AlertCircle

  /** `getStatusColor`, as a colour family. */
  function StatusColor(s: Status): Color
  {
    match s
    case Agendada => Blue
    case Realizada => Green
    case Cancelada => Red
    case Other(_) => Gray
  }

  /** `getStatusIcon`, as an icon tag. */
  function StatusIcon(s: Status): Icon
  {
    match s
    case Agendada => Clock
    case Realizada => CheckCircle
    case Cancelada => XCircle
    case Other(_) => AlertCircle
  }

  /** The CSS classes each colour stands for. */
  function ColorClasses(c: Color): string
  {
    match c
    case Blue => "bg-blue-100 text-blue-800"
    case Green => "bg-green-100 text-green-800"
    case Red => "bg-red-100 text-red-800"
    case Gray => "bg-gray-100 text-gray-800"
  }

  /** `getStatusColor(status)` on the status string itself: each of the three
      known strings gets its own classes and every other string the gray ones. */
  function StatusClasses(name: string): (c: string)
    ensures name == "agendada" ==> c == "bg-blue-100 text-blue-800"
    ensures name == "realizada" ==> c == "bg-green-100 text-green-800"
    ensures name == "cancelada" ==> c == "bg-red-100 text-red-800"
    ensures name != "agendada" && name != "realizada" && name != "cancelada" ==>
      c == "bg-gray-100 text-gray-800"
  {
    ColorClasses(StatusColor(StatusOf(name)))
  }

  /** The fallback styling is used exactly for the statuses the screen does
      not know, and the three known statuses are told apart by colour and by
      icon alike. */
  lemma StyleSeparatesStatuses(s: Status, t: Status)
    ensures StatusColor(s) == Gray <==> s.Other?
    ensures StatusIcon(s) == AlertCircle <==> s.Other?
    ensures !s.Other? && !t.Other? ==> (StatusColor(s) == StatusColor(t) <==> s == t)
    ensures StatusColor(s) == StatusColor(t) <==> StatusIcon(s) == StatusIcon(t)
  {
  }

  /** The two messages of the empty table. */
  datatype EmptyHint = AdjustFilters | StartScheduling

  /** `searchTerm || filtroStatus !== 'todas'` picks the message. */
  function EmptyHintFor(f: StatusFilter, term: string): EmptyHint
  {
    if term != "" || f != All then AdjustFilters else StartScheduling
  }

  /** The "start scheduling" message is shown, with no row, exactly when the
      store is empty. */
  lemma StartSchedulingMeansEmptyStore(vs: seq<Visit>, f: StatusFilter, term: string)
    ensures (Filtered(vs, f, term) == [] && EmptyHintFor(f, term) == StartScheduling) <==>
      (vs == [] && f == All && term == "")
  {
    if f == All && term == "" {
      ShowAll(vs);
    }
  }
}
