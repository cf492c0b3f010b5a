/**
 * The visit record of the "Visitas Técnicas" screen (frontend/src/pages/Visitas.jsx),
 * its enumerated fields, and the draft the modal form edits.
 */
module VisitModel {

  datatype Option<T> = None | Some(value: T)

  /** A status string that is none of the three the screen knows. */
  type OtherName = s: string | s != "agendada" && s != "realizada" && s != "cancelada"
    witness ""

  /** `visita.status`. The screen only ever writes the three named values;
      `Other` stands for any other string, which `getStatusColor` and
      `getStatusIcon` handle in their `default:` branch. */
  datatype Status = Agendada | Realizada | Cancelada | Other(name: OtherName)

  /** The string the source stores for a status. */
  function StatusName(s: Status): string
  {
    match s
    case Agendada => "agendada"
    case Realizada => "realizada"
    case Cancelada => "cancelada"
    case Other(n) => n
  }

  /** Reads a status string back. */
  function StatusOf(name: string): Status
  {
    if name == "agendada" then Agendada
    else if name == "realizada" then Realizada
    else if name == "cancelada" then Cancelada
    else Other(name)
  }

  /** Every status string corresponds to exactly one status, so comparing
      statuses is comparing the strings the source compares. */
  lemma StatusNameRoundTrip(s: Status, name: string)
    ensures StatusOf(StatusName(s)) == s
    ensures StatusName(StatusOf(name)) == name
    ensures StatusOf(name) == s <==> StatusName(s) == name
  {
  }

  /** `visita.responsavel`: the technicians offered by the form's select. */
  datatype Technician = Kenneth | Douglas | Maciel | Diego

  /** `visita.tipoMudanca`: the move categories offered by the form's select. */
  datatype MoveType = Residencial | Comercial | SelfStorage

  /** The ten fields the modal form edits. */
  datatype Form = Form(
    cliente: string,
    telefone: string,
    email: string,
    endereco: string,
    data: string,
    hora: string,
    responsavel: Technician,
    status: Status,
    observacoes: string,
    tipoMudanca: MoveType)

  /** A stored visit: the form's fields plus the id and the calendar event id
      the screen assigns when the visit is created. */
  datatype Visit = Visit(id: int, form: Form, googleEventId: string)

  /** The free-text fields of the form, each bound to one text input. */
  datatype TextField = Cliente | Telefone | Email | Endereco | Data | Hora | Observacoes

  /** The value a text input shows. */
  function Text(f: Form, k: TextField): string
  {
    match k
    case Cliente => f.cliente
    case Telefone => f.telefone
    case Email => f.email
    case Endereco => f.endereco
    case Data => f.data
    case Hora => f.hora
    case Observacoes => f.observacoes
  }

  /** `setFormData({...formData, <field>: value})` for a text input: the named
      field takes the value and every other field keeps its own. */
  function WithText(f: Form, k: TextField, value: string): (r: Form)
    ensures Text(r, k) == value
    ensures forall k' :: k' != k ==> Text(r, k') == Text(f, k')
    ensures r.responsavel == f.responsavel && r.status == f.status && r.tipoMudanca == f.tipoMudanca
  {
    match k
    case Cliente => f.(cliente := value)
    case Telefone => f.(telefone := value)
    case Email => f.(email := value)
    case Endereco => f.(endereco := value)
    case Data => f.(data := value)
    case Hora => f.(hora := value)
    case Observacoes => f.(observacoes := value)
  }

  /** Writing back what a field already shows changes nothing, and the last
      of two writes to one field wins. */
  lemma WithTextLaws(f: Form, k: TextField, a: string, b: string)
    ensures WithText(f, k, Text(f, k)) == f
    ensures WithText(WithText(f, k, a), k, b) == WithText(f, k, b)
  {
  }

  /** The initial `formData` of the modal. */
  function DefaultDraft(): Form
  {
    Form("", "", "", "", "", "", Kenneth, Agendada, "", Residencial)
  }

  /** The draft the modal shows once it is mounted: a copy of the visit being
      edited if there is one, otherwise the defaults. */
  function DraftFor(editing: Option<Visit>): (d: Form)
    ensures editing.Some? ==> d == editing.value.form
    ensures editing.None? ==>
      (forall k :: Text(d, k) == "") &&
      d.responsavel == Kenneth && d.status == Agendada && d.tipoMudanca == Residencial
  {
    if editing.Some? then editing.value.form else DefaultDraft()
  }
}
