/**
 * The student card: the text shown for each field, with its fallback when the field is missing
 * or empty, the action buttons and the callbacks they call, and the hover state that reveals them.
 */
module AlunoCard {
  import opened Wrappers
  import opened Strings

  datatype Disciplina = Disciplina(id: int, nome: string)

  /** A student as the list and the card receive it; `None` is a property that is absent. The
    * list's school filter also reads an `escolaId` property, when the object has one. */
  datatype Aluno = Aluno(
    id: int, nome: string, matricula: Option<string>, escola: Option<string>,
    telefone: Option<string>, disciplinas: Option<seq<Disciplina>>,
    proximaAula: Option<string>, email: Option<string>, escolaId: Option<int>)

  /** An optional string is truthy when present and non-empty. */
  predicate Present(v: Option<string>) {
    v.Some? && v.value != ""
  }

  /** `v || fallback`. */
  function OrElse(v: Option<string>, fallback: string): string {
    if Present(v) then v.value else fallback
  }

  const NO_MATRICULA := "Não informada"
  const NO_ESCOLA := "Escola não informada"
  const NO_TELEFONE := "Telefone não informado"
  const NO_DISCIPLINA := "Sem disciplina"
  const NO_AULA := "Não agendada"

  function MatriculaText(a: Aluno): string {
    OrElse(a.matricula, NO_MATRICULA)
  }

  function EscolaText(a: Aluno): string {
    OrElse(a.escola, NO_ESCOLA)
  }

  function TelefoneText(a: Aluno): string {
    OrElse(a.telefone, NO_TELEFONE)
  }

  function Nomes(ds: seq<Disciplina>): (names: seq<string>)
    ensures |names| == |ds| && forall i :: 0 <= i < |ds| ==> names[i] == ds[i].nome
  {
    seq(|ds|, i requires 0 <= i < |ds| => ds[i].nome)
  }

  /** The subject names joined with ', ', in order, or the fallback for an absent or empty list. */
  function DisciplinasText(a: Aluno): (r: string)
    ensures a.disciplinas.None? || a.disciplinas.value == [] ==> r == NO_DISCIPLINA
    ensures a.disciplinas.Some? && |a.disciplinas.value| == 1 ==> r == a.disciplinas.value[0].nome
    ensures a.disciplinas.Some? && |a.disciplinas.value| > 0 ==> r == Join(Nomes(a.disciplinas.value), ", ")
  {
    if a.disciplinas.Some? && |a.disciplinas.value| > 0 then Join(Nomes(a.disciplinas.value), ", ")
    else NO_DISCIPLINA
  }

  /** `formatarProximaAula`: the fallback for a missing date; otherwise the date as the runtime's
    * `toLocaleDateString` renders it, which is given. */
  function ProximaAulaText(a: Aluno, localized: string): string {
    if !Present(a.proximaAula) then NO_AULA else localized
  }

  datatype Action = VerAulas | VisualizarPdf | Editar | Excluir

  /** Which optional callbacks the card was given. */
  datatype Callbacks = Callbacks(verAulas: bool, visualizarPdf: bool, editar: bool, excluir: bool)

  predicate Provided(cbs: Callbacks, action: Action) {
    match action
    case VerAulas => cbs.verAulas
    case VisualizarPdf => cbs.visualizarPdf
    case Editar => cbs.editar
    case Excluir => cbs.excluir
  }

  /** A click on an action: the argument its callback receives, or nothing when it has none. */
  function Dispatch(a: Aluno, cbs: Callbacks, action: Action): Option<int> {
    if Provided(cbs, action) then Some(a.id) else None
  }

  /** View, edit and delete appear with their callback; PDF always appears. */
  function ButtonShown(cbs: Callbacks, action: Action): bool {
    action == VisualizarPdf || Provided(cbs, action)
  }

  /**
   * A shown button passes the card no callback only when it is the PDF button without its
   * callback; that button then falls back to opening the student's agenda page itself.
   */
  lemma ShownButtonDispatch(a: Aluno, cbs: Callbacks, action: Action)
    requires ButtonShown(cbs, action)
    ensures Dispatch(a, cbs, action) == None <==> action == VisualizarPdf && !cbs.visualizarPdf
  {
  }

  /** Only a shown button ever calls its callback, and always with the student's id. */
  lemma DispatchOnlyShown(a: Aluno, cbs: Callbacks, action: Action)
    ensures Dispatch(a, cbs, action).Some? ==> ButtonShown(cbs, action) && Dispatch(a, cbs, action).value == a.id
  {
  }

  /** No text field of the card is blank: each is the student's own value or its fallback. */
  lemma FieldsNeverBlank(a: Aluno)
    ensures MatriculaText(a) != "" && (MatriculaText(a) == NO_MATRICULA || Some(MatriculaText(a)) == a.matricula)
    ensures EscolaText(a) != "" && (EscolaText(a) == NO_ESCOLA || Some(EscolaText(a)) == a.escola)
    ensures TelefoneText(a) != "" && (TelefoneText(a) == NO_TELEFONE || Some(TelefoneText(a)) == a.telefone)
  {
  }

  /** The card of a student with only an id and a name shows every fallback. */
  lemma MissingDataFallbacks(localized: string)
    ensures var a := Aluno(2, "Maria Souza", None, None, None, None, None, None, None);
      MatriculaText(a) == "Não informada" && EscolaText(a) == "Escola não informada"
      && TelefoneText(a) == "Telefone não informado" && DisciplinasText(a) == "Sem disciplina"
      && ProximaAulaText(a, localized) == "Não agendada"
  {
  }

  /** The card of a complete student shows its own values, subjects joined in order. */
  lemma CompleteDataTexts()
    ensures var a := Aluno(1, "João da Silva", Some("12345"), Some("Escola Estadual"),
                          Some("(11) 98765-4321"),
                          Some([Disciplina(1, "Matemática"), Disciplina(2, "Física")]),
                          Some("2023-12-20T14:30:00"), Some("joao@example.com"), None);
      MatriculaText(a) == "12345" && EscolaText(a) == "Escola Estadual"
      && TelefoneText(a) == "(11) 98765-4321" && DisciplinasText(a) == "Matemática, Física"
  {
    var ds := [Disciplina(1, "Matemática"), Disciplina(2, "Física")];
    NomesTwo(ds[0], ds[1]);
    JoinTwo("Matemática", "Física", ", ");
    assert "Matemática" + ", " + "Física" == "Matemática, Física";
  }

  lemma NomesTwo(x: Disciplina, y: Disciplina)
    ensures Nomes([x, y]) == [x.nome, y.nome]
  {
  }

  /** With all four callbacks, every button calls its callback with the student's id. */
  lemma AllCallbacksReceiveId(a: Aluno)
    ensures forall action :: Dispatch(a, Callbacks(true, true, true, true), action) == Some(a.id)
  {
  }

  /** The hover state of a card. */
  class CardState {
    var showActions: bool

    constructor ()
      ensures !showActions
    {
      showActions := false;
    }

    method MouseEnter()
      modifies this
      ensures showActions
    {
      showActions := true;
    }

    method MouseLeave()
      modifies this
      ensures !showActions
    {
      showActions := false;
    }
  }
}
