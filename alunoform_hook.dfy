/**
 * The student-form hook: the form record and its field errors, the conversion of the calendar's
 * selection into lesson records, validation before submit, and the payload sent to the API.
 * Loading the lists of schools and subjects and the API calls themselves are not modelled; the
 * loaded lists are fields of the state.
 */
module AlunoFormHook {
  import opened Wrappers
  import opened Strings
  import opened OrderedMap
  import opened Validations

  /** A lesson: a `YYYY-MM-DD` date, an `HH:MM` time and the subject taught (or null). */
  datatype Aula = Aula(data: string, horario: string, disciplinaId: Option<int>)

  /** `escolaId`: null, a number, or the NaN `parseInt` gives for a value without digits. */
  datatype SchoolId = NoSchool | SchoolNumber(n: int) | NotANumber

  datatype AlunoFormData = AlunoFormData(
    nome: string, email: string, telefone: string, escola: string, escolaId: SchoolId,
    disciplinas: seq<int>, matricula: string, aulas: seq<Aula>)

  /** An entry of the loaded list of schools or of subjects. */
  datatype Named = Named(id: int, nome: string)

  /** A subject in the payload sent to the API. */
  datatype DisciplinaRef = DisciplinaRef(id: int, nome: string)

  datatype AlunoPayload = AlunoPayload(
    nome: string, email: string, telefone: string, escola: string, escolaId: SchoolId,
    matricula: string, disciplinas: seq<DisciplinaRef>, aulas: seq<Aula>)

  const EMPTY_FORM := AlunoFormData("", "", "", "", NoSchool, [], "", [])
  const CORRECTION_MESSAGE := "Por favor, corrija os erros no formulário antes de continuar."

  /** The rule map of `validateFormData`. */
  const ALUNO_RULES: RuleSet := [
    ("nome", [Required("Nome"), MaxLength(100, "Nome")]),
    ("email", [Email]),
    ("telefone", [Telefone]),
    ("matricula", [MaxLength(20, "Matrícula")])
  ]

  /** The string fields of the form, as `validateForm` reads them by name. */
  function FormValues(f: AlunoFormData): map<string, string> {
    map["nome" := f.nome, "email" := f.email, "telefone" := f.telefone,
        "escola" := f.escola, "matricula" := f.matricula]
  }

  /** The lessons of a calendar selection: one per entry, in the map's order. */
  function AulasFromSelection(selected: Entries, disciplinas: seq<int>): (aulas: seq<Aula>)
    ensures |aulas| == |selected|
  {
    var disciplinaId := if |disciplinas| > 0 then Some(disciplinas[0]) else None;
    seq(|selected|, i requires 0 <= i < |selected| => Aula(selected[i].0, selected[i].1, disciplinaId))
  }

  /**
   * The lesson list reproduces the selection: entry i gives lesson i with that date and time,
   * all with the first selected subject (or none); distinct dates stay distinct.
   */
  lemma AulasMatchSelection(selected: Entries, disciplinas: seq<int>)
    ensures var aulas := AulasFromSelection(selected, disciplinas);
      (forall i :: 0 <= i < |aulas| ==> (aulas[i].data, aulas[i].horario) == selected[i])
      && (forall i :: 0 <= i < |aulas| ==>
            aulas[i].disciplinaId == if disciplinas == [] then None else Some(disciplinas[0]))
      && (UniqueKeys(selected) ==> forall i, j :: 0 <= i < j < |aulas| ==> aulas[i].data != aulas[j].data)
  {
    if UniqueKeys(selected) {
      forall i, j | 0 <= i < j < |selected| ensures selected[i].0 != selected[j].0 {
        UniqueKeysDistinct(selected, i, j);
      }
    }
  }

  lemma {:induction false} UniqueKeysDistinct(e: Entries, i: int, j: int)
    requires UniqueKeys(e) && 0 <= i < j < |e|
    ensures e[i].0 != e[j].0
  {
    if i == 0 {
      assert e[1..][j - 1] == e[j];
      HasAt(e[1..], e[0].0);
    } else {
      assert e[1..][i - 1] == e[i] && e[1..][j - 1] == e[j];
      UniqueKeysDistinct(e[1..], i - 1, j - 1);
    }
  }

  /** `list.find(x => x.id === id)?.nome || ''`: the name of the first entry with that id. */
  function FindNome(list: seq<Named>, id: int): (nome: string)
    ensures (forall k :: 0 <= k < |list| ==> list[k].id != id) ==> nome == ""
    ensures forall k :: 0 <= k < |list| && list[k].id == id && (forall j :: 0 <= j < k ==> list[j].id != id)
              ==> nome == list[k].nome
  {
    if list == [] then ""
    else if list[0].id == id then list[0].nome
    else
      var r := FindNome(list[1..], id);
      FirstMatchInTail(list, id);
      r
  }

  /** Past a first entry with another id, the first match of the list is the first match of its tail. */
  lemma FirstMatchInTail(list: seq<Named>, id: int)
    requires list != [] && list[0].id != id
    ensures forall k :: 0 <= k < |list| && list[k].id == id && (forall j :: 0 <= j < k ==> list[j].id != id) ==>
      k >= 1 && list[1..][k - 1] == list[k] && (forall j :: 0 <= j < k - 1 ==> list[1..][j].id != id)
  {
    forall k | 0 <= k < |list| && list[k].id == id && (forall j :: 0 <= j < k ==> list[j].id != id)
      ensures k >= 1 && list[1..][k - 1] == list[k] && (forall j :: 0 <= j < k - 1 ==> list[1..][j].id != id)
    {
      forall j | 0 <= j < k - 1 ensures list[1..][j].id != id {
        assert list[1..][j] == list[j + 1];
      }
    }
  }

  /** `parseInt` of a `<select>` value: the leading decimal digits; NaN when there are none. */
  function ParseIntPrefix(s: string): SchoolId {
    var n := DigitPrefixLength(s);
    if n == 0 then NotANumber else SchoolNumber(ParseDigits(s[..n]))
  }

  function DigitPrefixLength(s: string): (n: nat)
    ensures n <= |s| && AllDigits(s[..n])
    ensures n < |s| ==> !IsDigit(s[n])
  {
    if s == [] || !IsDigit(s[0]) then 0
    else
      var m := DigitPrefixLength(s[1..]);
      assert s[..m + 1] == [s[0]] + s[1..][..m];
      m + 1
  }

  /** The school id and name `handleEscolaChange` stores for a selected option value. */
  function EscolaChoice(value: string, escolas: seq<Named>): (r: (SchoolId, string))
    ensures value == "" ==> r == (NoSchool, "")
    ensures value != "" ==> r.0 == ParseIntPrefix(value)
    ensures r.0.SchoolNumber? && r.0.n != 0 ==> r.1 == FindNome(escolas, r.0.n)
    ensures !(r.0.SchoolNumber? && r.0.n != 0) ==> r.1 == ""
  {
    var escolaId := if value != "" then ParseIntPrefix(value) else NoSchool;
    var escolaNome := if escolaId.SchoolNumber? && escolaId.n != 0 then FindNome(escolas, escolaId.n) else "";
    (escolaId, escolaNome)
  }

  /** The subject ids of the form, each with its name from the loaded list ('' when unknown). */
  function DisciplinaRefs(ids: seq<int>, disciplinas: seq<Named>): (refs: seq<DisciplinaRef>)
    ensures |refs| == |ids|
    ensures forall i :: 0 <= i < |ids| ==> refs[i].id == ids[i] && refs[i].nome == FindNome(disciplinas, ids[i])
  {
    seq(|ids|, i requires 0 <= i < |ids| => DisciplinaRef(ids[i], FindNome(disciplinas, ids[i])))
  }

  /** `prepareAlunoData`: the form's fields, with subjects resolved to id and name. */
  function PrepareAlunoData(f: AlunoFormData, disciplinas: seq<Named>): (p: AlunoPayload)
    ensures p.nome == f.nome && p.email == f.email && p.telefone == f.telefone && p.escola == f.escola
    ensures p.escolaId == f.escolaId && p.matricula == f.matricula && p.aulas == f.aulas
    ensures |p.disciplinas| == |f.disciplinas|
    ensures forall i :: 0 <= i < |f.disciplinas| ==> p.disciplinas[i].id == f.disciplinas[i]
    ensures forall i :: 0 <= i < |f.disciplinas| ==>
      ((forall k :: 0 <= k < |disciplinas| ==> disciplinas[k].id != f.disciplinas[i]) ==> p.disciplinas[i].nome == "")
  {
    AlunoPayload(f.nome, f.email, f.telefone, f.escola, f.escolaId, f.matricula,
                 DisciplinaRefs(f.disciplinas, disciplinas), f.aulas)
  }

  lemma RuleFieldsDistinct()
    ensures UniqueFields(ALUNO_RULES)
  {
  }

  /** The form is valid iff nome is non-blank and at most 100 characters, e-mail and telephone
    * are empty or well formed, and matricula has at most 20 characters. */
  lemma AlunoFormValidIff(f: AlunoFormData)
    ensures |FormErrors(FormValues(f), ALUNO_RULES)| == 0 <==>
      (Test(Required("Nome"), Some(f.nome)) && Test(MaxLength(100, "Nome"), Some(f.nome))
       && Test(Email, Some(f.email)) && Test(Telefone, Some(f.telefone))
       && Test(MaxLength(20, "Matrícula"), Some(f.matricula)))
  {
    var values := FormValues(f);
    FormErrorsEmptyIff(values, ALUNO_RULES);
    FourFields(values, ALUNO_RULES);
    FormValuesFields(f);
    TwoRules(Some(f.nome), Required("Nome"), MaxLength(100, "Nome"));
    OneRule(Some(f.email), Email);
    OneRule(Some(f.telefone), Telefone);
    OneRule(Some(f.matricula), MaxLength(20, "Matrícula"));
  }

  /** What `validateForm` reads for each field of the rule map. */
  lemma FormValuesFields(f: AlunoFormData)
    ensures FieldValue(FormValues(f), "nome") == Some(f.nome)
    ensures FieldValue(FormValues(f), "email") == Some(f.email)
    ensures FieldValue(FormValues(f), "telefone") == Some(f.telefone)
    ensures FieldValue(FormValues(f), "matricula") == Some(f.matricula)
  {
  }

  /** All the fields of a four-field rule map pass iff each of the four does. */
  lemma FourFields(values: map<string, string>, rs: RuleSet)
    requires |rs| == 4
    ensures (forall i :: 0 <= i < |rs| ==> FieldOutcome(FieldValue(values, rs[i].0), rs[i].1).isValid) <==>
      FieldOutcome(FieldValue(values, rs[0].0), rs[0].1).isValid
      && FieldOutcome(FieldValue(values, rs[1].0), rs[1].1).isValid
      && FieldOutcome(FieldValue(values, rs[2].0), rs[2].1).isValid
      && FieldOutcome(FieldValue(values, rs[3].0), rs[3].1).isValid
  {
    if FieldOutcome(FieldValue(values, rs[0].0), rs[0].1).isValid
      && FieldOutcome(FieldValue(values, rs[1].0), rs[1].1).isValid
      && FieldOutcome(FieldValue(values, rs[2].0), rs[2].1).isValid
      && FieldOutcome(FieldValue(values, rs[3].0), rs[3].1).isValid
    {
      forall i | 0 <= i < |rs| ensures FieldOutcome(FieldValue(values, rs[i].0), rs[i].1).isValid {
        assert i == 0 || i == 1 || i == 2 || i == 3;
      }
    }
  }

  lemma OneRule(v: Value, r: Rule)
    ensures FieldOutcome(v, [r]).isValid <==> Test(r, v)
  {
    assert [r][1..] == [];
  }

  lemma TwoRules(v: Value, r1: Rule, r2: Rule)
    ensures FieldOutcome(v, [r1, r2]).isValid <==> Test(r1, v) && Test(r2, v)
  {
    assert [r1, r2][1..] == [r2];
    OneRule(v, r2);
  }

  class AlunoForm {
    var formData: AlunoFormData
    var fieldErrors: map<string, string>
    var error: string
    var success: string
    var submitting: bool
    var escolas: seq<Named>
    var disciplinas: seq<Named>

    /** A new-student form before anything is loaded or typed. */
    constructor ()
      ensures formData == EMPTY_FORM && fieldErrors == map[] && error == "" && success == ""
      ensures !submitting && escolas == [] && disciplinas == []
    {
      formData := EMPTY_FORM;
      fieldErrors := map[];
      error, success := "", "";
      submitting := false;
      escolas, disciplinas := [], [];
    }

    /** The calendar's callback: only `aulas` is replaced. */
    method HandleDateSelect(selected: Entries)
      modifies this
      ensures formData == old(formData).(aulas := AulasFromSelection(selected, old(formData).disciplinas))
      ensures fieldErrors == old(fieldErrors) && error == old(error) && success == old(success)
      ensures submitting == old(submitting) && escolas == old(escolas) && disciplinas == old(disciplinas)
    {
      formData := formData.(aulas := AulasFromSelection(selected, formData.disciplinas));
    }

    /** Runs the rules, stores the error map and reports whether it is empty. */
    method ValidateFormData() returns (ok: bool)
      modifies this
      ensures fieldErrors == FormErrors(FormValues(formData), ALUNO_RULES)
      ensures ok <==> |fieldErrors| == 0
      ensures formData == old(formData) && error == old(error) && success == old(success)
      ensures submitting == old(submitting) && escolas == old(escolas) && disciplinas == old(disciplinas)
    {
      var errors := ValidateForm(FormValues(formData), ALUNO_RULES);
      fieldErrors := errors;
      ok := |errors| == 0;
    }

    /** Drops the error of one field, if it has a (non-empty) one; nothing else changes. */
    method ClearFieldError(fieldName: string)
      modifies this
      ensures if fieldName in old(fieldErrors) && old(fieldErrors)[fieldName] != ""
        then fieldErrors == old(fieldErrors) - {fieldName}
        else fieldErrors == old(fieldErrors)
      ensures fieldName !in old(fieldErrors) ==> fieldErrors == old(fieldErrors)
      ensures formData == old(formData) && error == old(error) && success == old(success)
      ensures submitting == old(submitting) && escolas == old(escolas) && disciplinas == old(disciplinas)
    {
      if fieldName in fieldErrors && fieldErrors[fieldName] != "" {
        fieldErrors := fieldErrors - {fieldName};
      }
    }

    /** A school chosen in the select: id and name are set together, the school error cleared. */
    method HandleEscolaChange(value: string)
      modifies this
      ensures (formData.escolaId, formData.escola) == EscolaChoice(value, old(escolas))
      ensures formData == old(formData).(escolaId := formData.escolaId, escola := formData.escola)
      ensures value == "" ==> formData.escolaId == NoSchool && formData.escola == ""
      ensures if "escola" in old(fieldErrors) && old(fieldErrors)["escola"] != ""
        then fieldErrors == old(fieldErrors) - {"escola"}
        else fieldErrors == old(fieldErrors)
      ensures error == old(error) && success == old(success)
      ensures submitting == old(submitting) && escolas == old(escolas) && disciplinas == old(disciplinas)
    {
      var (escolaId, escolaNome) := EscolaChoice(value, escolas);
      formData := formData.(escolaId := escolaId, escola := escolaNome);
      ClearFieldError("escola");
    }

    /**
     * The synchronous part of `handleSubmit`: clear the messages and validate; an invalid form
     * sets the correction message and stops before `submitting` is set.
     */
    method SubmitBegin() returns (proceed: bool)
      modifies this
      ensures proceed <==> |FormErrors(FormValues(old(formData)), ALUNO_RULES)| == 0
      ensures fieldErrors == FormErrors(FormValues(old(formData)), ALUNO_RULES)
      ensures !proceed ==> error == CORRECTION_MESSAGE && submitting == old(submitting)
      ensures proceed ==> error == "" && submitting
      ensures success == "" && formData == old(formData)
      ensures escolas == old(escolas) && disciplinas == old(disciplinas)
    {
      error := "";
      success := "";
      var ok := ValidateFormData();
      if !ok {
        error := CORRECTION_MESSAGE;
        return false;
      }
      submitting := true;
      return true;
    }
  }
}
