/**
 * The printable lesson agenda shown by the PDF viewer: the date as `DD-mmm-YY`, the Portuguese
 * weekday name, the school logo source and the table rows with their fallbacks. The PDF page
 * repeats these helpers verbatim and uses this module too.
 */
module Agenda {
  import opened Wrappers
  import opened Strings
  import opened Gregorian

  datatype Aula = Aula(id: int, dataAula: string, horario: string, disciplinaNome: string,
                       professorNome: Option<string>)

  const MESES: seq<string> := ["jan", "fev", "mar", "abr", "mai", "jun", "jul", "ago", "set", "out", "nov", "dez"]
  const DIAS_SEMANA: seq<string> :=
    ["domingo", "segunda-feira", "terça-feira", "quarta-feira", "quinta-feira", "sexta-feira", "sábado"]

  const DEFAULT_PROFESSOR := "Avyen Aramás Melgaço"
  const DEFAULT_INSTRUMENTO := "PIANO CLÁSSICO"
  const NO_AULAS := "Nenhuma aula agendada"

  /** The fields of a `YYYY-MM-DD` string, as `parseInt` reads each part of the split. */
  function Year(s: string): nat
    requires |s| == 10 && AllDigits(s[..4])
  {
    ParseDigits(s[..4])
  }

  function Month(s: string): nat
    requires |s| == 10 && AllDigits(s[5..7])
  {
    ParseDigits(s[5..7])
  }

  function Day(s: string): nat
    requires |s| == 10 && AllDigits(s[8..])
  {
    ParseDigits(s[8..])
  }

  /** A `YYYY-MM-DD` string of a real date, from year 100 on (`new Date` maps years below 100
    * to the twentieth century). */
  predicate IsIsoDate(s: string) {
    |s| == 10 && s[4] == '-' && s[7] == '-'
    && AllDigits(s[..4]) && AllDigits(s[5..7]) && AllDigits(s[8..])
    && ValidDate(Year(s), Month(s), Day(s)) && Year(s) >= 100
  }

  /** The three parts `split('-')` gives for such a string. */
  lemma IsoDateSplit(s: string)
    requires IsIsoDate(s)
    ensures Split(s, '-') == [s[..4], s[5..7], s[8..]]
  {
    assert '-' !in s[..4] by { forall i | 0 <= i < 4 ensures s[..4][i] != '-' { assert IsDigit(s[..4][i]); } }
    assert '-' !in s[5..7] by { forall i | 0 <= i < 2 ensures s[5..7][i] != '-' { assert IsDigit(s[5..7][i]); } }
    assert '-' !in s[8..] by { forall i | 0 <= i < 2 ensures s[8..][i] != '-' { assert IsDigit(s[8..][i]); } }
    assert s == s[..4] + ['-'] + s[5..7] + ['-'] + s[8..];
    SplitThree(s[..4], s[5..7], s[8..], '-');
  }

  /** `getFullYear().toString().slice(-2)`. */
  function LastTwoDigits(y: nat): (r: string)
    requires y >= 10
    ensures r == [DigitChar((y / 10) % 10), DigitChar(y % 10)]
  {
    var s := NatToString(y);
    assert s == NatToString(y / 10) + [DigitChar(y % 10)];
    LastDigit(y / 10);
    s[|s| - 2..]
  }

  lemma LastDigit(n: nat)
    ensures var s := NatToString(n); s[|s| - 1] == DigitChar(n % 10)
  {
  }

  /** `formatarData`: zero-padded day, the month's abbreviation and the year's last two digits. */
  function FormatarData(s: string): (r: string)
    requires IsIsoDate(s)
    ensures |r| == 9 && r[2] == '-' && r[6] == '-'
    ensures r[..2] == Pad2(Day(s)) && AllDigits(r[..2]) && ParseDigits(r[..2]) == Day(s)
    ensures r[3..6] == MESES[Month(s) - 1]
    ensures r[7..] == [DigitChar((Year(s) / 10) % 10), DigitChar(Year(s) % 10)]
  {
    var r := Pad2(Day(s)) + "-" + MESES[Month(s) - 1] + "-" + LastTwoDigits(Year(s));
    assert r[..2] == Pad2(Day(s));
    r
  }

  /** `formatarDiaSemana`: the name of the weekday, Sunday first. */
  function FormatarDiaSemana(s: string): (r: string)
    requires IsIsoDate(s)
    ensures r == DIAS_SEMANA[Weekday(Year(s), Month(s), Day(s))]
    ensures r in DIAS_SEMANA
  {
    DIAS_SEMANA[Weekday(Year(s), Month(s), Day(s))]
  }

  /** Dates a whole number of weeks apart have the same weekday name. */
  lemma SameWeekdayName(s: string, t: string, weeks: int)
    requires IsIsoDate(s) && IsIsoDate(t)
    requires DayNumber(Year(t), Month(t), Day(t)) == DayNumber(Year(s), Month(s), Day(s)) + 7 * weeks
    ensures FormatarDiaSemana(t) == FormatarDiaSemana(s)
  {
    WholeWeeks(DayNumber(Year(s), Month(s), Day(s)), weeks);
  }

  lemma WholeWeeks(a: int, weeks: int)
    ensures (a + 7 * weeks) % 7 == a % 7
  {
    var q, r := a / 7, a % 7;
    assert a + 7 * weeks == 7 * (q + weeks) + r;
  }

  datatype Environment = Development | Production

  /** Where the logo image comes from. */
  datatype LogoSource = DefaultLogo | UploadedLogo(path: string) | BundledLogo(fileName: string)

  /** `getEscolaLogo`: the default logo without a school logo; the upload path in production;
    * the bundled asset of that name in development. */
  function EscolaLogo(escolaLogo: Option<string>, env: Environment): LogoSource {
    if escolaLogo.None? || escolaLogo.value == "" then DefaultLogo
    else if env != Development then UploadedLogo("/uploads/logos/" + escolaLogo.value)
    else BundledLogo(escolaLogo.value)
  }

  /** The student fields the agenda header shows. */
  datatype AlunoInfo = AlunoInfo(nome: string, matricula: string, escolaLogo: Option<string>, escolaNome: Option<string>)

  const DEFAULT_ESCOLA := "Escola de Música Tutti Sonora"
  const NO_ALUNO := "Aluno não encontrado"
  const NO_MATRICULA := "N/A"

  /** The school name, student name and enrolment shown in the header, each with its fallback when
    * the student is not loaded or the field is empty. */
  function HeaderTexts(aluno: Option<AlunoInfo>): (r: (string, string, string))
    ensures aluno.None? ==> r == (DEFAULT_ESCOLA, NO_ALUNO, NO_MATRICULA)
    ensures aluno.Some? ==>
      r.0 == (if aluno.value.escolaNome.Some? && aluno.value.escolaNome.value != "" then aluno.value.escolaNome.value else DEFAULT_ESCOLA)
      && r.1 == (if aluno.value.nome != "" then aluno.value.nome else NO_ALUNO)
      && r.2 == (if aluno.value.matricula != "" then aluno.value.matricula else NO_MATRICULA)
    ensures r.0 != "" && r.1 != "" && r.2 != ""
  {
    match aluno
    case None => (DEFAULT_ESCOLA, NO_ALUNO, NO_MATRICULA)
    case Some(a) => (OrElse(a.escolaNome.GetOr(""), DEFAULT_ESCOLA), OrElse(a.nome, NO_ALUNO), OrElse(a.matricula, NO_MATRICULA))
  }

  /** The logo of a loaded student; the default one when none is loaded. */
  function AlunoLogo(aluno: Option<AlunoInfo>, env: Environment): LogoSource {
    if aluno.None? then DefaultLogo else EscolaLogo(aluno.value.escolaLogo, env)
  }

  /** The default logo shows exactly when there is no student or the student has no school logo. */
  lemma DefaultLogoExactlyMissing(aluno: Option<AlunoInfo>, env: Environment)
    ensures AlunoLogo(aluno, env) == DefaultLogo <==>
      aluno.None? || aluno.value.escolaLogo.None? || aluno.value.escolaLogo.value == ""
  {
  }

  datatype Row =
    | LessonRow(numero: nat, data: string, dia: string, hora: string, professora: string, instrumento: string)
    | EmptyRow(text: string)

  predicate AllIsoDates(aulas: seq<Aula>) {
    forall i :: 0 <= i < |aulas| ==> IsIsoDate(aulas[i].dataAula)
  }

  function OrElse(v: string, fallback: string): string {
    if v != "" then v else fallback
  }

  /** The table body: one numbered row per lesson, or the single empty-agenda row. */
  function Rows(aulas: seq<Aula>): (rows: seq<Row>)
    requires AllIsoDates(aulas)
    ensures aulas == [] ==> rows == [EmptyRow(NO_AULAS)]
    ensures aulas != [] ==> |rows| == |aulas|
    ensures aulas != [] ==> forall i :: 0 <= i < |aulas| ==>
      var a := aulas[i];
      rows[i] == LessonRow(i + 1, FormatarData(a.dataAula), FormatarDiaSemana(a.dataAula), a.horario,
                           OrElse(a.professorNome.GetOr(""), DEFAULT_PROFESSOR),
                           OrElse(a.disciplinaNome, DEFAULT_INSTRUMENTO))
  {
    if aulas == [] then [EmptyRow(NO_AULAS)]
    else (seq(|aulas|, i requires 0 <= i < |aulas| =>
      LessonRow(i + 1, FormatarData(aulas[i].dataAula), FormatarDiaSemana(aulas[i].dataAula), aulas[i].horario,
                OrElse(aulas[i].professorNome.GetOr(""), DEFAULT_PROFESSOR),
                OrElse(aulas[i].disciplinaNome, DEFAULT_INSTRUMENTO))))
  }

  /** Rows are numbered 1, 2, ... and a missing teacher or instrument shows the default one. */
  lemma RowFallbacks(aulas: seq<Aula>, i: int)
    requires AllIsoDates(aulas) && 0 <= i < |aulas|
    ensures var row := Rows(aulas)[i];
      row.LessonRow? && row.numero == i + 1
      && (aulas[i].professorNome.None? || aulas[i].professorNome == Some("") ==> row.professora == DEFAULT_PROFESSOR)
      && (aulas[i].disciplinaNome == "" ==> row.instrumento == DEFAULT_INSTRUMENTO)
  {
  }

  /** The development data of the viewer: three Wednesdays in March 2023. */
  const VIEWER_DATES: seq<string> := ["2023-03-15", "2023-03-22", "2023-03-29"]

  lemma IsoDateFields(s: string, y: nat, m: nat, d: nat)
    requires ValidDate(y, m, d) && 1000 <= y
    requires |s| == 10 && s[4] == '-' && s[7] == '-'
    requires s[..4] == NatToString(y) && s[5..7] == Pad2(m) && s[8..] == Pad2(d)
    ensures IsIsoDate(s) && Year(s) == y && Month(s) == m && Day(s) == d
  {
    ParseNatToString(y);
  }

  /** A date string of 2023, as the development data writes it. */
  lemma Date2023(s: string, m: nat, d: nat)
    requires ValidDate(2023, m, d)
    requires s == "2023-" + Pad2(m) + "-" + Pad2(d)
    ensures IsIsoDate(s) && Year(s) == 2023 && Month(s) == m && Day(s) == d
  {
    var y, a, b := "2023", Pad2(m), Pad2(d);
    assert s == y + "-" + a + "-" + b;
    IsoOfParts(y, a, b);
    YearString2023();
    IsoDateFields(s, 2023, m, d);
  }

  lemma YearString2023()
    ensures NatToString(2023) == "2023"
  {
  }

  /** How `formatarData` shows a date of 2023. */
  lemma FormatarData2023(s: string, m: nat, d: nat)
    requires ValidDate(2023, m, d)
    requires s == "2023-" + Pad2(m) + "-" + Pad2(d)
    ensures IsIsoDate(s) && FormatarData(s) == Pad2(d) + "-" + MESES[m - 1] + "-23"
  {
    Date2023(s, m, d);
    var r := FormatarData(s);
    YearDigits2023(s);
    DashedParts(r, Pad2(d), MESES[m - 1], "23");
  }

  lemma YearDigits2023(s: string)
    requires IsIsoDate(s) && Year(s) == 2023
    ensures FormatarData(s)[7..] == "23"
  {
    assert DigitChar((2023 / 10) % 10) == '2' && DigitChar(2023 % 10) == '3';
  }

  lemma DashedParts(r: string, a: string, b: string, c: string)
    requires |r| == 9 && r[2] == '-' && r[6] == '-'
    requires r[..2] == a && r[3..6] == b && r[7..] == c
    ensures r == a + "-" + b + "-" + c
  {
    assert r == r[..2] + "-" + r[3..6] + "-" + r[7..];
  }

  /** A 2023 date whose weekday number is 3 is named 'quarta-feira'. */
  lemma Wednesday2023(s: string, m: nat, d: nat)
    requires ValidDate(2023, m, d)
    requires s == "2023-" + Pad2(m) + "-" + Pad2(d)
    requires Weekday(2023, m, d) == 3
    ensures IsIsoDate(s) && FormatarDiaSemana(s) == "quarta-feira"
  {
    Date2023(s, m, d);
  }

  /** '2023-03-15' is shown as '15-mar-23', a Wednesday. */
  lemma FirstViewerDate()
    ensures IsIsoDate(VIEWER_DATES[0])
    ensures FormatarData(VIEWER_DATES[0]) == "15-mar-23"
    ensures FormatarDiaSemana(VIEWER_DATES[0]) == "quarta-feira"
  {
    MarchFifteenthShown(VIEWER_DATES[0]);
    MarchFifteenth(VIEWER_DATES[0]);
  }

  lemma MarchFifteenthShown(s: string)
    requires s == "2023-03-15"
    ensures IsIsoDate(s) && FormatarData(s) == "15-mar-23"
  {
    MarchFifteenthParts(s);
    FormatarData2023(s, 3, 15);
    MarchFifteenthText();
  }

  lemma MarchFifteenthParts(s: string)
    requires s == "2023-03-15"
    ensures s == "2023-" + Pad2(3) + "-" + Pad2(15)
  {
    assert Pad2(3) == "03" && Pad2(15) == "15";
  }

  lemma MarchFifteenthText()
    ensures Pad2(15) + "-" + MESES[2] + "-23" == "15-mar-23"
  {
    assert Pad2(15) == "15";
  }

  lemma MarchFifteenth(s: string)
    requires s == "2023-03-15"
    ensures IsIsoDate(s) && FormatarDiaSemana(s) == "quarta-feira"
  {
    MarchFifteenthParts(s);
    assert Weekday(2023, 3, 15) == 3;
    Wednesday2023(s, 3, 15);
  }

  lemma MarchTwentySecondParts(s: string)
    requires s == "2023-03-22"
    ensures s == "2023-" + Pad2(3) + "-" + Pad2(22)
  {
    assert Pad2(3) == "03" && Pad2(22) == "22";
  }

  lemma MarchTwentySecond(s: string)
    requires s == "2023-03-22"
    ensures IsIsoDate(s) && FormatarDiaSemana(s) == "quarta-feira"
  {
    MarchTwentySecondParts(s);
    assert Weekday(2023, 3, 22) == 3;
    Wednesday2023(s, 3, 22);
  }

  lemma MarchTwentyNinthParts(s: string)
    requires s == "2023-03-29"
    ensures s == "2023-" + Pad2(3) + "-" + Pad2(29)
  {
    assert Pad2(3) == "03" && Pad2(29) == "29";
  }

  lemma MarchTwentyNinth(s: string)
    requires s == "2023-03-29"
    ensures IsIsoDate(s) && FormatarDiaSemana(s) == "quarta-feira"
  {
    MarchTwentyNinthParts(s);
    assert Weekday(2023, 3, 29) == 3;
    Wednesday2023(s, 3, 29);
  }

  /** The three development dates, a week apart, all fall on a Wednesday. */
  lemma ViewerDatesWednesdays()
    ensures forall i :: 0 <= i < |VIEWER_DATES| ==>
      IsIsoDate(VIEWER_DATES[i]) && FormatarDiaSemana(VIEWER_DATES[i]) == "quarta-feira"
  {
    MarchFifteenth(VIEWER_DATES[0]);
    MarchTwentySecond(VIEWER_DATES[1]);
    MarchTwentyNinth(VIEWER_DATES[2]);
    forall i | 0 <= i < |VIEWER_DATES|
      ensures IsIsoDate(VIEWER_DATES[i]) && FormatarDiaSemana(VIEWER_DATES[i]) == "quarta-feira"
    {
      assert i == 0 || i == 1 || i == 2;
    }
  }
}
