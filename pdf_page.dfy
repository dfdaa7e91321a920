/**
 * The full-page printable agenda: the route id starts the load or, when it is missing, the page
 * shows its error; the loader's outcome ends the spinner. The page formats its table with the
 * agenda helpers it shares with the PDF viewer.
 */
module PdfPage {
  import opened Wrappers
  import opened Strings
  import opened Gregorian
  import opened Agenda

  const NO_ID := "ID do aluno não fornecido"
  const LOAD_ERROR_PREFIX := "Erro ao carregar dados: "

  /** The lesson dates of the page's development data: five Wednesdays, a week apart. */
  const PAGE_DATES: seq<string> := ["2023-03-15", "2023-03-22", "2023-03-29", "2023-04-05", "2023-04-12"]

  /** What the page renders: the spinner, the error box, or the agenda itself. */
  datatype Screen = Spinner | ErrorScreen(message: string) | AgendaScreen

  predicate Wednesday(s: string) {
    IsIsoDate(s) && FormatarDiaSemana(s) == "quarta-feira"
  }

  /** The five development dates all fall on a Wednesday, across the end of March. */
  lemma PageDatesWednesdays()
    ensures forall i :: 0 <= i < |PAGE_DATES| ==> Wednesday(PAGE_DATES[i])
  {
    PageDatesMarch();
    PageDatesApril();
    forall i | 0 <= i < |PAGE_DATES|
      ensures Wednesday(PAGE_DATES[i])
    {
      assert i == 0 || i == 1 || i == 2 || i == 3 || i == 4;
    }
  }

  lemma PageDatesMarch()
    ensures Wednesday(PAGE_DATES[0]) && Wednesday(PAGE_DATES[1]) && Wednesday(PAGE_DATES[2])
  {
    ViewerDatesWednesdays();
    assert PAGE_DATES[..3] == VIEWER_DATES;
    assert Wednesday(VIEWER_DATES[0]) && Wednesday(VIEWER_DATES[1]) && Wednesday(VIEWER_DATES[2]);
  }

  lemma PageDatesApril()
    ensures Wednesday(PAGE_DATES[3]) && Wednesday(PAGE_DATES[4])
  {
    AprilFifth(PAGE_DATES[3]);
    AprilTwelfth(PAGE_DATES[4]);
  }

  lemma AprilFifthParts(s: string)
    requires s == "2023-04-05"
    ensures s == "2023-" + Pad2(4) + "-" + Pad2(5)
  {
    assert Pad2(4) == "04" && Pad2(5) == "05";
  }

  lemma AprilTwelfthParts(s: string)
    requires s == "2023-04-12"
    ensures s == "2023-" + Pad2(4) + "-" + Pad2(12)
  {
    assert Pad2(4) == "04" && Pad2(12) == "12";
  }

  lemma AprilFifth(s: string)
    requires s == "2023-04-05"
    ensures Wednesday(s)
  {
    AprilFifthParts(s);
    assert Weekday(2023, 4, 5) == 3;
    Wednesday2023(s, 4, 5);
  }

  lemma AprilTwelfth(s: string)
    requires s == "2023-04-12"
    ensures Wednesday(s)
  {
    AprilTwelfthParts(s);
    assert Weekday(2023, 4, 12) == 3;
    Wednesday2023(s, 4, 12);
  }

  /** '2023-04-05' is shown as '05-abr-23': the zero-padded day and April's abbreviation. */
  lemma FifthOfApril()
    ensures IsIsoDate(PAGE_DATES[3]) && FormatarData(PAGE_DATES[3]) == "05-abr-23"
  {
    AprilFifthParts(PAGE_DATES[3]);
    FormatarData2023(PAGE_DATES[3], 4, 5);
    AprilFifthText();
  }

  lemma AprilFifthText()
    ensures Pad2(5) + "-" + MESES[3] + "-23" == "05-abr-23"
  {
    assert Pad2(5) == "05";
  }

  class PdfPageState {
    var loading: bool
    var error: Option<string>
    /** The route id the last load was started for. */
    var requested: Option<string>
    var aluno: Option<AlunoInfo>
    var aulas: seq<Aula>

    /** The page mounts with the spinner on and nothing loaded. */
    constructor()
      ensures loading && error == None && requested == None && aluno == None && aulas == []
    {
      loading := true;
      error := None;
      requested := None;
      aluno := None;
      aulas := [];
    }

    /** The spinner while loading, then the error box if there is an error, else the agenda. */
    function View(): Screen
      reads this
    {
      if loading then Spinner
      else if error.Some? then ErrorScreen(error.value)
      else AgendaScreen
    }

    /** The mount effect: a present id starts the load (spinner on, error cleared); a missing or
      * empty id sets the missing-id error, stops the spinner and starts no load. */
    method MountEffect(id: Option<string>)
      modifies this
      ensures (id.None? || id.value == "") ==>
        error == Some(NO_ID) && !loading && requested == old(requested)
      ensures id.Some? && id.value != "" ==> loading && error == None && requested == id
      ensures aluno == old(aluno) && aulas == old(aulas)
      ensures (id.None? || id.value == "") ==> View() == ErrorScreen(NO_ID)
    {
      if id.Some? && id.value != "" {
        requested := id;
        loading := true;
        error := None;
      } else {
        error := Some(NO_ID);
        loading := false;
      }
    }

    /** The load stored the student and the lessons; the `finally` stops the spinner. */
    method LoadSucceeded(a: AlunoInfo, lessons: seq<Aula>)
      modifies this
      ensures aluno == Some(a) && aulas == lessons && !loading
      ensures error == old(error) && requested == old(requested)
    {
      aluno := Some(a);
      aulas := lessons;
      loading := false;
    }

    /** The load threw: the message is shown after the fixed prefix and the spinner stops;
      * what was loaded before stays. */
    method LoadFailed(message: string)
      modifies this
      ensures error == Some(LOAD_ERROR_PREFIX + message) && !loading
      ensures aluno == old(aluno) && aulas == old(aulas) && requested == old(requested)
      ensures View() == ErrorScreen(LOAD_ERROR_PREFIX + message)
    {
      error := Some(LOAD_ERROR_PREFIX + message);
      loading := false;
    }
  }
}
