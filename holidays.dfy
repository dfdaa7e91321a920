/**
 * The table of Brazilian national holidays the calendar annotates its cells with. The table is
 * documented as month-first ("MM-DD"), but most of its keys are written day-first. HOLIDAYS
 * reproduces the table exactly as it stands; HOLIDAYS_MONTH_FIRST is the table as documented.
 */
module Holidays {
  import opened Wrappers

  const HOLIDAYS: map<string, string> := map[
    "01-01" := "Ano Novo",
    "21-02" := "Carnaval",
    "07-04" := "Sexta-feira Santa",
    "21-04" := "Tiradentes",
    "01-05" := "Dia do Trabalho",
    "08-06" := "Corpus Christi",
    "07-09" := "Independência do Brasil",
    "12-10" := "Nossa Senhora Aparecida",
    "02-11" := "Finados",
    "15-11" := "Proclamação da República",
    "25-12" := "Natal"
  ]

  /** `HOLIDAYS[key]`: the label, or nothing (`undefined`) for a key the table does not hold. */
  function Lookup(key: string): (r: Option<string>)
    ensures r.Some? <==> key in HOLIDAYS.Keys
    ensures r.Some? ==> r.value in HOLIDAYS.Values && r.value != ""
  {
    if key in HOLIDAYS then Some(HOLIDAYS[key]) else None
  }

  const KEYS: set<string> :=
    {"01-01", "21-02", "07-04", "21-04", "01-05", "08-06", "07-09", "12-10", "02-11", "15-11", "25-12"}

  lemma TableKeys()
    ensures HOLIDAYS.Keys == KEYS
  {
  }

  /** A key outside the table has no label. */
  lemma NotInTable(key: string)
    requires key !in KEYS
    ensures Lookup(key) == None
  {
    TableKeys();
  }

  lemma KeyCount()
    ensures |KEYS| == 11
  {
  }

  /** The table has eleven distinct keys. */
  lemma TableSize()
    ensures |HOLIDAYS| == 11
  {
    TableKeys();
    KeyCount();
  }

  /** The two entries the documentation names; the month-first key of Christmas is absent. */
  lemma NamedEntries()
    ensures Lookup("01-01") == Some("Ano Novo")
    ensures Lookup("25-12") == Some("Natal")
    ensures Lookup("12-25") == None
  {
    TableKeys();
  }

  /**
   * The table as its documentation describes it: every key month-first ("MM-DD"). It holds the
   * same holidays as HOLIDAYS, each key with its two fields swapped.
   */
  const HOLIDAYS_MONTH_FIRST: map<string, string> := map[
    "01-01" := "Ano Novo",
    "02-21" := "Carnaval",
    "04-07" := "Sexta-feira Santa",
    "04-21" := "Tiradentes",
    "05-01" := "Dia do Trabalho",
    "06-08" := "Corpus Christi",
    "09-07" := "Independência do Brasil",
    "10-12" := "Nossa Senhora Aparecida",
    "11-02" := "Finados",
    "11-15" := "Proclamação da República",
    "12-25" := "Natal"
  ]

  /** The lookup in the month-first table: HOLIDAYS consulted with the fields swapped. */
  function LookupMonthFirst(key: string): (r: Option<string>)
    ensures r.Some? <==> key in HOLIDAYS_MONTH_FIRST.Keys
    ensures r.Some? ==> |key| == 5 && SwapFields(key) in HOLIDAYS && r.value == HOLIDAYS[SwapFields(key)]
  {
    if key in HOLIDAYS_MONTH_FIRST then
      MonthFirstOnlySwapped(key);
      Some(HOLIDAYS_MONTH_FIRST[key])
    else None
  }

  /** A `dd-dd` key with its two fields swapped. */
  function SwapFields(key: string): (r: string)
    requires |key| == 5
    ensures |r| == 5 && r[2] == key[2]
    ensures r[0] == key[3] && r[1] == key[4] && r[3] == key[0] && r[4] == key[1]
  {
    [key[3], key[4], key[2], key[0], key[1]]
  }

  /** Every entry of HOLIDAYS is in the month-first table under its swapped key. */
  lemma MonthFirstHasSwapped(k: string)
    requires k in KEYS
    ensures |k| == 5 && SwapFields(k) in HOLIDAYS_MONTH_FIRST
    ensures HOLIDAYS_MONTH_FIRST[SwapFields(k)] == HOLIDAYS[k]
  {
  }

  /** The month-first table holds nothing else. */
  lemma MonthFirstOnlySwapped(j: string)
    requires j in HOLIDAYS_MONTH_FIRST
    ensures |j| == 5 && SwapFields(j) in KEYS && HOLIDAYS[SwapFields(j)] == HOLIDAYS_MONTH_FIRST[j]
  {
  }

  /** The entries whose first field is a month number. */
  lemma LandingEntries()
    ensures Lookup("01-01") == Some("Ano Novo")
    ensures Lookup("07-04") == Some("Sexta-feira Santa")
    ensures Lookup("01-05") == Some("Dia do Trabalho")
    ensures Lookup("08-06") == Some("Corpus Christi")
    ensures Lookup("07-09") == Some("Independência do Brasil")
    ensures Lookup("12-10") == Some("Nossa Senhora Aparecida")
    ensures Lookup("02-11") == Some("Finados")
  {
  }
}
