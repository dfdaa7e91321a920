/**
 * The calendar date-and-time selection component: a displayed month and year, the grid of day
 * cells for that month (with the trailing days of the previous month and the leading days of the
 * next one), and an insertion-ordered map from `YYYY-MM-DD` dates to `HH:MM` times.
 *
 * A JavaScript `Date` is reduced to its full year, 0-based month and day; the calendar arithmetic
 * `Date` performs is the proleptic Gregorian calendar of module Gregorian. The current date is a
 * parameter wherever the component reads the clock.
 */
module Calendar {
  import opened Wrappers
  import opened Strings
  import opened Gregorian
  import opened OrderedMap
  import Holidays

  /** `getFullYear()`, `getMonth()` (0 = January) and `getDate()` of a `Date`. */
  datatype Date = Date(year: int, month: int, day: int)

  predicate ValidCalendarDate(d: Date) {
    0 <= d.month < 12 && 1 <= d.day <= DaysInMonth(d.year, d.month + 1)
  }

  /** The prop defaults, and the time a newly selected date gets when the default is off. */
  const DEFAULT_TIME_PROP := "08:00"
  const USE_DEFAULT_TIME_PROP := false
  const FALLBACK_TIME := "08:00"

  // ---------------------------------------------------------------------------------------
  // Keys and formatting
  // ---------------------------------------------------------------------------------------

  /** The `MM-DD` key the holiday table is consulted with: zero-padded month, then day. */
  function FormatDateForHoliday(d: Date): (r: string)
    requires ValidCalendarDate(d)
    ensures |r| == 5 && r[2] == '-'
    ensures AllDigits(r[..2]) && AllDigits(r[3..])
    ensures ParseDigits(r[..2]) == d.month + 1 && ParseDigits(r[3..]) == d.day
  {
    var mm := Pad2(d.month + 1);
    var dd := Pad2(d.day);
    assert (mm + "-" + dd)[..2] == mm && (mm + "-" + dd)[3..] == dd;
    mm + "-" + dd
  }

  /** The `YYYY-MM-DD` key a selected date is stored under (the year is not padded). */
  function FormatDateForStorage(d: Date): string
    requires ValidCalendarDate(d)
  {
    IntToString(d.year) + "-" + Pad2(d.month + 1) + "-" + Pad2(d.day)
  }

  /** `const [year, month, day] = s.split('-')`: a missing field reads as `undefined`. */
  function Field(parts: seq<string>, i: nat): string {
    if i < |parts| then parts[i] else "undefined"
  }

  /** `DD/MM/YYYY` from a storage key. */
  function FormatDateForDisplay(s: string): string {
    var parts := Split(s, '-');
    Field(parts, 2) + "/" + Field(parts, 1) + "/" + Field(parts, 0)
  }

  function IsSameDay(a: Date, b: Date): (r: bool)
    ensures r <==> a == b
  {
    a.year == b.year && a.month == b.month && a.day == b.day
  }

  function IsDateSelected(selected: Entries, d: Date): (r: bool)
    requires ValidCalendarDate(d)
    ensures r <==> FormatDateForStorage(d) in ToMap(selected)
  {
    ToMapHas(selected, FormatDateForStorage(d));
    Has(selected, FormatDateForStorage(d))
  }

  lemma NoDashInDigits(s: string)
    requires AllDigits(s)
    ensures '-' !in s
  {
  }

  /** For a non-negative year the storage key splits on '-' into exactly year, month and day. */
  lemma StorageKeyFields(d: Date)
    requires ValidCalendarDate(d) && d.year >= 0
    ensures Split(FormatDateForStorage(d), '-') == [NatToString(d.year), Pad2(d.month + 1), Pad2(d.day)]
  {
    var y, mm, dd := NatToString(d.year), Pad2(d.month + 1), Pad2(d.day);
    NoDashInDigits(y);
    NoDashInDigits(mm);
    NoDashInDigits(dd);
    assert IntToString(d.year) == y;
    SplitThree(y, mm, dd, '-');
  }

  /** Display turns a storage key into day, month and year separated by '/'. */
  lemma DisplayOfStorageKey(d: Date)
    requires ValidCalendarDate(d) && d.year >= 0
    ensures FormatDateForDisplay(FormatDateForStorage(d))
         == Pad2(d.day) + "/" + Pad2(d.month + 1) + "/" + NatToString(d.year)
  {
    StorageKeyFields(d);
  }

  /** A string without '-' is one field: the display shows `undefined` for day and month. */
  lemma DisplayWithoutDash(s: string)
    requires '-' !in s
    ensures FormatDateForDisplay(s) == "undefined/undefined/" + s
  {
    SplitNoSep(s, '-');
    var parts := Split(s, '-');
    assert Field(parts, 2) == "undefined" && Field(parts, 1) == "undefined" && Field(parts, 0) == s;
    var p := "undefined" + "/" + "undefined" + "/";
    assert p == "undefined/undefined/";
  }

  /** Distinct dates of non-negative years have distinct storage keys. */
  lemma StorageKeyInjective(a: Date, b: Date)
    requires ValidCalendarDate(a) && ValidCalendarDate(b) && a.year >= 0 && b.year >= 0
    requires FormatDateForStorage(a) == FormatDateForStorage(b)
    ensures a == b
  {
    StorageKeyFields(a);
    StorageKeyFields(b);
    ParseNatToString(a.year);
    ParseNatToString(b.year);
  }

  /** Four-digit years give the extended calendar-date format of ISO 8601 (YYYY-MM-DD). */
  lemma StorageKeyIsIso(d: Date)
    requires ValidCalendarDate(d) && 1000 <= d.year <= 9999
    ensures var k := FormatDateForStorage(d);
      |k| == 10 && k[4] == '-' && k[7] == '-'
      && AllDigits(k[..4]) && AllDigits(k[5..7]) && AllDigits(k[8..])
      && ParseDigits(k[..4]) == d.year && ParseDigits(k[5..7]) == d.month + 1 && ParseDigits(k[8..]) == d.day
  {
    var y, mm, dd := NatToString(d.year), Pad2(d.month + 1), Pad2(d.day);
    NatToStringLength(d.year);
    ParseNatToString(d.year);
    assert IntToString(d.year) == y;
    IsoOfParts(y, mm, dd);
  }

  // ---------------------------------------------------------------------------------------
  // Holidays
  // ---------------------------------------------------------------------------------------

  lemma ParseTwo(s: string)
    requires |s| == 2 && AllDigits(s)
    ensures ParseDigits(s) == (s[0] as int - '0' as int) * 10 + (s[1] as int - '0' as int)
  {
    var first := s[..1];
    assert first[..0] == [] && first[0] == s[0];
    assert ParseDigits(first) == DigitValue(s[0]);
    assert s[..|s| - 1] == first;
  }

  /**
   * What the calendar actually marks: the table's keys read month-first. Only seven entries
   * land on a real date, and only "Ano Novo" on its own.
   */
  function HolidayShown(month: int, day: int): Option<string> {
    if (month, day) == (0, 1) then Some("Ano Novo")
    else if (month, day) == (6, 4) then Some("Sexta-feira Santa")
    else if (month, day) == (0, 5) then Some("Dia do Trabalho")
    else if (month, day) == (7, 6) then Some("Corpus Christi")
    else if (month, day) == (6, 9) then Some("Independência do Brasil")
    else if (month, day) == (11, 10) then Some("Nossa Senhora Aparecida")
    else if (month, day) == (1, 11) then Some("Finados")
    else None
  }

  lemma HolidayKeyChars(d: Date)
    requires ValidCalendarDate(d)
    ensures var k := FormatDateForHoliday(d);
      CharValue(k[0]) * 10 + CharValue(k[1]) == d.month + 1
      && CharValue(k[3]) * 10 + CharValue(k[4]) == d.day
      && '0' <= k[0] <= '9' && '0' <= k[1] <= '9' && '0' <= k[3] <= '9' && '0' <= k[4] <= '9'
      && k == [k[0], k[1], '-', k[3], k[4]]
  {
    TwoNumberKey(FormatDateForHoliday(d));
  }

  /** The characters of a `dd-dd` key and the two numbers they spell. */
  lemma TwoNumberKey(k: string)
    requires |k| == 5 && k[2] == '-' && AllDigits(k[..2]) && AllDigits(k[3..])
    ensures CharValue(k[0]) * 10 + CharValue(k[1]) == ParseDigits(k[..2])
      && CharValue(k[3]) * 10 + CharValue(k[4]) == ParseDigits(k[3..])
      && '0' <= k[0] <= '9' && '0' <= k[1] <= '9' && '0' <= k[3] <= '9' && '0' <= k[4] <= '9'
      && k == [k[0], k[1], '-', k[3], k[4]]
  {
    ParseTwo(k[..2]);
    ParseTwo(k[3..]);
    assert IsDigit(k[..2][0]) && IsDigit(k[..2][1]) && IsDigit(k[3..][0]) && IsDigit(k[3..][1]);
  }

  function CharValue(c: char): int {
    c as int - '0' as int
  }

  /** The holiday key of a date equals a well-formed key iff the key's numbers are its month and day. */
  lemma KeyMatch(d: Date, key: string)
    requires ValidCalendarDate(d)
    requires |key| == 5 && key[2] == '-'
    requires '0' <= key[0] <= '9' && '0' <= key[1] <= '9' && '0' <= key[3] <= '9' && '0' <= key[4] <= '9'
    ensures FormatDateForHoliday(d) == key <==>
      d.month + 1 == CharValue(key[0]) * 10 + CharValue(key[1]) && d.day == CharValue(key[3]) * 10 + CharValue(key[4])
  {
    HolidayKeyChars(d);
    KeyCharsMatch(FormatDateForHoliday(d), key, d.month + 1, d.day);
  }

  /** Two `dd-dd` keys are equal iff their two numbers are. */
  lemma KeyCharsMatch(k: string, key: string, m: int, day: int)
    requires |k| == 5 && k[2] == '-' && |key| == 5 && key[2] == '-'
    requires '0' <= k[0] <= '9' && '0' <= k[1] <= '9' && '0' <= k[3] <= '9' && '0' <= k[4] <= '9'
    requires '0' <= key[0] <= '9' && '0' <= key[1] <= '9' && '0' <= key[3] <= '9' && '0' <= key[4] <= '9'
    requires CharValue(k[0]) * 10 + CharValue(k[1]) == m && CharValue(k[3]) * 10 + CharValue(k[4]) == day
    ensures k == key <==>
      m == CharValue(key[0]) * 10 + CharValue(key[1]) && day == CharValue(key[3]) * 10 + CharValue(key[4])
  {
    if m == CharValue(key[0]) * 10 + CharValue(key[1]) && day == CharValue(key[3]) * 10 + CharValue(key[4]) {
      DigitPair(CharValue(k[0]), CharValue(k[1]), CharValue(key[0]), CharValue(key[1]));
      DigitPair(CharValue(k[3]), CharValue(k[4]), CharValue(key[3]), CharValue(key[4]));
      assert forall i :: 0 <= i < 5 ==> k[i] == key[i];
    }
  }

  /** Two-digit numbers with equal values have equal digits. */
  lemma DigitPair(a: int, b: int, c: int, e: int)
    requires 0 <= a < 10 && 0 <= b < 10 && 0 <= c < 10 && 0 <= e < 10
    requires a * 10 + b == c * 10 + e
    ensures a == c && b == e
  {
  }

  /**
   * The holiday label of a cell, for every date of every month: the month-first lookup of the
   * day-first table. Entries "21-02", "21-04", "15-11" and "25-12" never annotate a cell.
   */
  lemma HolidayMarks(d: Date)
    requires ValidCalendarDate(d)
    ensures Holidays.Lookup(FormatDateForHoliday(d)) == HolidayShown(d.month, d.day)
  {
    if HolidayShown(d.month, d.day).None? {
      Unmarked(d);
    } else {
      Marked(d);
    }
  }

  /** A date outside the seven landing keys has no label. */
  lemma Unmarked(d: Date)
    requires ValidCalendarDate(d) && HolidayShown(d.month, d.day).None?
    ensures Holidays.Lookup(FormatDateForHoliday(d)) == None
  {
    KeyInTable(d);
    Holidays.NotInTable(FormatDateForHoliday(d));
  }

  /** A date on one of the seven landing keys has that entry's label. */
  lemma Marked(d: Date)
    requires ValidCalendarDate(d) && HolidayShown(d.month, d.day).Some?
    ensures Holidays.Lookup(FormatDateForHoliday(d)) == HolidayShown(d.month, d.day)
  {
    Holidays.LandingEntries();
    if (d.month, d.day) == (0, 1) {
      KeyMatch(d, "01-01");
    } else if (d.month, d.day) == (6, 4) {
      KeyMatch(d, "07-04");
    } else if (d.month, d.day) == (0, 5) {
      KeyMatch(d, "01-05");
    } else if (d.month, d.day) == (7, 6) {
      KeyMatch(d, "08-06");
    } else if (d.month, d.day) == (6, 9) {
      KeyMatch(d, "07-09");
    } else if (d.month, d.day) == (11, 10) {
      KeyMatch(d, "12-10");
    } else {
      KeyMatch(d, "02-11");
    }
  }

  /** Which table keys a date's holiday key can equal. */
  lemma KeyInTable(d: Date)
    requires ValidCalendarDate(d)
    ensures FormatDateForHoliday(d) in Holidays.KEYS <==> HolidayShown(d.month, d.day).Some?
  {
    KeyNotDayFirst(d);
    KeyLanding(d);
  }

  /** The keys written day-first with a day above 12 match no date. */
  lemma KeyNotDayFirst(d: Date)
    requires ValidCalendarDate(d)
    ensures var k := FormatDateForHoliday(d); k != "21-02" && k != "21-04" && k != "15-11" && k != "25-12"
  {
    KeyMatch(d, "21-02");
    KeyMatch(d, "21-04");
    KeyMatch(d, "15-11");
    KeyMatch(d, "25-12");
  }

  /** The seven keys that read as a real month-first date. */
  lemma KeyLanding(d: Date)
    requires ValidCalendarDate(d)
    ensures var k := FormatDateForHoliday(d);
      k in {"01-01", "07-04", "01-05", "08-06", "07-09", "12-10", "02-11"} <==> HolidayShown(d.month, d.day).Some?
  {
    var k := FormatDateForHoliday(d);
    assert k == "01-01" <==> (d.month, d.day) == (0, 1) by { KeyMatch(d, "01-01"); }
    assert k == "07-04" <==> (d.month, d.day) == (6, 4) by { KeyMatch(d, "07-04"); }
    assert k == "01-05" <==> (d.month, d.day) == (0, 5) by { KeyMatch(d, "01-05"); }
    assert k == "08-06" <==> (d.month, d.day) == (7, 6) by { KeyMatch(d, "08-06"); }
    assert k == "07-09" <==> (d.month, d.day) == (6, 9) by { KeyMatch(d, "07-09"); }
    assert k == "12-10" <==> (d.month, d.day) == (11, 10) by { KeyMatch(d, "12-10"); }
    assert k == "02-11" <==> (d.month, d.day) == (1, 11) by { KeyMatch(d, "02-11"); }
  }

  /** The date a table key names read day-first, as the keys are written: `DD-MM`. */
  function OwnDate(year: int, k: string): Date
    requires |k| == 5
  {
    Date(year, CharValue(k[3]) * 10 + CharValue(k[4]) - 1, CharValue(k[0]) * 10 + CharValue(k[1]))
  }

  /** Every table key is a `dd-dd` key naming a month and a day that exists in every year. */
  lemma KeyShape(k: string)
    requires k in Holidays.KEYS
    ensures |k| == 5 && k[2] == '-'
    ensures '0' <= k[0] <= '9' && '0' <= k[1] <= '9' && '0' <= k[3] <= '9' && '0' <= k[4] <= '9'
    ensures 1 <= CharValue(k[3]) * 10 + CharValue(k[4]) <= 12
    ensures 1 <= CharValue(k[0]) * 10 + CharValue(k[1]) <= 28
  {
  }

  /**
   * As written: the cell of a holiday's own date is marked only for "Ano Novo", whose key
   * reads the same both ways; the ten other holidays leave their own date blank.
   */
  lemma OwnDateAsWritten(year: int, k: string)
    requires k in Holidays.KEYS
    ensures |k| == 5 && ValidCalendarDate(OwnDate(year, k))
    ensures k == "01-01" ==> Holidays.Lookup(FormatDateForHoliday(OwnDate(year, k))) == Some("Ano Novo")
    ensures k != "01-01" ==> Holidays.Lookup(FormatDateForHoliday(OwnDate(year, k))) == None
  {
    KeyShape(k);
    HolidayMarks(OwnDate(year, k));
    OwnDateShown(k);
  }

  lemma OwnDateShown(k: string)
    requires k in Holidays.KEYS
    ensures |k| == 5
    ensures HolidayShown(CharValue(k[3]) * 10 + CharValue(k[4]) - 1, CharValue(k[0]) * 10 + CharValue(k[1]))
      == if k == "01-01" then Some("Ano Novo") else None
  {
  }

  /** The label a cell would get if the table were keyed month-first, as documented. */
  function HolidayIntended(d: Date): (r: Option<string>)
    requires ValidCalendarDate(d)
    ensures r.Some? ==> r.value in Holidays.HOLIDAYS.Values
  {
    Holidays.LookupMonthFirst(FormatDateForHoliday(d))
  }

  /** Corrected: every holiday of the table marks the cell of its own date, in every year. */
  lemma EntryMarksOwnDate(year: int, k: string)
    requires k in Holidays.KEYS
    ensures |k| == 5 && ValidCalendarDate(OwnDate(year, k))
    ensures HolidayIntended(OwnDate(year, k)) == Some(Holidays.HOLIDAYS[k])
  {
    KeyShape(k);
    var d := OwnDate(year, k);
    Holidays.MonthFirstHasSwapped(k);
    KeyMatch(d, Holidays.SwapFields(k));
  }

  /** Corrected: a cell is marked only on the own date of a table entry, with that entry's name. */
  lemma IntendedOnlyOwnDates(d: Date)
    requires ValidCalendarDate(d) && HolidayIntended(d).Some?
    ensures exists k ::
      k in Holidays.KEYS && |k| == 5 && OwnDate(d.year, k) == d && HolidayIntended(d) == Some(Holidays.HOLIDAYS[k])
  {
    var j := FormatDateForHoliday(d);
    Holidays.MonthFirstOnlySwapped(j);
    HolidayKeyChars(d);
    var k := Holidays.SwapFields(j);
    assert OwnDate(d.year, k) == d;
  }

  // ---------------------------------------------------------------------------------------
  // The month grid
  // ---------------------------------------------------------------------------------------

  /** A grid cell: a day of a neighbouring month, or a clickable day of the displayed month. */
  datatype DayCell =
    | Inactive(day: int)
    | Active(day: int, selected: bool, today: bool, holiday: Option<string>)

  /** `new Date(y, m, 1).getDay()`. */
  function FirstWeekday(year: int, month: int): (w: int)
    requires 0 <= month < 12
    ensures 0 <= w < 7
  {
    Weekday(year, month + 1, 1)
  }

  /** `new Date(y, m, 0).getDate()`: the length of the previous month. */
  function PrevMonthLastDay(year: int, month: int): (n: int)
    requires 0 <= month < 12
    ensures 28 <= n <= 31
  {
    if month == 0 then DaysInMonth(year - 1, 12) else DaysInMonth(year, month)
  }

  /** Cells of the next month appended so that the last row is complete. */
  function TrailingCount(len: nat): (n: nat)
    ensures n < 7 && (len + n) % 7 == 0
  {
    var remaining := 7 - len % 7;
    if remaining < 7 then remaining else 0
  }

  /** The cell of day i of the displayed month. */
  function ActiveCell(year: int, month: int, i: int, selected: Entries, today: Date): DayCell
    requires 0 <= month < 12 && 1 <= i <= DaysInMonth(year, month + 1)
  {
    var date := Date(year, month, i);
    Active(i, IsDateSelected(selected, date), IsSameDay(date, today),
           Holidays.Lookup(FormatDateForHoliday(date)))
  }

  /** The grid of a month: previous-month days, every day of the month, next-month days. */
  predicate IsMonthGrid(year: int, month: int, selected: Entries, today: Date, days: seq<DayCell>)
    requires 0 <= month < 12
  {
    GridWithCounts(year, month, selected, today, days,
                   FirstWeekday(year, month), DaysInMonth(year, month + 1), PrevMonthLastDay(year, month))
  }

  /** The grid for w leading cells ending on day p of the previous month, then the n days of the month. */
  predicate GridWithCounts(year: int, month: int, selected: Entries, today: Date, days: seq<DayCell>, w: nat, n: int, p: int)
    requires 0 <= month < 12 && n == DaysInMonth(year, month + 1)
  {
    |days| == w + n + TrailingCount(w + n)
    && (forall k :: 0 <= k < w ==> days[k] == Inactive(p - w + 1 + k))
    && ActiveSpan(days, w, year, month, selected, today)
    && (forall k :: w + n <= k < |days| ==> days[k] == Inactive(k - w - n + 1))
  }

  /** From index lo on, one cell per day of the displayed month, in order. */
  predicate ActiveSpan(s: seq<DayCell>, lo: nat, year: int, month: int, selected: Entries, today: Date)
    requires 0 <= month < 12
  {
    lo + DaysInMonth(year, month + 1) <= |s|
    && forall k :: lo <= k < lo + DaysInMonth(year, month + 1) ==>
      s[k] == ActiveCell(year, month, k - lo + 1, selected, today)
  }

  /** A longer sequence with the same prefix keeps the span of the month's days. */
  lemma ActiveSpanPrefix(xs: seq<DayCell>, ys: seq<DayCell>, lo: nat, year: int, month: int, selected: Entries, today: Date)
    requires 0 <= month < 12 && ActiveSpan(xs, lo, year, month, selected, today)
    requires |xs| <= |ys| && ys[..|xs|] == xs
    ensures ActiveSpan(ys, lo, year, month, selected, today)
  {
    PrefixAgrees(xs, ys);
  }

  /** The grid has whole weeks only: four to six rows of seven cells. */
  lemma GridShape(year: int, month: int, selected: Entries, today: Date, days: seq<DayCell>)
    requires 0 <= month < 12 && IsMonthGrid(year, month, selected, today, days)
    ensures |days| % 7 == 0 && 28 <= |days| <= 42
  {
  }

  /** The month and year (1-based month) of the cells before and after the displayed month. */
  function PrevYearMonth(year: int, month: int): (int, int) {
    if month == 0 then (year - 1, 12) else (year, month)
  }

  function NextYearMonth(year: int, month: int): (int, int) {
    if month == 11 then (year + 1, 1) else (year, month + 2)
  }

  /** The real calendar date (1-based month) that cell k of the grid stands for. */
  function CellDate(year: int, month: int, k: int): (int, int, int)
    requires 0 <= month < 12
  {
    var w := FirstWeekday(year, month);
    var n := DaysInMonth(year, month + 1);
    if k < w then
      var (py, pm) := PrevYearMonth(year, month);
      (py, pm, PrevMonthLastDay(year, month) - w + 1 + k)
    else if k < w + n then (year, month + 1, k - w + 1)
    else
      var (ny, nm) := NextYearMonth(year, month);
      (ny, nm, k - w - n + 1)
  }

  lemma DayOffset(y: int, m: int, d: int)
    requires 1 <= m <= 12
    ensures DayNumber(y, m, d) == DayNumber(y, m, 1) + d - 1
  {
  }

  lemma ModShift(a: int, b: int)
    ensures (a + b) % 7 == (a % 7 + b) % 7
  {
  }

  lemma LeadingColumns(year: int, month: int, k: int)
    requires 0 <= month < 12 && 0 <= k < FirstWeekday(year, month)
    ensures var (y, m, d) := CellDate(year, month, k); ValidDate(y, m, d) && Weekday(y, m, d) == k % 7
  {
    var w := FirstWeekday(year, month);
    var first := DayNumber(year, month + 1, 1);
    var (py, pm) := PrevYearMonth(year, month);
    var p := PrevMonthLastDay(year, month);
    var d := p - w + 1 + k;
    assert CellDate(year, month, k) == (py, pm, d);
    MonthBoundary(py, pm);
    DayOffset(py, pm, p);
    DayOffset(py, pm, d);
    assert DayNumber(py, pm, d) == first - w + k;
    ModShift(first, k - w);
  }

  lemma MonthColumns(year: int, month: int, k: int)
    requires 0 <= month < 12
    requires FirstWeekday(year, month) <= k < FirstWeekday(year, month) + DaysInMonth(year, month + 1)
    ensures var (y, m, d) := CellDate(year, month, k); ValidDate(y, m, d) && Weekday(y, m, d) == k % 7
  {
    var w := FirstWeekday(year, month);
    var first := DayNumber(year, month + 1, 1);
    var d := k - w + 1;
    assert CellDate(year, month, k) == (year, month + 1, d);
    DayOffset(year, month + 1, d);
    ModShift(first, k - w);
  }

  lemma TrailingColumns(year: int, month: int, k: int)
    requires 0 <= month < 12
    requires FirstWeekday(year, month) + DaysInMonth(year, month + 1) <= k
    requires k < FirstWeekday(year, month) + DaysInMonth(year, month + 1) + 7
    ensures var (y, m, d) := CellDate(year, month, k); ValidDate(y, m, d) && Weekday(y, m, d) == k % 7
  {
    var w := FirstWeekday(year, month);
    var n := DaysInMonth(year, month + 1);
    var first := DayNumber(year, month + 1, 1);
    var (ny, nm) := NextYearMonth(year, month);
    var d := k - w - n + 1;
    assert CellDate(year, month, k) == (ny, nm, d);
    MonthBoundary(year, month + 1);
    DayOffset(year, month + 1, n);
    DayOffset(ny, nm, d);
    assert DayNumber(ny, nm, d) == first + k - w;
    ModShift(first, k - w);
  }

  /**
   * Every cell shows the day of a real date and sits in the column of that date's weekday
   * (0 = Sunday): the grid is a true calendar, across month and year boundaries.
   */
  lemma GridColumns(year: int, month: int, selected: Entries, today: Date, days: seq<DayCell>, k: int)
    requires 0 <= month < 12 && IsMonthGrid(year, month, selected, today, days)
    requires 0 <= k < |days|
    ensures var (y, m, d) := CellDate(year, month, k);
      ValidDate(y, m, d) && days[k].day == d && Weekday(y, m, d) == k % 7
  {
    var w := FirstWeekday(year, month);
    var n := DaysInMonth(year, month + 1);
    if k < w {
      LeadingColumns(year, month, k);
    } else if k < w + n {
      MonthColumns(year, month, k);
    } else {
      TrailingColumns(year, month, k);
    }
  }

  /** A day of the displayed month is selected iff its key is in the map, today iff it is today. */
  lemma GridMarks(year: int, month: int, selected: Entries, today: Date, days: seq<DayCell>, i: int)
    requires 0 <= month < 12 && IsMonthGrid(year, month, selected, today, days)
    requires 1 <= i <= DaysInMonth(year, month + 1)
    ensures var cell := days[FirstWeekday(year, month) + i - 1];
      cell.Active? && cell.day == i
      && (cell.selected <==> FormatDateForStorage(Date(year, month, i)) in ToMap(selected))
      && (cell.today <==> today == Date(year, month, i))
      && cell.holiday == HolidayShown(month, i)
  {
    HolidayMarks(Date(year, month, i));
  }

  /** March 2023 starts on a Wednesday: 26, 27 and 28 February lead, 1 April closes five rows. */
  lemma March2023(selected: Entries, today: Date, days: seq<DayCell>)
    requires IsMonthGrid(2023, 2, selected, today, days)
    ensures |days| == 35
    ensures days[0] == Inactive(26) && days[1] == Inactive(27) && days[2] == Inactive(28)
    ensures days[3].Active? && days[3].day == 1 && days[33].Active? && days[33].day == 31
    ensures days[34] == Inactive(1)
  {
    assert FirstWeekday(2023, 2) == 3;
  }

  // ---------------------------------------------------------------------------------------
  // Selection
  // ---------------------------------------------------------------------------------------

  /** Every selected date is assigned time t. */
  predicate AllTimesAre(e: Entries, t: string) {
    forall i :: 0 <= i < |e| ==> e[i].1 == t
  }

  /** Clicking a day: a selected date is dropped, an unselected one appended with its time. */
  function ToggleEntry(selected: Entries, key: string, useDefaultTime: bool, defaultTime: string): (r: Entries)
    ensures Has(selected, key) ==> ToMap(r) == ToMap(selected) - {key} && !Has(r, key)
    ensures Has(selected, key) && UniqueKeys(selected) ==>
      r == selected[..KeyIndex(selected, key)] + selected[KeyIndex(selected, key) + 1..]
    ensures !Has(selected, key) ==>
      r == selected + [(key, if useDefaultTime then defaultTime else FALLBACK_TIME)] && Has(r, key)
    ensures forall k :: k != key ==> (Has(r, k) <==> Has(selected, k))
    ensures UniqueKeys(selected) ==> UniqueKeys(r)
  {
    if Has(selected, key) then Delete(selected, key)
    else Set(selected, key, if useDefaultTime then defaultTime else FALLBACK_TIME)
  }

  /** Clicking an unselected day twice restores the selection exactly, order included. */
  lemma ToggleTwice(selected: Entries, key: string, useDefaultTime: bool, defaultTime: string)
    requires !Has(selected, key)
    ensures ToggleEntry(ToggleEntry(selected, key, useDefaultTime, defaultTime), key, useDefaultTime, defaultTime) == selected
  {
    var t := if useDefaultTime then defaultTime else FALLBACK_TIME;
    DeleteAppended(selected, key, t);
  }

  /**
   * Clicking a selected day twice deletes it and appends it again with the fresh time.
   * The selection comes back only when that day was the last one and already had that time.
   */
  lemma ToggleTwicePresent(selected: Entries, key: string, useDefaultTime: bool, defaultTime: string)
    requires Has(selected, key) && UniqueKeys(selected)
    ensures var t := if useDefaultTime then defaultTime else FALLBACK_TIME;
      ToggleEntry(ToggleEntry(selected, key, useDefaultTime, defaultTime), key, useDefaultTime, defaultTime)
        == Delete(selected, key) + [(key, t)]
    ensures var t := if useDefaultTime then defaultTime else FALLBACK_TIME;
      (ToggleEntry(ToggleEntry(selected, key, useDefaultTime, defaultTime), key, useDefaultTime, defaultTime) == selected
       <==> selected[|selected| - 1] == (key, t))
  {
    var t := if useDefaultTime then defaultTime else FALLBACK_TIME;
    var r := Delete(selected, key);
    assert ToggleEntry(r, key, useDefaultTime, defaultTime) == r + [(key, t)];
    ReinsertRestores(selected, r, key, t, KeyIndex(selected, key));
  }

  /** Cutting out the entry of key at i and appending (key, t) restores s iff s ended in it. */
  lemma ReinsertRestores(s: Entries, r: Entries, key: string, t: string, i: nat)
    requires i < |s| && s[i].0 == key && r == s[..i] + s[i + 1..] && !Has(r, key)
    ensures r + [(key, t)] == s <==> s[|s| - 1] == (key, t)
  {
    var n := |s|;
    assert (r + [(key, t)])[n - 1] == (key, t);
    if i < n - 1 {
      assert r[n - 2] == s[n - 1];
      HasAt(r, key);
    } else {
      assert s[..n - 1] + [s[n - 1]] == s;
    }
  }

  /** With the default time on, selecting a date keeps every time equal to the default. */
  lemma ToggleKeepsDefault(selected: Entries, key: string, defaultTime: string)
    requires AllTimesAre(selected, defaultTime)
    ensures AllTimesAre(ToggleEntry(selected, key, true, defaultTime), defaultTime)
  {
    if Has(selected, key) {
      DeleteKeepsTimes(selected, key, defaultTime);
    }
  }

  lemma {:induction false} DeleteKeepsTimes(e: Entries, key: string, t: string)
    requires AllTimesAre(e, t)
    ensures AllTimesAre(Delete(e, key), t)
  {
    if e != [] {
      assert AllTimesAre(e[1..], t) by {
        forall i | 0 <= i < |e[1..]| ensures e[1..][i].1 == t { assert e[1..][i] == e[i + 1]; }
      }
      DeleteKeepsTimes(e[1..], key, t);
    }
  }

  /** The time input of a selected date: only an existing key is updated, in place. */
  function UpdateTimeEntry(selected: Entries, key: string, time: string): (r: Entries)
    ensures !Has(selected, key) ==> r == selected
    ensures Has(selected, key) ==> ToMap(r) == ToMap(selected)[key := time] && Keys(r) == Keys(selected)
    ensures UniqueKeys(selected) ==> UniqueKeys(r)
  {
    if Has(selected, key) then Set(selected, key, time) else selected
  }

  /**
   * Editing one date's time breaks "with the default time on, every time is the default":
   * nothing re-applies the default until the default or its switch changes.
   */
  lemma UpdateTimeBreaksDefault()
    ensures var sel := [("2024-05-06", "09:00")];
      AllTimesAre(sel, "09:00") && !AllTimesAre(UpdateTimeEntry(sel, "2024-05-06", "10:30"), "09:00")
  {
    var sel := [("2024-05-06", "09:00")];
    assert Has(sel, "2024-05-06");
    assert UpdateTimeEntry(sel, "2024-05-06", "10:30") == [("2024-05-06", "10:30")];
  }

  /** The month before and after a displayed month, rolling the year over. */
  function PrevMonthOf(month: int, year: int): (r: (int, int))
    requires 0 <= month < 12
    ensures 0 <= r.0 < 12
    ensures r.1 * 12 + r.0 == year * 12 + month - 1
  {
    if month == 0 then (11, year - 1) else (month - 1, year)
  }

  function NextMonthOf(month: int, year: int): (r: (int, int))
    requires 0 <= month < 12
    ensures 0 <= r.0 < 12
    ensures r.1 * 12 + r.0 == year * 12 + month + 1
  {
    if month == 11 then (0, year + 1) else (month + 1, year)
  }

  /** Going back a month and forward again (or the reverse) returns to the same month. */
  lemma PrevNextInverse(month: int, year: int)
    requires 0 <= month < 12
    ensures var (m, y) := PrevMonthOf(month, year); NextMonthOf(m, y) == (month, year)
    ensures var (m, y) := NextMonthOf(month, year); PrevMonthOf(m, y) == (month, year)
  {
  }

  /** The first loop of the grid: the last `count` days of the previous month, oldest first. */
  method PreviousMonthDays(count: int, prevMonthLastDay: int) returns (days: seq<DayCell>)
    requires 0 <= count
    ensures |days| == count
    ensures forall k :: 0 <= k < count ==> days[k] == Inactive(prevMonthLastDay - count + 1 + k)
  {
    days := [];
    var i := count - 1;
    while i >= 0
      invariant -1 <= i < count
      invariant |days| == count - 1 - i
      invariant forall k :: 0 <= k < |days| ==> days[k] == Inactive(prevMonthLastDay - count + 1 + k)
    {
      days := days + [Inactive(prevMonthLastDay - i)];
      i := i - 1;
    }
  }

  /** The second loop: one clickable cell per day of the displayed month. */
  method AppendMonthDays(prefix: seq<DayCell>, year: int, month: int, selected: Entries, today: Date)
    returns (days: seq<DayCell>)
    requires 0 <= month < 12
    ensures days == prefix + MonthCells(year, month, DaysInMonth(year, month + 1), selected, today)
  {
    var lastDay := DaysInMonth(year, month + 1);
    ghost var grid := prefix + MonthCells(year, month, lastDay, selected, today);
    days := prefix;
    var i := 1;
    while i <= lastDay
      invariant 1 <= i <= lastDay + 1
      invariant |days| == |prefix| + i - 1
      invariant forall k :: 0 <= k < |days| ==> days[k] == grid[k]
    {
      var date := Date(year, month, i);
      var isHoliday := Holidays.Lookup(FormatDateForHoliday(date));
      var isToday := IsSameDay(date, today);
      var cell := Active(i, IsDateSelected(selected, date), isToday, isHoliday);
      MonthCellAt(year, month, lastDay, selected, today, i - 1);
      ExtendAgreeing(days, cell, grid);
      days := days + [cell];
      i := i + 1;
    }
    AgreeingWhole(days, grid);
  }

  /** The cells of days 1 to m of the displayed month. */
  function MonthCells(year: int, month: int, m: nat, selected: Entries, today: Date): (r: seq<DayCell>)
    requires 0 <= month < 12 && m <= DaysInMonth(year, month + 1)
    ensures |r| == m
  {
    seq(m, j requires 0 <= j < m => ActiveCell(year, month, j + 1, selected, today))
  }

  /** Position j of the list holds the cell of day j + 1. */
  lemma MonthCellAt(year: int, month: int, m: nat, selected: Entries, today: Date, j: nat)
    requires 0 <= month < 12 && m <= DaysInMonth(year, month + 1) && j < m
    ensures MonthCells(year, month, m, selected, today)[j] == ActiveCell(year, month, j + 1, selected, today)
  {
  }

  /** After a prefix, the cells of the month sit at their days' positions. */
  lemma CellsAfterPrefix(days: seq<DayCell>, prefix: seq<DayCell>, year: int, month: int, m: nat, selected: Entries, today: Date)
    requires 0 <= month < 12 && m <= DaysInMonth(year, month + 1)
    requires days == prefix + MonthCells(year, month, m, selected, today)
    ensures |days| == |prefix| + m
    ensures days[..|prefix|] == prefix
    ensures forall k :: |prefix| <= k < |days| ==> days[k] == ActiveCell(year, month, k - |prefix| + 1, selected, today)
  {
    var cells := MonthCells(year, month, m, selected, today);
    assert days[..|prefix|] == prefix;
    forall k | |prefix| <= k < |days| ensures days[k] == ActiveCell(year, month, k - |prefix| + 1, selected, today) {
      assert days[k] == cells[k - |prefix|];
      MonthCellAt(year, month, m, selected, today, k - |prefix|);
    }
  }

  /** The third loop: days 1, 2, ... of the next month until the last row is complete. */
  method AppendNextMonthDays(prefix: seq<DayCell>) returns (days: seq<DayCell>)
    ensures |days| == |prefix| + TrailingCount(|prefix|)
    ensures days[..|prefix|] == prefix
    ensures forall k :: |prefix| <= k < |days| ==> days[k] == Inactive(k - |prefix| + 1)
  {
    days := prefix;
    var remainingDays := 7 - |days| % 7;
    if remainingDays < 7 {
      var i := 1;
      while i <= remainingDays
        invariant 1 <= i <= remainingDays + 1
        invariant |days| == |prefix| + i - 1
        invariant days[..|prefix|] == prefix
        invariant forall k :: |prefix| <= k < |days| ==> days[k] == Inactive(k - |prefix| + 1)
      {
        days := days + [Inactive(i)];
        i := i + 1;
      }
    }
  }

  /** The three loops together build the grid of the month. */
  lemma GridOfParts(year: int, month: int, selected: Entries, today: Date,
                    leading: seq<DayCell>, current: seq<DayCell>, days: seq<DayCell>)
    requires 0 <= month < 12
    requires |leading| == FirstWeekday(year, month)
    requires forall k :: 0 <= k < |leading| ==> leading[k] == Inactive(PrevMonthLastDay(year, month) - |leading| + 1 + k)
    requires |current| == |leading| + DaysInMonth(year, month + 1) && current[..|leading|] == leading
    requires forall k :: |leading| <= k < |current| ==> current[k] == ActiveCell(year, month, k - |leading| + 1, selected, today)
    requires |days| == |current| + TrailingCount(|current|) && days[..|current|] == current
    requires forall k :: |current| <= k < |days| ==> days[k] == Inactive(k - |current| + 1)
    ensures IsMonthGrid(year, month, selected, today, days)
  {
    assert ActiveSpan(current, |leading|, year, month, selected, today);
    GridOfCounts(year, month, selected, today, leading, current, days,
                 |leading|, DaysInMonth(year, month + 1), PrevMonthLastDay(year, month));
  }

  /** The same, with the three counts of the month taken as given. */
  lemma GridOfCounts(year: int, month: int, selected: Entries, today: Date,
                     leading: seq<DayCell>, current: seq<DayCell>, days: seq<DayCell>, w: nat, n: int, p: int)
    requires 0 <= month < 12 && n == DaysInMonth(year, month + 1)
    requires |leading| == w
    requires forall k :: 0 <= k < w ==> leading[k] == Inactive(p - w + 1 + k)
    requires |current| == w + n && current[..w] == leading
    requires ActiveSpan(current, w, year, month, selected, today)
    requires |days| == w + n + TrailingCount(w + n) && days[..w + n] == current
    requires forall k :: w + n <= k < |days| ==> days[k] == Inactive(k - w - n + 1)
    ensures GridWithCounts(year, month, selected, today, days, w, n, p)
  {
    PrefixAgrees(current, days);
    PrefixAgrees(leading, current);
    ActiveSpanPrefix(current, days, w, year, month, selected, today);
  }

  /** Appending the next element of `whole` keeps agreeing with it. */
  lemma ExtendAgreeing(xs: seq<DayCell>, x: DayCell, whole: seq<DayCell>)
    requires |xs| < |whole| && x == whole[|xs|]
    requires forall k :: 0 <= k < |xs| ==> xs[k] == whole[k]
    ensures forall k :: 0 <= k < |xs| + 1 ==> (xs + [x])[k] == whole[k]
  {
  }

  /** Agreeing at every position of the same length is equality. */
  lemma AgreeingWhole(xs: seq<DayCell>, whole: seq<DayCell>)
    requires |xs| == |whole|
    requires forall k :: 0 <= k < |xs| ==> xs[k] == whole[k]
    ensures xs == whole
  {
  }

  lemma PrefixAgrees(xs: seq<DayCell>, ys: seq<DayCell>)
    requires |xs| <= |ys| && ys[..|xs|] == xs
    ensures forall k :: 0 <= k < |xs| ==> ys[k] == xs[k]
  {
    forall k | 0 <= k < |xs| ensures ys[k] == xs[k] {
      assert ys[..|xs|][k] == ys[k];
    }
  }

  /** A key the calendar can have stored: the storage key of a real calendar date. */
  ghost predicate IsStorageKey(k: string) {
    exists d :: ValidCalendarDate(d) && k == FormatDateForStorage(d)
  }

  /** Every key of the selection is a storage key. */
  ghost predicate StorageKeysOnly(e: Entries) {
    forall k :: Has(e, k) ==> IsStorageKey(k)
  }

  lemma {:induction false} HasKeys(e: Entries, k: string)
    ensures Has(e, k) <==> k in Keys(e)
  {
    HasAt(e, k);
    if k in Keys(e) {
      var i :| 0 <= i < |Keys(e)| && Keys(e)[i] == k;
      assert e[i].0 == k;
    }
  }

  /** Entries with the same keys in the same order keep only storage keys together. */
  lemma SameKeysStorageKeys(a: Entries, b: Entries)
    requires Keys(a) == Keys(b) && StorageKeysOnly(a)
    ensures StorageKeysOnly(b)
  {
    forall k | Has(b, k) ensures IsStorageKey(k) {
      HasKeys(a, k);
      HasKeys(b, k);
    }
  }

  /** A click adds only the storage key of the clicked date. */
  lemma ToggleKeepsStorageKeys(selected: Entries, date: Date, useDefaultTime: bool, defaultTime: string)
    requires ValidCalendarDate(date) && StorageKeysOnly(selected)
    ensures StorageKeysOnly(ToggleEntry(selected, FormatDateForStorage(date), useDefaultTime, defaultTime))
  {
    var key := FormatDateForStorage(date);
    var r := ToggleEntry(selected, key, useDefaultTime, defaultTime);
    forall k | Has(r, k) ensures IsStorageKey(k) {
      if k == key {
        assert ValidCalendarDate(date) && k == FormatDateForStorage(date);
      }
    }
  }

  /** Deleting a key keeps only storage keys. */
  lemma DeleteKeepsStorageKeys(selected: Entries, key: string)
    requires StorageKeysOnly(selected)
    ensures StorageKeysOnly(Delete(selected, key))
  {
  }

  /** Editing a time keeps only storage keys. */
  lemma UpdateKeepsStorageKeys(selected: Entries, key: string, time: string)
    requires StorageKeysOnly(selected)
    ensures StorageKeysOnly(UpdateTimeEntry(selected, key, time))
  {
    if Has(selected, key) {
      SameKeysStorageKeys(selected, UpdateTimeEntry(selected, key, time));
    }
  }

  /** The state of the component. */
  class CalendarSelector {
    var currentMonth: int
    var currentYear: int
    var selectedDates: Entries
    var defaultTime: string
    var useDefaultTime: bool
    // The two props as they were at the render that last rebuilt the `useCallback` grid: its
    // click handlers read these, not the current props.
    var gridDefaultTime: string
    var gridUseDefaultTime: bool

    ghost predicate Valid()
      reads this
    {
      0 <= currentMonth < 12 && UniqueKeys(selectedDates) && StorageKeysOnly(selectedDates)
    }

    /** The first render: the month of today, nothing selected; absent props take their defaults. */
    constructor (today: Date, defaultTime: Option<string>, useDefaultTime: Option<bool>)
      requires 0 <= today.month < 12
      ensures Valid()
      ensures currentMonth == today.month && currentYear == today.year && selectedDates == []
      ensures this.defaultTime == defaultTime.GetOr(DEFAULT_TIME_PROP)
      ensures this.useDefaultTime == useDefaultTime.GetOr(USE_DEFAULT_TIME_PROP)
      ensures gridDefaultTime == this.defaultTime && gridUseDefaultTime == this.useDefaultTime
    {
      currentMonth := today.month;
      currentYear := today.year;
      selectedDates := [];
      this.defaultTime := defaultTime.GetOr(DEFAULT_TIME_PROP);
      this.useDefaultTime := useDefaultTime.GetOr(USE_DEFAULT_TIME_PROP);
      gridDefaultTime, gridUseDefaultTime := this.defaultTime, this.useDefaultTime;
    }

    /** A render whose grid dependencies changed rebuilds the grid with the props of that render. */
    method RebuildGrid()
      modifies this
      ensures gridDefaultTime == defaultTime && gridUseDefaultTime == useDefaultTime
      ensures currentMonth == old(currentMonth) && currentYear == old(currentYear)
      ensures selectedDates == old(selectedDates)
      ensures defaultTime == old(defaultTime) && useDefaultTime == old(useDefaultTime)
    {
      gridDefaultTime, gridUseDefaultTime := defaultTime, useDefaultTime;
    }

    /** The cells of the displayed month; today is the clock's date. */
    method GenerateDays(today: Date) returns (days: seq<DayCell>)
      requires Valid()
      ensures IsMonthGrid(currentYear, currentMonth, selectedDates, today, days)
    {
      var year, month := currentYear, currentMonth;
      var startingDayOfWeek := FirstWeekday(year, month);
      var prevMonthLastDay := PrevMonthLastDay(year, month);
      var leading := PreviousMonthDays(startingDayOfWeek, prevMonthLastDay);
      var current := AppendMonthDays(leading, year, month, selectedDates, today);
      CellsAfterPrefix(current, leading, year, month, DaysInMonth(year, month + 1), selectedDates, today);
      days := AppendNextMonthDays(current);
      GridOfParts(year, month, selectedDates, today, leading, current, days);
    }

    /**
     * A click on day `date` of the displayed month. The cell's handler is the one of the render
     * that built the grid, so an inserted date gets the props captured then; the new map
     * rebuilds the grid with the current props.
     */
    method ToggleDateSelection(date: Date)
      requires Valid() && ValidCalendarDate(date)
      modifies this
      ensures Valid()
      ensures selectedDates == ToggleEntry(old(selectedDates), FormatDateForStorage(date),
                                           old(gridUseDefaultTime), old(gridDefaultTime))
      ensures currentMonth == old(currentMonth) && currentYear == old(currentYear)
      ensures defaultTime == old(defaultTime) && useDefaultTime == old(useDefaultTime)
      ensures gridDefaultTime == defaultTime && gridUseDefaultTime == useDefaultTime
    {
      ToggleKeepsStorageKeys(selectedDates, date, gridUseDefaultTime, gridDefaultTime);
      selectedDates := ToggleEntry(selectedDates, FormatDateForStorage(date), gridUseDefaultTime, gridDefaultTime);
      RebuildGrid();
    }

    method UpdateTime(dateStr: string, time: string)
      requires Valid()
      modifies this
      ensures Valid()
      ensures selectedDates == UpdateTimeEntry(old(selectedDates), dateStr, time)
      ensures currentMonth == old(currentMonth) && currentYear == old(currentYear)
      ensures defaultTime == old(defaultTime) && useDefaultTime == old(useDefaultTime)
      ensures if Has(old(selectedDates), dateStr)
        then gridDefaultTime == defaultTime && gridUseDefaultTime == useDefaultTime
        else gridDefaultTime == old(gridDefaultTime) && gridUseDefaultTime == old(gridUseDefaultTime)
    {
      UpdateKeepsStorageKeys(selectedDates, dateStr, time);
      if Has(selectedDates, dateStr) {
        selectedDates := Set(selectedDates, dateStr, time);
        RebuildGrid();
      }
    }

    method RemoveDate(dateStr: string)
      requires Valid()
      modifies this
      ensures Valid()
      ensures selectedDates == Delete(old(selectedDates), dateStr)
      ensures ToMap(selectedDates) == ToMap(old(selectedDates)) - {dateStr}
      ensures currentMonth == old(currentMonth) && currentYear == old(currentYear)
      ensures defaultTime == old(defaultTime) && useDefaultTime == old(useDefaultTime)
      ensures gridDefaultTime == defaultTime && gridUseDefaultTime == useDefaultTime
    {
      DeleteKeepsStorageKeys(selectedDates, dateStr);
      selectedDates := Delete(selectedDates, dateStr);
      RebuildGrid();
    }

    method PrevMonth()
      requires Valid()
      modifies this
      ensures Valid()
      ensures (currentMonth, currentYear) == PrevMonthOf(old(currentMonth), old(currentYear))
      ensures selectedDates == old(selectedDates)
      ensures defaultTime == old(defaultTime) && useDefaultTime == old(useDefaultTime)
      ensures gridDefaultTime == defaultTime && gridUseDefaultTime == useDefaultTime
    {
      if currentMonth == 0 {
        currentYear := currentYear - 1;
        currentMonth := 11;
      } else {
        currentMonth := currentMonth - 1;
      }
      RebuildGrid();
    }

    method NextMonth()
      requires Valid()
      modifies this
      ensures Valid()
      ensures (currentMonth, currentYear) == NextMonthOf(old(currentMonth), old(currentYear))
      ensures selectedDates == old(selectedDates)
      ensures defaultTime == old(defaultTime) && useDefaultTime == old(useDefaultTime)
      ensures gridDefaultTime == defaultTime && gridUseDefaultTime == useDefaultTime
    {
      if currentMonth == 11 {
        currentYear := currentYear + 1;
        currentMonth := 0;
      } else {
        currentMonth := currentMonth + 1;
      }
      RebuildGrid();
    }

    method GoToToday(today: Date)
      requires Valid() && 0 <= today.month < 12
      modifies this
      ensures Valid()
      ensures currentMonth == today.month && currentYear == today.year
      ensures selectedDates == old(selectedDates)
      ensures defaultTime == old(defaultTime) && useDefaultTime == old(useDefaultTime)
      ensures if (today.month, today.year) != (old(currentMonth), old(currentYear))
        then gridDefaultTime == defaultTime && gridUseDefaultTime == useDefaultTime
        else gridDefaultTime == old(gridDefaultTime) && gridUseDefaultTime == old(gridUseDefaultTime)
    {
      var moved := (today.month, today.year) != (currentMonth, currentYear);
      currentMonth := today.month;
      currentYear := today.year;
      if moved {
        RebuildGrid();
      }
    }

    /** The effect on `useDefaultTime` and `defaultTime`: every selected date gets the default. */
    method ApplyDefaultTime()
      requires Valid()
      modifies this
      ensures Valid()
      ensures if old(useDefaultTime) && |old(selectedDates)| > 0
        then selectedDates == WithAllValues(old(selectedDates), defaultTime)
        else selectedDates == old(selectedDates)
      ensures useDefaultTime ==> AllTimesAre(selectedDates, defaultTime)
      ensures currentMonth == old(currentMonth) && currentYear == old(currentYear)
      ensures defaultTime == old(defaultTime) && useDefaultTime == old(useDefaultTime)
      ensures if old(useDefaultTime) && |old(selectedDates)| > 0
        then gridDefaultTime == defaultTime && gridUseDefaultTime == useDefaultTime
        else gridDefaultTime == old(gridDefaultTime) && gridUseDefaultTime == old(gridUseDefaultTime)
    {
      if useDefaultTime && |selectedDates| > 0 {
        var sel := selectedDates;
        var newSelectedDates := sel;
        var keys := Keys(sel);
        var i := 0;
        while i < |keys|
          invariant 0 <= i <= |keys|
          invariant unchanged(this)
          invariant |newSelectedDates| == |sel| && UniqueKeys(newSelectedDates)
          invariant forall j :: 0 <= j < |newSelectedDates| ==>
            newSelectedDates[j] == if j < i then (sel[j].0, defaultTime) else sel[j]
        {
          SetExisting(newSelectedDates, i, defaultTime);
          newSelectedDates := Set(newSelectedDates, keys[i], defaultTime);
          i := i + 1;
        }
        assert newSelectedDates == WithAllValues(sel, defaultTime);
        SameKeysStorageKeys(sel, newSelectedDates);
        selectedDates := newSelectedDates;
        RebuildGrid();
      } else if useDefaultTime {
        assert selectedDates == [];
      }
    }

    /**
     * New props from the parent. The default-time effect runs only when one of its two
     * dependencies changed.
     */
    method ChangeProps(newDefaultTime: Option<string>, newUseDefaultTime: Option<bool>)
      requires Valid()
      modifies this
      ensures Valid()
      ensures defaultTime == newDefaultTime.GetOr(DEFAULT_TIME_PROP)
      ensures useDefaultTime == newUseDefaultTime.GetOr(USE_DEFAULT_TIME_PROP)
      ensures
        if (defaultTime, useDefaultTime) != (old(defaultTime), old(useDefaultTime))
           && useDefaultTime && |old(selectedDates)| > 0
        then selectedDates == WithAllValues(old(selectedDates), defaultTime)
        else selectedDates == old(selectedDates)
      ensures currentMonth == old(currentMonth) && currentYear == old(currentYear)
      ensures
        if (defaultTime, useDefaultTime) != (old(defaultTime), old(useDefaultTime))
           && useDefaultTime && |old(selectedDates)| > 0
        then gridDefaultTime == defaultTime && gridUseDefaultTime == useDefaultTime
        else gridDefaultTime == old(gridDefaultTime) && gridUseDefaultTime == old(gridUseDefaultTime)
    {
      var t, u := newDefaultTime.GetOr(DEFAULT_TIME_PROP), newUseDefaultTime.GetOr(USE_DEFAULT_TIME_PROP);
      var changed := (t, u) != (defaultTime, useDefaultTime);
      defaultTime, useDefaultTime := t, u;
      if changed {
        ApplyDefaultTime();
      }
    }
  }

  /**
   * The student form mounts the calendar with "09:00" and the flag off, then turns the flag on
   * with nothing selected. No rewrite happens, so the grid keeps the handler that reads the
   * flag off: the next click stores the fallback time, not "09:00".
   */
  method SwitchOnThenClick(today: Date, date: Date) returns (r: Entries)
    requires 0 <= today.month < 12 && ValidCalendarDate(date)
    ensures r == [(FormatDateForStorage(date), FALLBACK_TIME)]
  {
    var c := new CalendarSelector(today, Some("09:00"), Some(false));
    c.ChangeProps(Some("09:00"), Some(true));
    c.ToggleDateSelection(date);
    r := c.selectedDates;
  }

  /** The selection of the second trace, step by step, on plain keys. */
  lemma SecondClickAfterRewrite(k1: string, k2: string, t: string)
    requires k1 != k2
    ensures ToggleEntry([], k1, false, t) == [(k1, FALLBACK_TIME)]
    ensures WithAllValues([(k1, FALLBACK_TIME)], t) == [(k1, t)]
    ensures ToggleEntry([(k1, t)], k2, true, t) == [(k1, t), (k2, t)]
  {
  }

  /**
   * One date selected, then "Aplicar" twice: the first press rewrites the time and rebuilds the
   * grid with the flag on; the second turns the flag off without a rewrite. The next click still
   * stores "09:00".
   */
  method ApplyTwiceThenClick(today: Date, first: Date, second: Date) returns (r: Entries)
    requires 0 <= today.month < 12 && ValidCalendarDate(first) && ValidCalendarDate(second)
    requires FormatDateForStorage(first) != FormatDateForStorage(second)
    ensures r == [(FormatDateForStorage(first), "09:00"), (FormatDateForStorage(second), "09:00")]
  {
    var c := new CalendarSelector(today, Some("09:00"), Some(false));
    c.ToggleDateSelection(first);
    c.ChangeProps(Some("09:00"), Some(true));
    c.ChangeProps(Some("09:00"), Some(false));
    SecondClickAfterRewrite(FormatDateForStorage(first), FormatDateForStorage(second), "09:00");
    c.ToggleDateSelection(second);
    r := c.selectedDates;
  }
}
