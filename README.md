# gestao-alunos-frontend, modelled in Dafny

This project models the logic of the front end of a music school's student-management app.
Most of that app is React rendering. The logic that decides what it shows and stores is modelled
here:

- the lesson calendar: the month grid, the date selection map and the default lesson time;
- the holiday table;
- the student form hook and the validation rules;
- the two Brazilian phone masks;
- the login and sign-up submit guards;
- the development-mode authentication context;
- the student list's filters and pagination;
- the side menu's permissions;
- the student card's fallbacks and buttons;
- the date formatters of the printable agenda.

There is one module per source file. A few helper modules are shared:

- `Wrappers` holds `Option`, which stands for `null`, `undefined` and "not found".
- `Strings` holds the JavaScript string operations the code uses:
  - `split`, `trim`, `padStart`, `toLowerCase` and `join`;
  - `replace(/\D/g, '')`;
  - `parseInt` of a digit string and `toString` of a number.
- `Gregorian` holds the calendar arithmetic that stands in for `Date`: leap years, month lengths, serial day numbers and weekdays.
- `OrderedMap` models a JavaScript `Map` as an association list with unique keys, in insertion order.
  - `set` on an existing key keeps that key's place.
  - `set` on a new key appends it.

Components that keep state are Dafny classes. Their fields are the component's `useState` variables. Each event handler is a method whose postcondition gives the whole new state. The calendar's invariant `Calendar.CalendarSelector.Valid` says that the selection has unique keys and that each key is the storage key of a real date; every handler keeps it.

The grid is a `useCallback` on the month, the year and the selection, so a day cell's click runs the handler of the render that last rebuilt the grid. That handler reads the `defaultTime` and `useDefaultTime` props of that render. The selector therefore keeps a captured copy of the two props, `gridDefaultTime` and `gridUseDefaultTime`. Every handler that gives the month, the year or the selection a new value refreshes the copy; new props alone do not. `Calendar.SwitchOnThenClick` and `Calendar.ApplyTwiceThenClick` show where the stored time differs from the current props.

Asynchronous handlers are split at the `await`:
- `SubmitBegin` models what happens before the call.
- `Finish` models what happens when the call settles.
- The settled call is the parameter `CallOutcome`: it resolved with `{success, message}`, or it threw.

Pure helpers are functions. Each comes with lemmas about what it means:
- round trips;
- idempotence;
- iff characterisations of the hand-written regular expressions;
- the examples the source's comments and test file give.

Two behaviours of the code are worth knowing before reading the table:

- **Holiday keys.** The comment at `src/components/Calendar/constants/holidays.ts:3` says the table's keys are `MM-DD`, and `formatDateForHoliday` (`src/components/Calendar/Calendar.tsx:33-37`) builds month-first keys. But the keys themselves are written day-first (`"21-02"` at line 7, `"25-12"` at line 16). This is listed under "## Findings".
  - `Holidays.HOLIDAYS` and `Calendar.HolidayMarks` model the table and the lookup as written.
  - `Holidays.HOLIDAYS_MONTH_FIRST` and `Calendar.HolidayIntended` model the table as its comment describes it.
- **Default time.** With "use default time" on, the effect at `src/components/Calendar/Calendar.tsx:192-202` gives every selected date the default time. It only runs again when the flag or the default time changes:
  - `updateTime` can change one time afterwards;
  - `Calendar.UpdateTimeBreaksDefault` shows that after such a change the times are no longer all the default;
  - `Calendar.CalendarSelector.ApplyDefaultTime` proves they are all the default right after the rewrite.

## Model

| member | source | states |
|---|---|---|
| Holidays.Lookup | src/components/Calendar/constants/holidays.ts:5-17 | a key gets a label exactly when it is one of the table's keys, and the label is one of its non-empty names |
| Holidays.TableSize | src/components/Calendar/constants/holidays.ts:5-17 | the table has exactly 11 entries |
| Holidays.NamedEntries | src/components/Calendar/constants/holidays.ts:6-16 | "01-01" is Ano Novo, "25-12" is Natal, and the month-first "12-25" is not in the table |
| Holidays.LandingEntries | src/components/Calendar/constants/holidays.ts:6-16 | the seven entries whose first field is at most 12 and the names they carry |
| Holidays.LookupMonthFirst | src/components/Calendar/constants/holidays.ts:3-17 | the corrected month-first table gives a key the name HOLIDAYS gives the key with its two fields swapped, and nothing for other keys |
| Holidays.MonthFirstHasSwapped | src/components/Calendar/constants/holidays.ts:3-17 | every entry of the table appears in the month-first table under its swapped key, with its name |
| Holidays.MonthFirstOnlySwapped | src/components/Calendar/constants/holidays.ts:3-17 | every key of the month-first table is the swap of a table key, with the same name |
| Calendar.FormatDateForHoliday | src/components/Calendar/Calendar.tsx:33-37 | the key is five characters, two-digit month (1-based) then `-` then two-digit day |
| Calendar.IsSameDay | src/components/Calendar/Calendar.tsx:54-60 | true exactly when year, month and day all agree |
| Calendar.IsDateSelected | src/components/Calendar/Calendar.tsx:63-66 | true exactly when the date's storage key is in the selection map |
| Calendar.StorageKeyFields | src/components/Calendar/Calendar.tsx:40-45 | splitting a storage key at `-` gives the year, the padded month and the padded day |
| Calendar.StorageKeyIsIso | src/components/Calendar/Calendar.tsx:40-45 | for 4-digit years the key is `YYYY-MM-DD` (ISO 8601 extended calendar date) and its fields read back as the date |
| Calendar.StorageKeyInjective | src/components/Calendar/Calendar.tsx:40-45 | different dates get different storage keys |
| Calendar.DisplayOfStorageKey | src/components/Calendar/Calendar.tsx:48-51 | the display form of a storage key is `DD/MM/YYYY` |
| Calendar.DisplayWithoutDash | src/components/Calendar/Calendar.tsx:48-51 | a string without `-` is displayed as `undefined/undefined/<string>` |
| Calendar.KeyMatch | src/components/Calendar/Calendar.tsx:33-37 | a date's holiday key equals a table key exactly when the key's first field is its month and the second its day |
| Calendar.HolidayMarks | src/components/Calendar/Calendar.tsx:94-107 | the label a day cell gets is `HolidayShown`: only the seven month-first-compatible entries, on the month named by their first field |
| Calendar.KeyInTable | src/components/Calendar/Calendar.tsx:94-107 | a cell's key is in the table exactly when `HolidayShown` gives it a label |
| Calendar.KeyShape | src/components/Calendar/constants/holidays.ts:5-17 | every table key is two two-digit fields around `-`, the first a day up to 28 and the second a month, when read day-first |
| Calendar.OwnDateAsWritten | src/components/Calendar/constants/holidays.ts:3-17 | as written, the cell of a holiday's own date gets a label only for "Ano Novo"; the other ten holidays leave their own date blank |
| Calendar.HolidayIntended | src/components/Calendar/Calendar.tsx:94-107 | with the month-first table, a cell's label is always one of the table's names |
| Calendar.EntryMarksOwnDate | src/components/Calendar/constants/holidays.ts:3-17 | with the month-first table, every holiday marks the cell of its own date in every year |
| Calendar.IntendedOnlyOwnDates | src/components/Calendar/Calendar.tsx:94-107 | with the month-first table, a cell is labelled only on the own date of a table entry, with that entry's name |
| Calendar.FirstWeekday | src/components/Calendar/Calendar.tsx:73-78 | the weekday of the 1st lies in 0..6 |
| Calendar.PrevMonthLastDay | src/components/Calendar/Calendar.tsx:79 | the previous month's last day lies in 28..31 |
| Calendar.TrailingCount | src/components/Calendar/Calendar.tsx:113-122 | fewer than 7 trailing cells, bringing the count to a multiple of 7 (none when it already is one) |
| Calendar.PreviousMonthDays | src/components/Calendar/Calendar.tsx:78-88 | the leading loop yields the previous month's last days, ascending and ending at its last day |
| Calendar.AppendMonthDays | src/components/Calendar/Calendar.tsx:91-110 | the main loop appends `MonthCells` of the whole month: the cells of days 1..N built from the date's selection, today and holiday lookups |
| Calendar.MonthCellAt | src/components/Calendar/Calendar.tsx:91-110 | position j of the month's cells holds the cell of day j + 1 |
| Calendar.CellsAfterPrefix | src/components/Calendar/Calendar.tsx:91-110 | after the leading cells, the month's cells keep the prefix and put day i at position prefix + i - 1 |
| Calendar.AppendNextMonthDays | src/components/Calendar/Calendar.tsx:113-122 | the trailing loop appends days 1..k of the next month |
| Calendar.GridOfParts | src/components/Calendar/Calendar.tsx:69-125 | the three loops together build a month grid |
| Calendar.GridShape | src/components/Calendar/Calendar.tsx:69-125 | a month grid has a multiple of 7 cells, between 28 and 42 |
| Calendar.GridColumns | src/components/Calendar/Calendar.tsx:69-125 | cell k shows the day of the real date in column k, and that date's weekday is k mod 7 |
| Calendar.LeadingColumns | src/components/Calendar/Calendar.tsx:78-88 | leading cells are the real last days of the previous month in their weekday column |
| Calendar.MonthColumns | src/components/Calendar/Calendar.tsx:91-110 | day i sits in the column of its weekday |
| Calendar.TrailingColumns | src/components/Calendar/Calendar.tsx:113-122 | trailing cells are the real first days of the next month in their weekday column |
| Calendar.GridMarks | src/components/Calendar/Calendar.tsx:91-110 | day i is active, and selected exactly when its key is in the map, today exactly when it is today, with `HolidayShown` as its holiday |
| Calendar.March2023 | src/components/Calendar/Calendar.tsx:79-121 | March 2023 gives 26, 27, 28, then 1..31, then 1: 35 cells |
| Calendar.ToggleEntry | src/components/Calendar/Calendar.tsx:128-140 | a present key's entry is cut out and the others keep their order; an absent key is appended with the default time when enabled, else 08:00; no other key changes; keys stay unique |
| Calendar.ToggleTwice | src/components/Calendar/Calendar.tsx:128-140 | toggling an absent key twice restores the map |
| Calendar.ToggleTwicePresent | src/components/Calendar/Calendar.tsx:128-140 | toggling a present key twice moves it to the end with the fresh time; the map comes back only when that key was already last with that time |
| Calendar.ReinsertRestores | src/components/Calendar/Calendar.tsx:128-140 | cutting one entry out and appending a new one for its key restores the sequence exactly when the entry was last and equal to the new one |
| Calendar.ToggleKeepsDefault | src/components/Calendar/Calendar.tsx:128-140 | with the default time on, toggling keeps every time equal to the default |
| OrderedMap.Delete | src/components/Calendar/Calendar.tsx:132-134 | `Map.delete` removes the key from the map's content; with the key present exactly its entry is cut out and the others keep their order; an absent key leaves the entries unchanged |
| OrderedMap.DeletePresent | src/components/Calendar/Calendar.tsx:132-134 | deleting a present key cuts out one entry holding that key and nothing else |
| Calendar.DeleteKeepsTimes | src/components/Calendar/Calendar.tsx:133-135 | deleting a key keeps all remaining times |
| Calendar.UpdateTimeEntry | src/components/Calendar/Calendar.tsx:143-149 | an absent key leaves the map unchanged; a present key gets the new time, and the keys and their order stay |
| Calendar.UpdateTimeBreaksDefault | src/components/Calendar/Calendar.tsx:143-149 | after the default rewrite, `updateTime` can leave a time different from the default |
| Calendar.PrevMonthOf | src/components/Calendar/Calendar.tsx:159-167 | the month before, wrapping from January to December of the year before |
| Calendar.NextMonthOf | src/components/Calendar/Calendar.tsx:170-178 | the month after, wrapping from December to January of the year after |
| Calendar.PrevNextInverse | src/components/Calendar/Calendar.tsx:159-178 | going back then forward, or forward then back, returns to the same month |
| Calendar.CalendarSelector.constructor | src/components/Calendar/Calendar.tsx:14-23 | the grid starts on today's month with an empty selection and the prop defaults 08:00 and off |
| Calendar.CalendarSelector.GenerateDays | src/components/Calendar/Calendar.tsx:69-125 | the cells built are the month grid of the displayed month |
| Calendar.ToggleKeepsStorageKeys | src/components/Calendar/Calendar.tsx:128-140 | a click adds only the storage key of the clicked real date, so a selection of storage keys stays one |
| Calendar.DeleteKeepsStorageKeys | src/components/Calendar/Calendar.tsx:152-156 | removing a date keeps a selection of storage keys one |
| Calendar.UpdateKeepsStorageKeys | src/components/Calendar/Calendar.tsx:143-149 | editing a time keeps a selection of storage keys one |
| Calendar.SameKeysStorageKeys | src/components/Calendar/Calendar.tsx:192-202 | rewriting the times with the keys kept in order keeps a selection of storage keys one |
| Calendar.CalendarSelector.ToggleDateSelection | src/components/Calendar/Calendar.tsx:128-140 | the selection becomes `ToggleEntry` of the date's storage key with the props the grid captured; the new map refreshes the captured props; nothing else changes |
| Calendar.CalendarSelector.UpdateTime | src/components/Calendar/Calendar.tsx:143-149 | the selection becomes `UpdateTimeEntry`; the captured props are refreshed only when the key was present; nothing else changes |
| Calendar.CalendarSelector.RemoveDate | src/components/Calendar/Calendar.tsx:152-156 | only the given key is removed (a no-op on the keys when absent); the new map always refreshes the captured props |
| Calendar.CalendarSelector.PrevMonth | src/components/Calendar/Calendar.tsx:159-167 | the displayed month steps back with year wrap; the selection stays and the captured props are refreshed |
| Calendar.CalendarSelector.NextMonth | src/components/Calendar/Calendar.tsx:170-178 | the displayed month steps forward with year wrap; the selection stays and the captured props are refreshed |
| Calendar.CalendarSelector.GoToToday | src/components/Calendar/Calendar.tsx:181-185 | the displayed month becomes today's; the selection stays; the captured props are refreshed only when the month or the year changed |
| Calendar.CalendarSelector.ApplyDefaultTime | src/components/Calendar/Calendar.tsx:193-203 | with the flag on and a non-empty map every time becomes the default, keys unchanged, and the captured props are refreshed; otherwise no change |
| Calendar.CalendarSelector.ChangeProps | src/components/Calendar/Calendar.tsx:193-203 | new props re-run the rewrite only when the default time or the flag changed; the captured props are refreshed only when that rewrite happens |
| Calendar.SwitchOnThenClick | src/components/Calendar/Calendar.tsx:69-140 | on the student form's props ("09:00", off), switching the flag on with nothing selected and then clicking a day stores the fallback 08:00 |
| Calendar.ApplyTwiceThenClick | src/components/Calendar/Calendar.tsx:69-140 | after one date is selected and the flag is switched on and off again, a click on another day stores "09:00" although the flag is off |
| Validations.Message | src/utils/validations.ts:40-115 | each rule's error message, with the field name and bound inserted |
| Validations.RequiredRejectsBlank | src/utils/validations.ts:40-43 | `required` passes exactly when the value is present and not all whitespace |
| Validations.OptionalRulesAcceptEmpty | src/utils/validations.ts:54 | every rule except `required` accepts an empty or missing value |
| Validations.EmailTestIsPattern | src/utils/validations.ts:50-60 | the hand-written test agrees with `^[^\s@]+@[^\s@]+\.[^\s@]+$` on every string |
| Validations.EmailRule | src/utils/validations.ts:50-60 | a non-empty value passes `email` exactly when it matches the pattern |
| Validations.TelefonePatternByLength | src/utils/validations.ts:67-78 | on digits, the phone regex accepts 8 digits starting 2-9, 9 starting with 9, 10 with a non-zero area code and exchange 2-9, or 11 with mobile 9 |
| Validations.TelefoneRule | src/utils/validations.ts:67-78 | a non-empty value passes `telefone` exactly when its digits have that shape, so 8 to 11 digits |
| Validations.LengthRules | src/utils/validations.ts:87-102 | `minLength` and `maxLength` pass on the empty string or when the length is within the bound |
| Validations.FieldOutcomeFirstFailure | src/utils/validations.ts:125-138 | valid exactly when every rule passes; otherwise the message is that of the first failing rule |
| Validations.FieldOutcomeSuffix | src/utils/validations.ts:130-134 | rules that pass can be dropped from the front |
| Validations.ValidateField | src/utils/validations.ts:125-138 | the loop returns the first failing rule's message, or valid when all pass |
| Validations.FormErrorsExact | src/utils/validations.ts:158-178 | with distinct field names, a field has an error exactly when its rules fail, and its message is its first failure's |
| Validations.FormErrorsEmptyIff | src/utils/validations.ts:158-178 | the error map is empty exactly when every field's rules pass |
| Validations.ValidateForm | src/utils/validations.ts:158-178 | the loop builds the error map `FormErrors` |
| Validations.LoginExample | src/utils/validations.ts:148-156 | the documented example: `usuario@exemplo` fails the e-mail rule and `123` the six-character minimum |
| AlunoFormHook.AulasFromSelection | src/hooks/useAlunoForm.ts:252-269 | one lesson per selected date |
| AlunoFormHook.AulasMatchSelection | src/hooks/useAlunoForm.ts:252-269 | lesson i has the i-th date and time, the first chosen subject (or none), and dates are distinct |
| AlunoFormHook.FindNome | src/hooks/useAlunoForm.ts:223-225 | the name of the first entry with that id, or "" when there is none |
| AlunoFormHook.EscolaChoice | src/hooks/useAlunoForm.ts:218-232 | an empty value clears the school; otherwise the id is `parseInt` of the value and the name is looked up only for a non-zero number |
| AlunoFormHook.DisciplinaRefs | src/hooks/useAlunoForm.ts:309-323 | one reference per chosen subject id, with its looked-up name |
| AlunoFormHook.PrepareAlunoData | src/hooks/useAlunoForm.ts:309-323 | the payload copies the form fields and turns subject ids into references |
| AlunoFormHook.RuleFieldsDistinct | src/hooks/useAlunoForm.ts:274-291 | the four validated fields are distinct |
| AlunoFormHook.AlunoFormValidIff | src/hooks/useAlunoForm.ts:274-291 | the form is valid exactly when the name is non-blank and at most 100 long, the e-mail and phone pass, and the enrolment is at most 20 long |
| AlunoFormHook.AlunoForm.constructor | src/hooks/useAlunoForm.ts:21-30 | the hook starts with the empty form and no errors |
| AlunoFormHook.AlunoForm.HandleDateSelect | src/hooks/useAlunoForm.ts:252-269 | only `aulas` changes, to the lessons of the selection |
| AlunoFormHook.AlunoForm.ValidateFormData | src/hooks/useAlunoForm.ts:274-291 | the field errors become the error map of the form, and the result says whether it is empty |
| AlunoFormHook.AlunoForm.ClearFieldError | src/hooks/useAlunoForm.ts:296-304 | a field's error is removed only when it is present and non-empty |
| AlunoFormHook.AlunoForm.HandleEscolaChange | src/hooks/useAlunoForm.ts:218-232 | the school id and name become `EscolaChoice`, and the school's error is cleared |
| AlunoFormHook.AlunoForm.SubmitBegin | src/hooks/useAlunoForm.ts:328-341 | messages are cleared; an invalid form sets the correction message and stops; a valid one starts submitting |
| AlunoFormPage.FormatTelefoneDigits | src/pages/AlunoForm/AlunoForm.tsx:89-104 | the digits of the mask are the input's digits truncated to 11 |
| AlunoFormPage.FormatTelefoneIdempotent | src/pages/AlunoForm/AlunoForm.tsx:89-111 | masking a masked value changes nothing, so re-masking on each keystroke is stable |
| AlunoFormPage.FormatTelefoneChars | src/pages/AlunoForm/AlunoForm.tsx:89-104 | the mask holds only digits, parentheses, space and dash |
| AlunoFormPage.FormatTelefoneLength | src/pages/AlunoForm/AlunoForm.tsx:89-104 | the mask is at most 15 long (the input's `maxLength`), exactly 15 from 11 digits on, with the length per branch |
| AlunoFormPage.FormatTelefoneMobileExample | src/pages/AlunoForm/AlunoForm.tsx:89-104 | 11987654321 becomes (11) 98765-4321 |
| AlunoFormPage.FormatTelefoneLandlineExample | src/pages/AlunoForm/AlunoForm.tsx:89-104 | 1133334444 becomes (11) 3333-4444 |
| AlunoFormPage.FormatTelefoneAreaCodeExample | src/pages/AlunoForm/AlunoForm.tsx:89-104 | 119 becomes (11) 9 |
| AlunoFormPage.FormatTelefoneFormattedExample | src/pages/AlunoForm/AlunoForm.tsx:89-111 | an already formatted mobile number is left as it is |
| AlunoFormPage.DefaultTimeControls.constructor | src/pages/AlunoForm/AlunoForm.tsx:31-32 | the default time starts at 09:00 and off |
| AlunoFormPage.DefaultTimeControls.Aplicar | src/pages/AlunoForm/AlunoForm.tsx:472-478 | the button is disabled without lessons; otherwise it flips the flag |
| AlunoFormPage.DefaultTimeControls.SetDefaultTime | src/pages/AlunoForm/AlunoForm.tsx:79-81 | the time input sets only the default time |
| AlunoFormPage.DefaultTimeControls.SetUseDefaultTime | src/pages/AlunoForm/AlunoForm.tsx:84-86 | the checkbox sets only the flag |
| SignupPage.PhoneMatch | src/pages/Signup/Signup.tsx:60 | `^(\d{0,2})(\d{0,5})(\d{0,4})$` matches a digit string exactly when it has at most 11 digits, and the groups are the greedy split |
| SignupPage.FormatPhone | src/pages/Signup/Signup.tsx:53-70 | the mask the `+=` steps build is `PhoneMask` |
| SignupPage.PhoneMaskDigits | src/pages/Signup/Signup.tsx:53-70 | up to 11 digits, the mask keeps the digits in order and adds only the punctuation for their count, starting with `(` |
| SignupPage.PhoneMaskLong | src/pages/Signup/Signup.tsx:67-69 | with more than 11 digits the result is the bare digits |
| SignupPage.PhoneMaskIdempotent | src/pages/Signup/Signup.tsx:53-70 | masking a masked value changes nothing |
| SignupPage.PhoneMaskNoDigits | src/pages/Signup/Signup.tsx:53-70 | a value without digits gives the empty string |
| SignupPage.MasksDiffer | src/pages/Signup/Signup.tsx:53-70 | the two masks disagree on "11": `(11` here, `11` on the student form |
| SignupPage.SignupError | src/pages/Signup/Signup.tsx:88-114 | the first failing check in order: required fields, matching passwords, accepted terms; none when all pass |
| SignupPage.SignupForm.constructor | src/pages/Signup/Signup.tsx:24-40 | the form starts empty, with no message and not submitting |
| SignupPage.SignupForm.HandlePhoneChange | src/pages/Signup/Signup.tsx:75-78 | the phone field becomes the mask of the typed value; nothing else changes |
| SignupPage.SignupForm.SubmitBegin | src/pages/Signup/Signup.tsx:88-118 | a failing check shows its message and stops; otherwise submitting starts with the message cleared |
| SignupPage.SignupForm.Finish | src/pages/Signup/Signup.tsx:120-147 | success shows the redirect message, failure the returned message, a throw the generic error; submitting ends |
| LoginPage.LoginGuard | src/pages/Login/Login.tsx:49-55 | the guard message is the only error it gives |
| LoginPage.LoginGuardPasses | src/pages/Login/Login.tsx:49-55 | the guard passes exactly when neither trimmed field is empty |
| LoginPage.GuardPassesContextCheck | src/pages/Login/Login.tsx:49-62 | a passing guard implies both raw fields are non-empty, so the context's own check cannot fail |
| LoginPage.LoginForm.constructor | src/pages/Login/Login.tsx:24-32 | the form starts empty, with no message and not submitting |
| LoginPage.LoginForm.SubmitBegin | src/pages/Login/Login.tsx:45-59 | a blank field shows the guard message and stops; otherwise submitting starts with the message cleared |
| LoginPage.LoginForm.Finish | src/pages/Login/Login.tsx:64-81 | success leaves the message, failure shows the returned one, a throw the generic error; submitting ends |
| LoginPage.LoginForm.Submit | src/pages/Login/Login.tsx:45-82 | the whole handler: guarded, and a successful login ends with no message and not submitting |
| Auth.DerivedNome | src/contexts/AuthContext.tsx:177 | the name is the e-mail's text before the first `@`, with its first letter upper case |
| Auth.DerivedNomeOfEmail | src/contexts/AuthContext.tsx:177 | the derived name has no `@` and matches the e-mail's start up to its first `@` |
| Auth.DerivedNomeExample | src/contexts/AuthContext.tsx:177 | ana@escola gives Ana |
| Auth.AuthProvider.constructor | src/contexts/AuthContext.tsx:121-123 | no user yet, loading, holding the given storage |
| Auth.AuthProvider.Mount | src/contexts/AuthContext.tsx:129-150 | a stored user is restored; loading ends; the store is unchanged |
| Auth.AuthProvider.Login | src/contexts/AuthContext.tsx:161-193 | an empty e-mail or password fails with the required message and changes nothing; otherwise the development user is set and stored; loading ends |
| Auth.AuthProvider.Logout | src/contexts/AuthContext.tsx:200-203 | the user is cleared and removed from the store |
| Auth.AuthProvider.Signup | src/contexts/AuthContext.tsx:213-234 | sign-up always succeeds with its message and signs nobody in |
| Auth.AuthProvider.Reload | src/contexts/AuthContext.tsx:129-150 | a fresh mount sees exactly what the store holds |
| AlunoCard.FieldsNeverBlank | src/components/ui/AlunoCard/AlunoCard.tsx:158-166 | no text field of the card is blank: registration, school and phone each show the student's own value or their fallback |
| AlunoCard.DisciplinasText | src/components/ui/AlunoCard/AlunoCard.tsx:170-172 | no subjects shows "Sem disciplina"; otherwise their names joined with ", " |
| AlunoCard.DispatchOnlyShown | src/components/ui/AlunoCard/AlunoCard.tsx:129-191 | only a shown button ever calls a callback, and always with the student's id |
| AlunoCard.ShownButtonDispatch | src/components/ui/AlunoCard/AlunoCard.tsx:129-191 | a shown button passes no callback of the card only when it is the PDF button without one (the button then opens the agenda page on its own) |
| AlunoCard.MissingDataFallbacks | src/components/ui/AlunoCard/AlunoCard.test.tsx:53-67 | a card with only id and name shows every fallback text |
| AlunoCard.CompleteDataTexts | src/components/ui/AlunoCard/AlunoCard.test.tsx:42-51 | the complete test student shows its data and "Matemática, Física" |
| AlunoCard.AllCallbacksReceiveId | src/components/ui/AlunoCard/AlunoCard.test.tsx:77-104 | with all callbacks given, each button passes the student's id |
| AlunoCard.CardState.MouseEnter | src/components/ui/AlunoCard/AlunoCard.tsx:149 | the actions become visible |
| AlunoCard.CardState.MouseLeave | src/components/ui/AlunoCard/AlunoCard.tsx:150 | the actions are hidden |
| AlunosList.Filter | src/components/ui/AlunosList/AlunosList.tsx:117-142 | filtering never lengthens the list |
| AlunosList.FilterMembers | src/components/ui/AlunosList/AlunosList.tsx:117-142 | a student is kept exactly when it is in the list and meets the criterion |
| AlunosList.FilterCounts | src/components/ui/AlunosList/AlunosList.tsx:117-142 | a kept student appears as many times as in the list, duplicates included; a dropped one not at all |
| AlunosList.FilterIsSubsequence | src/components/ui/AlunosList/AlunosList.tsx:117-142 | filtering keeps the original order |
| AlunosList.FilterKeepsAll | src/components/ui/AlunosList/AlunosList.tsx:117-142 | when every student meets the criterion, nothing is dropped |
| AlunosList.FilteredMembers | src/components/ui/AlunosList/AlunosList.tsx:113-147 | a student is shown exactly when it matches the search (name, enrolment or school, case-insensitively), the subject and the school filters in force |
| AlunosList.FilteredOrder | src/components/ui/AlunosList/AlunosList.tsx:113-147 | the result is in list order, and with no filter it is the whole list |
| AlunosList.TotalPages | src/components/ui/AlunosList/AlunosList.tsx:103 | the ceiling of length over page size: the fewest pages holding every item, and none for an empty list |
| AlunosList.PageRange | src/components/ui/AlunosList/AlunosList.tsx:193-195 | page p is the slice starting at (p-1)·size, at most one page long, and non-empty up to the last page |
| AlunosList.PagesUpToPrefix | src/components/ui/AlunosList/AlunosList.tsx:193-195 | the first k pages together are the list's first k·size items |
| AlunosList.PagesPartition | src/components/ui/AlunosList/AlunosList.tsx:103-195 | all pages together are exactly the filtered list |
| AlunosList.AlunosListState.constructor | src/components/ui/AlunosList/AlunosList.tsx:74-147 | after the first effect run, every student is listed on page 1 |
| AlunosList.AlunosListState.RunFilterEffect | src/components/ui/AlunosList/AlunosList.tsx:113-147 | the effect's three successive filters give `Filtered`, and the page goes back to 1 |
| AlunosList.AlunosListState.SetAlunos | src/components/ui/AlunosList/AlunosList.tsx:113-147 | new students re-run the filters, back on page 1 |
| AlunosList.AlunosListState.HandleSearch | src/components/ui/AlunosList/AlunosList.tsx:158-166 | the search term changes and the filters re-run, back on page 1 |
| AlunosList.AlunosListState.HandleFilterByDisciplina | src/components/ui/AlunosList/AlunosList.tsx:168-176 | the subject filter changes and the filters re-run, back on page 1 |
| AlunosList.AlunosListState.HandleFilterByEscola | src/components/ui/AlunosList/AlunosList.tsx:178-186 | the school filter changes and the filters re-run, back on page 1 |
| AlunosList.AlunosListState.CurrentAlunos | src/components/ui/AlunosList/AlunosList.tsx:193-195 | the shown page holds at most a page of students, and some whenever the filtered list is non-empty |
| AlunosList.AlunosListState.Disabled | src/components/ui/AlunosList/AlunosList.tsx:265-291 | first and previous are disabled on page 1, next and last on the last page, numbered buttons never |
| AlunosList.AlunosListState.Click | src/components/ui/AlunosList/AlunosList.tsx:188-190 | a disabled button does nothing; another moves to its page; the lists and filters stay |
| Sidebar.SignedOutSeesPublic | src/components/layout/Sidebar.tsx:58-61 | signed out, exactly the items without a permission list are allowed |
| Sidebar.ActiveBelow | src/components/layout/Sidebar.tsx:64-69 | a link is active on its own page and only on pages at least as long; every link but `/` stays active on every page below an active one |
| Sidebar.VisibleItems | src/components/layout/Sidebar.tsx:74-75 | the menu shows only allowed items of the list |
| Sidebar.VisibleFromList | src/components/layout/Sidebar.tsx:74-75 | every item the menu shows is an item of the list |
| Sidebar.VisibleWhenAllowed | src/components/layout/Sidebar.tsx:74-75 | when every item is allowed the whole menu shows |
| Sidebar.HiddenWhenRefused | src/components/layout/Sidebar.tsx:74-75 | when no item is allowed the menu is empty |
| Sidebar.VisibleConcat | src/components/layout/Sidebar.tsx:74-75 | filtering a concatenation filters each part |
| Sidebar.MenuVisibility | src/components/layout/Sidebar.tsx:17-75 | an admin sees all seven items; anyone else, signed in or not, sees the first five |
| Sidebar.RawPrefixActive | src/components/layout/Sidebar.tsx:64-69 | the prefix test is on raw text: `/alunos` is active on `/alunos/3/editar` and on `/alunosx`, and `/` is not active on `/alunos` |
| Agenda.IsoDateSplit | src/components/PdfViewer/PdfViewer.tsx:200 | a `YYYY-MM-DD` string splits into its three fields |
| Agenda.FormatarData | src/components/PdfViewer/PdfViewer.tsx:198-214 | nine characters: the zero-padded day, `-`, the month's abbreviation, `-`, the year's last two digits |
| Agenda.FormatarDiaSemana | src/components/PdfViewer/PdfViewer.tsx:221-241 | one of the seven Portuguese names, indexed by the weekday with Sunday first |
| Agenda.SameWeekdayName | src/components/PdfViewer/PdfViewer.tsx:221-241 | dates a whole number of weeks apart get the same name |
| Agenda.FirstViewerDate | src/components/PdfViewer/PdfViewer.tsx:131-137 | 2023-03-15 is shown as 15-mar-23, quarta-feira |
| Agenda.ViewerDatesWednesdays | src/components/PdfViewer/PdfViewer.tsx:131-153 | the three development dates, a week apart, all give quarta-feira |
| Agenda.FormatarData2023 | src/pages/PdfPage/PdfPage.tsx:186-202 | a 2023 date shows as its padded day, the month's abbreviation and 23 |
| Agenda.DefaultLogoExactlyMissing | src/pages/PdfPage/PdfPage.tsx:251-258 | the default logo shows exactly when no student is loaded or the student has no school logo |
| Agenda.HeaderTexts | src/components/PdfViewer/PdfViewer.tsx:326-338 | the school, student and enrolment texts, each with its fallback, never empty |
| Agenda.Rows | src/components/PdfViewer/PdfViewer.tsx:354-370 | no lessons gives the single "Nenhuma aula agendada" row; otherwise one row per lesson |
| Agenda.RowFallbacks | src/pages/PdfPage/PdfPage.tsx:367-381 | row i is numbered i+1, and an empty teacher or instrument shows the default |
| PdfPage.PageDatesWednesdays | src/pages/PdfPage/PdfPage.tsx:105-141 | the five development dates all give quarta-feira, across the end of March |
| PdfPage.FifthOfApril | src/pages/PdfPage/PdfPage.tsx:129 | 2023-04-05 is shown as 05-abr-23 |
| PdfPage.PdfPageState.constructor | src/pages/PdfPage/PdfPage.tsx:58-61 | the page mounts loading, with no error and nothing loaded |
| PdfPage.PdfPageState.MountEffect | src/pages/PdfPage/PdfPage.tsx:69-77 | a missing or empty id shows "ID do aluno não fornecido" with the spinner off and starts no load; a present id starts it |
| PdfPage.PdfPageState.LoadSucceeded | src/pages/PdfPage/PdfPage.tsx:146-178 | the loaded student and lessons are stored and loading ends |
| PdfPage.PdfPageState.LoadFailed | src/pages/PdfPage/PdfPage.tsx:173-178 | the error is the fixed prefix and the message, and loading ends |

## Left out

- Dates and times use the proleptic Gregorian calendar on whole numbers. JavaScript's `Date` is not modelled:
  - the Unix clock, time zones and locale output;
  - the mapping of years 0-99 to 1900-1999;
  - the rolling over of out-of-range days;
  - `NaN` dates.

  "Today" is a parameter.
- Agenda.FormatarData: requires a valid `YYYY-MM-DD` date from year 100 on. Other strings, which `new Date` would roll over or turn into "NaN-undefined-aN", are not modelled.
- Agenda.FormatarDiaSemana: requires the same valid date. `getDay()` of an invalid date is left out.
- Agenda.EscolaLogo: the development branch gives the bundled file's name. What `require` resolves and its fallback to the default logo when that file is missing are left out, because they depend on the bundler.
- AlunoCard.ProximaAulaText: `toLocaleDateString('pt-BR')` depends on the runtime's locale data, so the localized text is a parameter.
- Validations.Test: `numberInRange` reads `Number()` only for non-empty decimal digit strings. Any other text counts as not a number, because the floating-point conversion is not modelled.
- `parseInt` is modelled on a leading run of decimal digits. Leading whitespace, a sign and other radixes are not.
- `toLowerCase` and `toUpperCase` map ASCII letters only. Full Unicode case mapping is not modelled.
- String lengths count characters, not UTF-16 code units. This matters only for the `maxLength` rules on text outside the Basic Multilingual Plane.
- The network and the loaders are not modelled:
  - the `fetch` calls;
  - the `setTimeout` delays;
  - the mock loaders of the student form, the PDF viewer and the PDF page;
  - JSON parse errors.

  Their outcomes are parameters: `CallOutcome`, `LoadSucceeded` and `LoadFailed`.
- Navigation is not modelled, because it only changes the route: redirects after login and sign-up, `navigate(-1)`, `window.print` and the download alert.
- When the fake authentication functions throw, their `catch` branches cannot be reached in development mode, so they are not modelled.
- AlunoFormHook: `handleInputChange` and `handleDisciplinasChange` are left out. They are plain field setters, outside the modelled core.
- AlunoFormHook: the network part of `handleSubmit` after `setSubmitting(true)` is left out.
- Calendar: the effect that calls `onSelectDate` is not modelled. It runs after every render, because the student form passes a new `handleDateSelect` on each of its renders (src/hooks/useAlunoForm.ts:252). That handler always stores a new form object (src/hooks/useAlunoForm.ts:265-268), so the form and the calendar keep re-rendering each other. In edit mode the calendar's empty selection then replaces the loaded `aulas` (src/hooks/useAlunoForm.ts:153-164). React's render scheduling is outside the model. The parent's side of one call is `AlunoFormHook.AlunoForm.HandleDateSelect`.
- AlunosList: a page size of zero or less is excluded, because then `totalPages` is not a number.
- AlunosList.AlunosListState: `itemsPerPage` is fixed when the state is built. In the source it is a prop (`src/components/ui/AlunosList/AlunosList.tsx:31`, `:80`) that the parent can change on any render, and that change does not reset `currentPage` (only the filter effect at `:147` does). The model therefore does not cover a current page left beyond the last page by a new page size.
- Rendering is not modelled: markup, CSS classes, icons, the spinner text and the Bootstrap components.


## Findings

| source | as written | input that shows it | evidently intended | confidence | as-written member | corrected member |
|---|---|---|---|---|---|---|
| src/components/Calendar/constants/holidays.ts:3-17 | the comment at line 3 says the keys are `MM-DD`, and `formatDateForHoliday` (`src/components/Calendar/Calendar.tsx:33-37`) builds `MM-DD` keys, but the keys are written `DD-MM` | 25 December of any year: its key "12-25" is not in the table, so "Natal" never shows; 4 July shows "Sexta-feira Santa", from the key "07-04" | every holiday labels the cell of its own date, with the table keyed month-first | not executed | Calendar.OwnDateAsWritten | Calendar.EntryMarksOwnDate |

The month grid (`Calendar.ActiveCell`, `Calendar.GridMarks`) keeps the lookup as written, because it states what the page shows. `Calendar.HolidayIntended` is the corrected cell label, and `Calendar.IntendedOnlyOwnDates` proves the other direction for it.
