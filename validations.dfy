/**
 * The form-validation utility: rules that test a field value and carry a message,
 * `validateField` (the first failing rule wins) and `validateForm` (an error map keyed by field).
 *
 * A field value is a string or absent (`undefined`); "falsy" means absent or empty.
 */
module Validations {
  import opened Wrappers
  import opened Strings

  type Value = Option<string>

  predicate Falsy(v: Value) {
    v.None? || v.value == ""
  }

  /** The rule combinators of `ValidationRules`. */
  datatype Rule =
    | Required(fieldName: string)
    | Email
    | Telefone
    | MinLength(length: int, fieldName: string)
    | MaxLength(length: int, fieldName: string)
    | NumberInRange(min: int, max: int, fieldName: string)

  function Message(r: Rule): string {
    match r
    case Required(f) => "O campo " + f + " é obrigatório."
    case Email => "Formato de email inválido."
    case Telefone => "Formato de telefone inválido."
    case MinLength(n, f) => "O campo " + f + " deve ter no mínimo " + IntToString(n) + " caracteres."
    case MaxLength(n, f) => "O campo " + f + " deve ter no máximo " + IntToString(n) + " caracteres."
    case NumberInRange(lo, hi, f) => "O campo " + f + " deve estar entre " + IntToString(lo) + " e " + IntToString(hi) + "."
  }

  // ---------------------------------------------------------------------------------------
  // The e-mail pattern ^[^\s@]+@[^\s@]+\.[^\s@]+$
  // ---------------------------------------------------------------------------------------

  /** A match of `[^\s@]+`. */
  predicate Plain(t: string) {
    t != [] && forall k :: 0 <= k < |t| ==> t[k] != '@' && !IsJsWhitespace(t[k])
  }

  /** The regular expression, read as a decomposition of the whole string. */
  ghost predicate EmailPattern(s: string) {
    exists i, j :: 0 <= i < j < |s| && s[i] == '@' && s[j] == '.'
      && Plain(s[..i]) && Plain(s[i + 1..j]) && Plain(s[j + 1..])
  }

  /** The first position of c in s. */
  function IndexOf(s: string, c: char): (r: Option<nat>)
    ensures r.Some? ==> r.value < |s| && s[r.value] == c && c !in s[..r.value]
    ensures r.None? ==> c !in s
  {
    if s == [] then None
    else if s[0] == c then Some(0)
    else
      match IndexOf(s[1..], c)
      case None => assert s == [s[0]] + s[1..]; None
      case Some(i) => assert s[..i + 1] == [s[0]] + s[1..][..i]; Some(i + 1)
  }

  /** The e-mail test as a scan: no white space, one '@' after at least one character, and a
    * '.' with at least one character on each side between the '@' and the end. */
  predicate EmailTest(s: string) {
    (forall k :: 0 <= k < |s| ==> !IsJsWhitespace(s[k]))
    && match IndexOf(s, '@')
       case None => false
       case Some(i) => 1 <= i && i + 3 <= |s| && '@' !in s[i + 1..] && '.' in s[i + 2..|s| - 1]
  }

  /** In a pattern match, the only '@' is the separator and no character is white space. */
  lemma PatternChars(s: string, i: int, j: int)
    requires 0 <= i < j < |s| && s[i] == '@' && s[j] == '.'
    requires Plain(s[..i]) && Plain(s[i + 1..j]) && Plain(s[j + 1..])
    ensures forall k :: 0 <= k < |s| ==> !IsJsWhitespace(s[k]) && (s[k] == '@' ==> k == i)
  {
    var a, b, c := s[..i], s[i + 1..j], s[j + 1..];
    forall k | 0 <= k < |s| ensures !IsJsWhitespace(s[k]) && (s[k] == '@' ==> k == i) {
      if k < i { assert s[k] == a[k]; }
      else if i < k < j { assert s[k] == b[k - i - 1]; }
      else if j < k { assert s[k] == c[k - j - 1]; }
    }
  }

  lemma IndexOfOnly(s: string, c: char, i: int)
    requires 0 <= i < |s| && s[i] == c
    requires forall k :: 0 <= k < |s| && s[k] == c ==> k == i
    ensures IndexOf(s, c) == Some(i)
    ensures c !in s[i + 1..]
  {
    var t := s[i + 1..];
    forall k | 0 <= k < |t| ensures t[k] != c { assert t[k] == s[i + 1 + k]; }
  }

  lemma EmailPatternToTest(s: string)
    requires EmailPattern(s)
    ensures EmailTest(s)
  {
    var i, j :| 0 <= i < j < |s| && s[i] == '@' && s[j] == '.'
      && Plain(s[..i]) && Plain(s[i + 1..j]) && Plain(s[j + 1..]);
    PatternChars(s, i, j);
    IndexOfOnly(s, '@', i);
    assert s[i + 2..|s| - 1][j - i - 2] == '.';
  }

  lemma EmailTestToPattern(s: string)
    requires EmailTest(s)
    ensures EmailPattern(s)
  {
    var i := IndexOf(s, '@').value;
    var rest := s[i + 2..|s| - 1];
    var t :| 0 <= t < |rest| && rest[t] == '.';
    var j := i + 2 + t;
    assert s[j] == '.';
    var after := s[i + 1..];
    assert forall k :: 0 <= k < i ==> s[k] != '@' by {
      forall k | 0 <= k < i ensures s[k] != '@' { assert s[k] == s[..i][k]; }
    }
    assert forall k :: i + 1 <= k < |s| ==> s[k] != '@' by {
      forall k | i + 1 <= k < |s| ensures s[k] != '@' { assert s[k] == after[k - i - 1]; }
    }
    PlainSlice(s, 0, i);
    PlainSlice(s, i + 1, j);
    PlainSlice(s, j + 1, |s|);
    assert s[..i] == s[0..i] && s[j + 1..] == s[j + 1..|s|];
  }

  lemma PlainSlice(s: string, lo: int, hi: int)
    requires 0 <= lo < hi <= |s|
    requires forall k :: lo <= k < hi ==> s[k] != '@' && !IsJsWhitespace(s[k])
    ensures Plain(s[lo..hi])
  {
    forall k | 0 <= k < hi - lo ensures s[lo..hi][k] != '@' && !IsJsWhitespace(s[lo..hi][k]) {
      assert s[lo..hi][k] == s[lo + k];
    }
  }

  /** The scan accepts exactly the strings the regular expression matches. */
  lemma EmailTestIsPattern(s: string)
    ensures EmailTest(s) <==> EmailPattern(s)
  {
    if EmailTest(s) { EmailTestToPattern(s); }
    if EmailPattern(s) { EmailPatternToTest(s); }
  }

  // ---------------------------------------------------------------------------------------
  // The telephone pattern, applied to the digits of the value
  // ---------------------------------------------------------------------------------------

  /** `[1-9][0-9]`, the optional area code. */
  predicate AreaCode(p: string) {
    |p| == 2 && '1' <= p[0] <= '9' && IsDigit(p[1])
  }

  /** `(?:9\d|[2-9])\d{3}`, the exchange. */
  predicate Exchange(m: string) {
    AllDigits(m) && ((|m| == 5 && m[0] == '9') || (|m| == 4 && '2' <= m[0] <= '9'))
  }

  /** `\d{4}`, the line number. */
  predicate LineNumber(q: string) {
    |q| == 4 && AllDigits(q)
  }

  /** The string splits into an area code of length a (none when a is 0), an exchange of length b
    * and a line number. */
  predicate TelefoneSplit(t: string, a: int, b: int) {
    0 <= a && 0 <= b && a + b <= |t|
    && (a == 0 || AreaCode(t[..a])) && Exchange(t[a..a + b]) && LineNumber(t[a + b..])
  }

  /** The regular expression on a string of digits, where its optional '(', ')', white space
    * and '-' cannot occur. */
  predicate TelefonePattern(t: string) {
    TelefoneSplit(t, 0, 4) || TelefoneSplit(t, 0, 5) || TelefoneSplit(t, 2, 4) || TelefoneSplit(t, 2, 5)
  }

  /** The accepted digit strings by length: 8, 9, 10 or 11 digits with a fixed digit rule each. */
  predicate TelefoneByLength(t: string) {
    (|t| == 8 && '2' <= t[0] <= '9')
    || (|t| == 9 && t[0] == '9')
    || (|t| == 10 && t[0] != '0' && '2' <= t[2] <= '9')
    || (|t| == 11 && t[0] != '0' && t[2] == '9')
  }

  lemma TelefonePatternByLength(t: string)
    requires AllDigits(t)
    ensures TelefonePattern(t) <==> TelefoneByLength(t)
  {
    if |t| == 10 {
      assert t[2..6][0] == t[2];
      assert AllDigits(t[..2]) && AllDigits(t[2..6]) && AllDigits(t[6..]);
    } else if |t| == 11 {
      assert t[2..7][0] == t[2];
      assert AllDigits(t[..2]) && AllDigits(t[2..7]) && AllDigits(t[7..]);
    } else if |t| == 8 {
      assert AllDigits(t[0..4]) && AllDigits(t[4..]);
    } else if |t| == 9 {
      assert AllDigits(t[0..5]) && AllDigits(t[5..]);
    }
  }

  // ---------------------------------------------------------------------------------------
  // Rules
  // ---------------------------------------------------------------------------------------

  /** `Number(value)` for the integers the model reads: a non-empty string of decimal digits. */
  function NumberValue(s: string): Option<int> {
    if s != "" && AllDigits(s) then Some(ParseDigits(s)) else None
  }

  /** The `test` of each rule. */
  predicate Test(r: Rule, v: Value) {
    match r
    case Required(_) => !Falsy(v) && Trim(v.value) != ""
    case Email => Falsy(v) || EmailTest(v.value)
    case Telefone => Falsy(v) || TelefonePattern(DigitsOnly(v.value))
    case MinLength(n, _) => Falsy(v) || |v.value| >= n
    case MaxLength(n, _) => Falsy(v) || |v.value| <= n
    case NumberInRange(lo, hi, _) =>
      Falsy(v) || (var x := NumberValue(v.value); x.Some? && lo <= x.value && x.value <= hi)
  }

  /** `required` fails exactly on absent, empty and white-space-only values. */
  lemma RequiredRejectsBlank(f: string, v: Value)
    ensures Test(Required(f), v) <==> v.Some? && !AllWhitespace(v.value)
  {
    if v.Some? { TrimEmptyIff(v.value); }
  }

  /** Every rule but `required` accepts an absent or empty value. */
  lemma OptionalRulesAcceptEmpty(r: Rule, v: Value)
    requires !r.Required? && Falsy(v)
    ensures Test(r, v)
  {
  }

  /** `email` accepts a present value iff it matches the pattern. */
  lemma EmailRule(s: string)
    requires s != ""
    ensures Test(Email, Some(s)) <==> EmailPattern(s)
  {
    EmailTestIsPattern(s);
  }

  /** `telefone` passes a non-empty value only if it has 8 to 11 digits. */
  lemma TelefoneRule(s: string)
    requires s != ""
    ensures Test(Telefone, Some(s)) <==> TelefoneByLength(DigitsOnly(s))
    ensures Test(Telefone, Some(s)) ==> 8 <= |DigitsOnly(s)| <= 11
  {
    TelefonePatternByLength(DigitsOnly(s));
  }

  /** Length limits pass iff the value is empty or within the limit. */
  lemma LengthRules(n: int, f: string, s: string)
    ensures Test(MinLength(n, f), Some(s)) <==> s == "" || |s| >= n
    ensures Test(MaxLength(n, f), Some(s)) <==> s == "" || |s| <= n
  {
  }

  // ---------------------------------------------------------------------------------------
  // validateField and validateForm
  // ---------------------------------------------------------------------------------------

  datatype FieldResult = FieldResult(isValid: bool, message: string)

  /** The outcome of a rule list: the message of the first failing rule, or valid. */
  function FieldOutcome(v: Value, rules: seq<Rule>): FieldResult {
    if rules == [] then FieldResult(true, "")
    else if !Test(rules[0], v) then FieldResult(false, Message(rules[0]))
    else FieldOutcome(v, rules[1..])
  }

  /** A list of rules is valid iff every rule passes; otherwise the message is that of the first
    * rule, in list order, that fails. */
  lemma {:induction false} FieldOutcomeFirstFailure(v: Value, rules: seq<Rule>)
    ensures var r := FieldOutcome(v, rules);
      (r.isValid <==> forall i :: 0 <= i < |rules| ==> Test(rules[i], v))
      && (r.isValid ==> r.message == "")
      && (!r.isValid ==>
            (exists i :: 0 <= i < |rules| && !Test(rules[i], v)
               && (forall j :: 0 <= j < i ==> Test(rules[j], v)) && r.message == Message(rules[i])))
  {
    if rules != [] && Test(rules[0], v) {
      FieldOutcomeFirstFailure(v, rules[1..]);
      var r := FieldOutcome(v, rules);
      if !r.isValid {
        var i :| 0 <= i < |rules[1..]| && !Test(rules[1..][i], v)
          && (forall j :: 0 <= j < i ==> Test(rules[1..][j], v)) && r.message == Message(rules[1..][i]);
        assert forall j :: 0 <= j < i + 1 ==> Test(rules[j], v) by {
          forall j | 0 <= j < i + 1 ensures Test(rules[j], v) { if j > 0 { assert rules[j] == rules[1..][j - 1]; } }
        }
        assert rules[i + 1] == rules[1..][i];
      } else {
        forall i | 0 <= i < |rules| ensures Test(rules[i], v) { if i > 0 { assert rules[i] == rules[1..][i - 1]; } }
      }
    }
  }

  lemma {:induction false} FieldOutcomeSuffix(v: Value, rules: seq<Rule>, i: int)
    requires 0 <= i <= |rules|
    requires forall j :: 0 <= j < i ==> Test(rules[j], v)
    ensures FieldOutcome(v, rules) == FieldOutcome(v, rules[i..])
  {
    if i > 0 {
      assert rules[1..][i - 1..] == rules[i..];
      FieldOutcomeSuffix(v, rules[1..], i - 1);
    }
  }

  method ValidateField(value: Value, rules: seq<Rule>) returns (r: FieldResult)
    ensures r == FieldOutcome(value, rules)
    ensures r.isValid <==> forall i :: 0 <= i < |rules| ==> Test(rules[i], value)
    ensures !r.isValid ==>
      (exists i :: 0 <= i < |rules| && !Test(rules[i], value)
         && (forall j :: 0 <= j < i ==> Test(rules[j], value)) && r.message == Message(rules[i]))
  {
    FieldOutcomeFirstFailure(value, rules);
    for i := 0 to |rules|
      invariant forall j :: 0 <= j < i ==> Test(rules[j], value)
    {
      if !Test(rules[i], value) {
        FieldOutcomeSuffix(value, rules, i);
        return FieldResult(false, Message(rules[i]));
      }
    }
    return FieldResult(true, "");
  }

  /** `values[fieldName]`. */
  function FieldValue(values: map<string, string>, fieldName: string): Value {
    if fieldName in values then Some(values[fieldName]) else None
  }

  /** The rule map, in the order `Object.keys` lists it. */
  type RuleSet = seq<(string, seq<Rule>)>

  predicate UniqueFields(rs: RuleSet) {
    forall i, j :: 0 <= i < j < |rs| ==> rs[i].0 != rs[j].0
  }

  /** The error map after the fields of rs have been visited in order. */
  function FormErrors(values: map<string, string>, rs: RuleSet): map<string, string> {
    if rs == [] then map[]
    else
      var errors := FormErrors(values, rs[..|rs| - 1]);
      var (fieldName, rules) := rs[|rs| - 1];
      var result := FieldOutcome(FieldValue(values, fieldName), rules);
      if !result.isValid then errors[fieldName := result.message] else errors
  }

  /**
   * For distinct field names (as an object's keys are), the error map holds exactly the fields
   * whose rules fail, each with its first failing message; fields without rules never appear.
   */
  lemma {:induction false} FormErrorsExact(values: map<string, string>, rs: RuleSet)
    requires UniqueFields(rs)
    ensures var errors := FormErrors(values, rs);
      (forall f :: f in errors ==> exists i :: 0 <= i < |rs| && rs[i].0 == f)
      && (forall i :: 0 <= i < |rs| ==>
            var result := FieldOutcome(FieldValue(values, rs[i].0), rs[i].1);
            (rs[i].0 in errors <==> !result.isValid)
            && (rs[i].0 in errors ==> errors[rs[i].0] == result.message))
  {
    if rs != [] {
      var init := rs[..|rs| - 1];
      assert UniqueFields(init) by {
        forall i, j | 0 <= i < j < |init| ensures init[i].0 != init[j].0 { assert init[i] == rs[i] && init[j] == rs[j]; }
      }
      FormErrorsExact(values, init);
      ErrorKeysStep(values, rs);
      ErrorOutcomesStep(values, rs);
    }
  }

  /** Every key of the error map is a field of the rule map. */
  predicate ErrorKeysListed(errors: map<string, string>, rs: RuleSet) {
    forall f :: f in errors ==> exists i :: 0 <= i < |rs| && rs[i].0 == f
  }

  lemma ErrorKeysStep(values: map<string, string>, rs: RuleSet)
    requires rs != [] && ErrorKeysListed(FormErrors(values, rs[..|rs| - 1]), rs[..|rs| - 1])
    ensures ErrorKeysListed(FormErrors(values, rs), rs)
  {
    var init := rs[..|rs| - 1];
    var errors := FormErrors(values, rs);
    forall f | f in errors ensures exists i :: 0 <= i < |rs| && rs[i].0 == f {
      if f != rs[|rs| - 1].0 {
        var i :| 0 <= i < |init| && init[i].0 == f;
        assert rs[i] == init[i];
      }
    }
  }

  /** Each field of the rule map is in the error map iff its rules fail, with the first failure's message. */
  predicate ErrorsMatchOutcomes(values: map<string, string>, rs: RuleSet, errors: map<string, string>) {
    forall i :: 0 <= i < |rs| ==> OutcomeRecorded(values, rs[i], errors)
  }

  predicate OutcomeRecorded(values: map<string, string>, field: (string, seq<Rule>), errors: map<string, string>) {
    var result := FieldOutcome(FieldValue(values, field.0), field.1);
    (field.0 in errors <==> !result.isValid) && (field.0 in errors ==> errors[field.0] == result.message)
  }

  lemma ErrorOutcomesStep(values: map<string, string>, rs: RuleSet)
    requires rs != [] && UniqueFields(rs)
    requires ErrorKeysListed(FormErrors(values, rs[..|rs| - 1]), rs[..|rs| - 1])
    requires ErrorsMatchOutcomes(values, rs[..|rs| - 1], FormErrors(values, rs[..|rs| - 1]))
    ensures ErrorsMatchOutcomes(values, rs, FormErrors(values, rs))
  {
    var init := rs[..|rs| - 1];
    var prev := FormErrors(values, init);
    var last := |rs| - 1;
    LastNotListedBefore(values, rs);
    forall i | 0 <= i < |rs| ensures OutcomeRecorded(values, rs[i], FormErrors(values, rs)) {
      if i < last {
        assert rs[i] == init[i];
        assert OutcomeRecorded(values, rs[i], prev);
        EarlierRecorded(values, rs, i);
      } else {
        LastRecorded(values, rs);
      }
    }
  }

  lemma LastRecorded(values: map<string, string>, rs: RuleSet)
    requires rs != [] && rs[|rs| - 1].0 !in FormErrors(values, rs[..|rs| - 1])
    ensures OutcomeRecorded(values, rs[|rs| - 1], FormErrors(values, rs))
  {
    FormErrorsLast(values, rs);
  }

  lemma EarlierRecorded(values: map<string, string>, rs: RuleSet, i: int)
    requires 0 <= i < |rs| - 1 && rs[i].0 != rs[|rs| - 1].0
    requires OutcomeRecorded(values, rs[i], FormErrors(values, rs[..|rs| - 1]))
    ensures OutcomeRecorded(values, rs[i], FormErrors(values, rs))
  {
    FormErrorsLast(values, rs);
    var result := FieldOutcome(FieldValue(values, rs[|rs| - 1].0), rs[|rs| - 1].1);
    if !result.isValid {
      RecordedUnderUpdate(values, rs[i], FormErrors(values, rs[..|rs| - 1]), rs[|rs| - 1].0, result.message);
    }
  }

  /** The error map of a non-empty rule map: that of all but the last field, plus the last field's error if any. */
  lemma FormErrorsLast(values: map<string, string>, rs: RuleSet)
    requires rs != []
    ensures var result := FieldOutcome(FieldValue(values, rs[|rs| - 1].0), rs[|rs| - 1].1);
      FormErrors(values, rs) == if !result.isValid then FormErrors(values, rs[..|rs| - 1])[rs[|rs| - 1].0 := result.message]
                                else FormErrors(values, rs[..|rs| - 1])
  {
  }

  /** With distinct field names the last field has no error before it is visited. */
  lemma LastNotListedBefore(values: map<string, string>, rs: RuleSet)
    requires rs != [] && UniqueFields(rs)
    requires ErrorKeysListed(FormErrors(values, rs[..|rs| - 1]), rs[..|rs| - 1])
    ensures rs[|rs| - 1].0 !in FormErrors(values, rs[..|rs| - 1])
  {
  }

  /** Adding another field's error leaves a field's record as it was. */
  lemma RecordedUnderUpdate(values: map<string, string>, field: (string, seq<Rule>), prev: map<string, string>,
                            key: string, message: string)
    requires field.0 != key && OutcomeRecorded(values, field, prev)
    ensures OutcomeRecorded(values, field, prev[key := message])
  {
  }

  /** The error map is empty iff every listed field passes all of its rules. */
  lemma {:induction false} FormErrorsEmptyIff(values: map<string, string>, rs: RuleSet)
    ensures |FormErrors(values, rs)| == 0 <==>
      forall i :: 0 <= i < |rs| ==> FieldOutcome(FieldValue(values, rs[i].0), rs[i].1).isValid
  {
    if rs != [] {
      var init := rs[..|rs| - 1];
      FormErrorsEmptyIff(values, init);
      var last := |rs| - 1;
      var result := FieldOutcome(FieldValue(values, rs[last].0), rs[last].1);
      if !result.isValid {
        assert rs[last].0 in FormErrors(values, rs);
      } else {
        assert forall i :: 0 <= i < |init| ==> init[i] == rs[i];
      }
    }
  }

  method ValidateForm(values: map<string, string>, validationRules: RuleSet) returns (errors: map<string, string>)
    ensures errors == FormErrors(values, validationRules)
  {
    errors := map[];
    for i := 0 to |validationRules|
      invariant errors == FormErrors(values, validationRules[..i])
    {
      var (fieldName, rules) := validationRules[i];
      var result := ValidateField(FieldValue(values, fieldName), rules);
      assert validationRules[..i + 1][..i] == validationRules[..i];
      if !result.isValid {
        errors := errors[fieldName := result.message];
      }
    }
    assert validationRules[..|validationRules|] == validationRules;
  }

  lemma NotBlank(s: string)
    requires s != "" && !IsJsWhitespace(s[0])
    ensures Trim(s) != ""
  {
    TrimEmptyIff(s);
  }

  lemma IndexOfAfter(a: string, c: char, b: string)
    requires c !in a
    ensures IndexOf(a + [c] + b, c) == Some(|a|)
  {
    var s := a + [c] + b;
    assert s[|a|] == c;
  }

  lemma UsuarioNotEmail()
    ensures !EmailTest("usuario@exemplo")
  {
    var s := "usuario" + ['@'] + "exemplo";
    IndexOfAfter("usuario", '@', "exemplo");
    assert '.' !in s[9..|s| - 1] by {
      assert s[9..|s| - 1] == "xempl";
    }
    assert s == "usuario@exemplo";
  }

  lemma EmailFieldExample()
    ensures FieldOutcome(Some("usuario@exemplo"), [Required("Email"), Email]) == FieldResult(false, "Formato de email inválido.")
  {
    NotBlank("usuario@exemplo");
    UsuarioNotEmail();
    assert [Required("Email"), Email][1..] == [Email];
  }

  lemma SenhaFieldExample()
    ensures FieldOutcome(Some("123"), [Required("Senha"), MinLength(6, "Senha")])
         == FieldResult(false, "O campo Senha deve ter no mínimo 6 caracteres.")
  {
    var rules := [Required("Senha"), MinLength(6, "Senha")];
    NotBlank("123");
    assert Test(rules[0], Some("123"));
    assert !Test(rules[1], Some("123"));
    assert rules[1..] == [MinLength(6, "Senha")];
    assert FieldOutcome(Some("123"), rules) == FieldResult(false, Message(MinLength(6, "Senha")));
    SenhaMessage();
  }

  lemma SenhaMessage()
    ensures Message(MinLength(6, "Senha")) == "O campo Senha deve ter no mínimo 6 caracteres."
  {
    MinLengthMessage(6, "Senha");
    assert IntToString(6) == "6";
    SenhaText();
  }

  lemma MinLengthMessage(n: int, f: string)
    ensures Message(MinLength(n, f)) == "O campo " + f + " deve ter no mínimo " + IntToString(n) + " caracteres."
  {
  }

  lemma SenhaText()
    ensures "O campo " + "Senha" + " deve ter no mínimo " + "6" + " caracteres."
      == "O campo Senha deve ter no mínimo 6 caracteres."
  {
    SenhaHead();
    SenhaTail();
  }

  lemma SenhaHead()
    ensures "O campo " + "Senha" + " deve ter no mínimo " == "O campo Senha deve ter no mínimo "
  {
    assert "O campo " + "Senha" == "O campo Senha";
  }

  lemma SenhaTail()
    ensures "O campo Senha deve ter no mínimo " + "6" + " caracteres." == "O campo Senha deve ter no mínimo 6 caracteres."
  {
    assert "O campo Senha deve ter no mínimo " + "6" == "O campo Senha deve ter no mínimo 6";
  }

  /** Visiting one more field adds its error, if any, to the map built so far. */
  lemma FormErrorsSnoc(values: map<string, string>, rs: RuleSet, fieldName: string, rules: seq<Rule>)
    ensures var result := FieldOutcome(FieldValue(values, fieldName), rules);
      FormErrors(values, rs + [(fieldName, rules)])
      == if !result.isValid then FormErrors(values, rs)[fieldName := result.message] else FormErrors(values, rs)
  {
    assert (rs + [(fieldName, rules)])[..|rs|] == rs;
  }

  /** The documented login example: both fields fail, with these two messages. */
  lemma LoginExample()
    ensures FormErrors(map["email" := "usuario@exemplo", "senha" := "123"],
                       [("email", [Required("Email"), Email]), ("senha", [Required("Senha"), MinLength(6, "Senha")])])
         == map["email" := "Formato de email inválido.", "senha" := "O campo Senha deve ter no mínimo 6 caracteres."]
  {
    var values := map["email" := "usuario@exemplo", "senha" := "123"];
    var emailRules, senhaRules := [Required("Email"), Email], [Required("Senha"), MinLength(6, "Senha")];
    var first := [("email", emailRules)];
    var emailMessage, senhaMessage := "Formato de email inválido.", "O campo Senha deve ter no mínimo 6 caracteres.";
    assert FormErrors(values, first) == map["email" := emailMessage] by {
      EmailFieldExample();
      assert FieldValue(values, "email") == Some("usuario@exemplo");
      FormErrorsSnoc(values, [], "email", emailRules);
      assert [] + first == first;
    }
    assert FormErrors(values, first + [("senha", senhaRules)]) == FormErrors(values, first)["senha" := senhaMessage] by {
      SenhaFieldExample();
      assert FieldValue(values, "senha") == Some("123");
      FormErrorsSnoc(values, first, "senha", senhaRules);
    }
    assert first + [("senha", senhaRules)] == [("email", emailRules), ("senha", senhaRules)];
  }
}
