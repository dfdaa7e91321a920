/**
 * The sign-up page: its phone mask, built with `+=` from the groups of a regular expression, and
 * the chain of checks run before the sign-up call.
 */
module SignupPage {
  import opened Wrappers
  import opened Strings
  import opened Notices
  import AlunoFormPage

  const REQUIRED_MESSAGE := "Por favor, preencha todos os campos obrigatórios."
  const MISMATCH_MESSAGE := "As senhas não coincidem."
  const TERMS_MESSAGE := "Você precisa aceitar os termos de uso e política de privacidade."
  const SUCCESS_MESSAGE := "Cadastro realizado com sucesso! Redirecionando para o login..."
  const ERROR_MESSAGE := "Ocorreu um erro durante o cadastro. Tente novamente mais tarde."

  type Groups = (string, string, string)

  /** A way to match `^(\d{0,2})(\d{0,5})(\d{0,4})$` against d: three digit groups of bounded length. */
  predicate IsGroupSplit(d: string, g: Groups) {
    g.0 + g.1 + g.2 == d && |g.0| <= 2 && |g.1| <= 5 && |g.2| <= 4
    && AllDigits(g.0) && AllDigits(g.1) && AllDigits(g.2)
  }

  /**
   * `cleaned.match(...)` on a digit string: no match beyond 11 digits; otherwise the match a
   * backtracking matcher reports first, the longest first group and then the longest second.
   */
  function PhoneMatch(d: string): (m: Option<Groups>)
    requires AllDigits(d)
    ensures m.Some? <==> |d| <= 11
    ensures m.Some? ==> IsGroupSplit(d, m.value)
    ensures m.Some? ==> forall g :: IsGroupSplit(d, g) ==>
      |g.0| < |m.value.0| || (|g.0| == |m.value.0| && |g.1| <= |m.value.1|)
  {
    if |d| > 11 then
      assert forall g :: IsGroupSplit(d, g) ==> |g.0 + g.1 + g.2| <= 11;
      None
    else
      var n1 := if |d| < 2 then |d| else 2;
      var n2 := if |d| - n1 < 5 then |d| - n1 else 5;
      var g := (d[..n1], d[n1..n1 + n2], d[n1 + n2..]);
      assert g.0 + g.1 + g.2 == d;
      assert forall h :: IsGroupSplit(d, h) ==> |h.0 + h.1 + h.2| == |d|;
      Some(g)
  }

  /** A group with its leading punctuation; an empty group adds nothing. */
  function Piece(sep: string, group: string): string {
    if group != "" then sep + group else ""
  }

  function MaskOf(g: Groups): string {
    Piece("(", g.0) + Piece(") ", g.1) + Piece("-", g.2)
  }

  /** The formatted value `formatPhone` returns. */
  function PhoneMask(value: string): string {
    if value == "" then ""
    else
      var cleaned := DigitsOnly(value);
      match PhoneMatch(cleaned)
      case None => cleaned
      case Some(g) => MaskOf(g)
  }

  /** `formatPhone`: appends each non-empty group with its punctuation. */
  method FormatPhone(value: string) returns (r: string)
    ensures r == PhoneMask(value)
  {
    if value == "" {
      return "";
    }
    var cleaned := DigitsOnly(value);
    var m := PhoneMatch(cleaned);
    if m.Some? {
      var (g1, g2, g3) := m.value;
      var formatted := "";
      if g1 != "" {
        formatted := formatted + ("(" + g1);
      }
      assert formatted == Piece("(", g1);
      if g2 != "" {
        formatted := formatted + (") " + g2);
      }
      assert formatted == Piece("(", g1) + Piece(") ", g2);
      if g3 != "" {
        formatted := formatted + ("-" + g3);
      }
      return formatted;
    }
    return cleaned;
  }

  function PunctuationLength(n: nat): nat {
    (if n >= 1 then 1 else 0) + (if n >= 3 then 2 else 0) + (if n >= 8 then 1 else 0)
  }

  lemma PieceDigits(x: string, sep: string, a: string)
    requires AllDigits(a) && forall i :: 0 <= i < |sep| ==> !IsDigit(sep[i])
    ensures DigitsOnly(x + Piece(sep, a)) == DigitsOnly(x) + a
  {
    if a == "" {
      assert x + Piece(sep, a) == x;
    } else {
      DigitsOnlyConcat(x, sep + a);
      DigitsOnlyConcat(sep, a);
      DigitsOnlyOfNonDigits(sep);
      DigitsOnlyOfDigits(a);
      assert "" + a == a;
    }
  }

  /** The mask of a regular-expression match keeps its digits and adds the punctuation. */
  lemma MaskOfDigits(d: string, g: Groups)
    requires IsGroupSplit(d, g) && (g.1 != "" ==> |g.0| == 2) && (g.2 != "" ==> |g.1| == 5)
    ensures DigitsOnly(MaskOf(g)) == d
    ensures |MaskOf(g)| == |d| + PunctuationLength(|d|)
    ensures d != "" ==> MaskOf(g)[0] == '('
  {
    assert DigitsOnly(Piece("(", g.0)) == g.0 by {
      PieceDigits("", "(", g.0);
      assert "" + Piece("(", g.0) == Piece("(", g.0);
    }
    assert DigitsOnly(Piece("(", g.0) + Piece(") ", g.1)) == g.0 + g.1 by {
      PieceDigits(Piece("(", g.0), ") ", g.1);
    }
    PieceDigits(Piece("(", g.0) + Piece(") ", g.1), "-", g.2);
  }

  /** The match is greedy: a later group is non-empty only once the earlier ones are full. */
  lemma PhoneMatchGreedy(d: string)
    requires AllDigits(d) && |d| <= 11
    ensures var g := PhoneMatch(d).value; (g.1 != "" ==> |g.0| == 2) && (g.2 != "" ==> |g.1| == 5)
  {
  }

  /**
   * Up to 11 digits, the mask keeps exactly the input's digits, opens with `(` and adds one
   * character per group boundary reached.
   */
  lemma PhoneMaskDigits(value: string)
    requires |DigitsOnly(value)| <= 11
    ensures var d, r := DigitsOnly(value), PhoneMask(value);
      DigitsOnly(r) == d && |r| == |d| + PunctuationLength(|d|) && (d != "" ==> r[0] == '(')
  {
    var d := DigitsOnly(value);
    PhoneMatchGreedy(d);
    MaskOfDigits(d, PhoneMatch(d).value);
    if value == "" {
      assert d == "";
    }
  }

  /** Beyond 11 digits the regular expression fails and the bare digits come back. */
  lemma PhoneMaskLong(value: string)
    requires |DigitsOnly(value)| > 11
    ensures PhoneMask(value) == DigitsOnly(value)
  {
  }

  /** Formatting an already formatted value changes nothing. */
  lemma PhoneMaskIdempotent(value: string)
    ensures PhoneMask(PhoneMask(value)) == PhoneMask(value)
  {
    var d := DigitsOnly(value);
    var r := PhoneMask(value);
    if value == "" {
    } else if |d| > 11 {
      DigitsOnlyOfDigits(d);
    } else if d == "" {
      assert PhoneMatch(d).value == ("", "", "");
    } else {
      PhoneMaskDigits(value);
      assert r != "";
    }
  }

  /** Two digits give an opened parenthesis, where the student form's mask leaves them bare. */
  lemma MasksDiffer()
    ensures PhoneMask("11") == "(11"
    ensures AlunoFormPage.FormatTelefone("11") == "11"
  {
    DigitsOnlyOfDigits("11");
    assert PhoneMatch("11").value == ("11", "", "");
  }

  /** Text without digits formats to the empty string. */
  lemma PhoneMaskNoDigits(value: string)
    requires forall i :: 0 <= i < |value| ==> !IsDigit(value[i])
    ensures PhoneMask(value) == ""
  {
    DigitsOnlyOfNonDigits(value);
    if value != "" {
      assert PhoneMatch("").value == ("", "", "");
    }
  }

  /**
   * The checks of `handleSubmit`, in order: a missing required field (telephone is not one),
   * then different passwords, then the unaccepted terms.
   */
  function SignupError(nome: string, email: string, senha: string, confirmarSenha: string,
                       perfil: string, termos: bool): (r: Option<string>)
    ensures r.None? <==>
      nome != "" && email != "" && senha != "" && confirmarSenha != "" && perfil != ""
      && senha == confirmarSenha && termos
    ensures (nome == "" || email == "" || senha == "" || confirmarSenha == "" || perfil == "")
      ==> r == Some(REQUIRED_MESSAGE)
    ensures r == Some(MISMATCH_MESSAGE) <==>
      nome != "" && email != "" && senha != "" && confirmarSenha != "" && perfil != ""
      && senha != confirmarSenha
    ensures r == Some(TERMS_MESSAGE) <==>
      nome != "" && email != "" && senha != "" && confirmarSenha != "" && perfil != ""
      && senha == confirmarSenha && !termos
  {
    if nome == "" || email == "" || senha == "" || confirmarSenha == "" || perfil == "" then
      Some(REQUIRED_MESSAGE)
    else if senha != confirmarSenha then Some(MISMATCH_MESSAGE)
    else if !termos then Some(TERMS_MESSAGE)
    else None
  }

  class SignupForm {
    var nome: string
    var email: string
    var senha: string
    var confirmarSenha: string
    var telefone: string
    var perfil: string
    var termos: bool
    var message: PageMessage
    var isSubmitting: bool

    constructor ()
      ensures nome == "" && email == "" && senha == "" && confirmarSenha == "" && telefone == ""
      ensures perfil == "" && !termos && message == NO_MESSAGE && !isSubmitting
    {
      nome, email, senha, confirmarSenha, telefone, perfil := "", "", "", "", "", "";
      termos := false;
      message := NO_MESSAGE;
      isSubmitting := false;
    }

    /** The telephone input stores the masked value. */
    method HandlePhoneChange(value: string)
      modifies this
      ensures telefone == PhoneMask(value)
      ensures nome == old(nome) && email == old(email) && senha == old(senha)
      ensures confirmarSenha == old(confirmarSenha) && perfil == old(perfil) && termos == old(termos)
      ensures message == old(message) && isSubmitting == old(isSubmitting)
    {
      telefone := FormatPhone(value);
    }

    /**
     * The synchronous part of `handleSubmit`: a failed check shows its message and stops;
     * otherwise `isSubmitting` is set and the message cleared before the call.
     */
    method SubmitBegin() returns (proceed: bool)
      modifies this
      ensures var err := SignupError(nome, email, senha, confirmarSenha, perfil, termos);
        (proceed <==> err.None?)
        && (err.Some? ==> message == Danger(err.value) && isSubmitting == old(isSubmitting))
        && (err.None? ==> message == NO_MESSAGE && isSubmitting)
      ensures nome == old(nome) && email == old(email) && senha == old(senha) && telefone == old(telefone)
      ensures confirmarSenha == old(confirmarSenha) && perfil == old(perfil) && termos == old(termos)
    {
      var err := SignupError(nome, email, senha, confirmarSenha, perfil, termos);
      if err.Some? {
        message := Danger(err.value);
        return false;
      }
      isSubmitting := true;
      message := NO_MESSAGE;
      return true;
    }

    /** After the awaited call: success, the call's own failure message, or the generic error;
      * `isSubmitting` is false in every case. */
    method Finish(outcome: CallOutcome)
      modifies this
      ensures outcome.Resolved? && outcome.success ==> message == PageMessage("success", SUCCESS_MESSAGE)
      ensures outcome.Resolved? && !outcome.success ==> message == Danger(outcome.message)
      ensures outcome.Threw? ==> message == Danger(ERROR_MESSAGE)
      ensures !isSubmitting
      ensures nome == old(nome) && email == old(email) && senha == old(senha) && telefone == old(telefone)
      ensures confirmarSenha == old(confirmarSenha) && perfil == old(perfil) && termos == old(termos)
    {
      if outcome.Threw? {
        message := Danger(ERROR_MESSAGE);
      } else if outcome.success {
        message := PageMessage("success", SUCCESS_MESSAGE);
      } else {
        message := Danger(outcome.message);
      }
      isSubmitting := false;
    }
  }
}
