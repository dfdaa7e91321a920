/**
 * The student form page: the telephone input mask applied on every keystroke, and the local
 * default-time controls handed to the calendar.
 */
module AlunoFormPage {
  import opened Strings
  import AlunoFormHook

  /** `formatTelefone`: `(dd) dddd-dddd` or `(dd) ddddd-dddd`, built from at most 11 digits. */
  function FormatTelefone(value: string): (r: string) {
    var d := DigitsOnly(value);
    if |d| <= 2 then d
    else if |d| <= 6 then "(" + d[..2] + ") " + d[2..]
    else if |d| <= 10 then "(" + d[..2] + ") " + d[2..6] + "-" + d[6..]
    else "(" + d[..2] + ") " + d[2..7] + "-" + d[7..11]
  }

  function Min(a: int, b: int): int {
    if a <= b then a else b
  }

  predicate MaskChar(c: char) {
    IsDigit(c) || c == '(' || c == ')' || c == ' ' || c == '-'
  }

  /** Appending a digit string adds its digits; appending a separator adds none. */
  lemma AppendDigits(x: string, a: string)
    requires AllDigits(a)
    ensures DigitsOnly(x + a) == DigitsOnly(x) + a
  {
    DigitsOnlyConcat(x, a);
    DigitsOnlyOfDigits(a);
  }

  lemma AppendSeparator(x: string, sep: string)
    requires forall i :: 0 <= i < |sep| ==> !IsDigit(sep[i])
    ensures DigitsOnly(x + sep) == DigitsOnly(x)
  {
    DigitsOnlyConcat(x, sep);
    DigitsOnlyOfNonDigits(sep);
    assert DigitsOnly(x) + "" == DigitsOnly(x);
  }

  lemma AppendNonDigit(x: string, c: char)
    requires !IsDigit(c)
    ensures DigitsOnly(x + [c]) == DigitsOnly(x)
  {
    DigitsOnlyConcat(x, [c]);
    assert DigitsOnly([c]) == [];
    assert DigitsOnly(x) + [] == DigitsOnly(x);
  }

  /** The digits of `(a) b`. */
  lemma ShortMaskDigits(a: string, b: string)
    requires AllDigits(a) && AllDigits(b)
    ensures DigitsOnly("(" + a + ") " + b) == a + b
  {
    assert DigitsOnly("(" + a) == a by {
      AppendDigits("(", a);
      DigitsOnlyOfNonDigits("(");
      assert "" + a == a;
    }
    assert DigitsOnly("(" + a + ") ") == a by { AppendSeparator("(" + a, ") "); }
    AppendDigits("(" + a + ") ", b);
  }

  /** The digits of `(a) b-c`. */
  lemma LongMaskDigits(a: string, b: string, c: string)
    requires AllDigits(a) && AllDigits(b) && AllDigits(c)
    ensures DigitsOnly("(" + a + ") " + b + "-" + c) == a + b + c
  {
    var x := "(" + a + ") " + b;
    ShortMaskDigits(a, b);
    AppendNonDigit(x, '-');
    AppendDigits(x + "-", c);
  }

  /** The digits of the output are the digits of the input, cut to 11. */
  lemma FormatTelefoneDigits(value: string)
    ensures var d := DigitsOnly(value); DigitsOnly(FormatTelefone(value)) == d[..Min(|d|, 11)]
  {
    var d := DigitsOnly(value);
    if |d| <= 2 {
      DigitsOnlyOfDigits(d);
      assert d[..Min(|d|, 11)] == d;
    } else if |d| <= 6 {
      assert FormatTelefone(value) == "(" + d[..2] + ") " + d[2..];
      ShortMaskOf(d);
      assert d[..Min(|d|, 11)] == d;
    } else if |d| <= 10 {
      assert FormatTelefone(value) == "(" + d[..2] + ") " + d[2..6] + "-" + d[6..];
      LongMaskOf(d, 6, |d|);
      assert d[6..] == d[6..|d|] && d[..|d|] == d && Min(|d|, 11) == |d|;
    } else {
      assert FormatTelefone(value) == "(" + d[..2] + ") " + d[2..7] + "-" + d[7..11];
      LongMaskOf(d, 7, 11);
    }
  }

  lemma ShortMaskOf(d: string)
    requires AllDigits(d) && 2 <= |d|
    ensures DigitsOnly("(" + d[..2] + ") " + d[2..]) == d
  {
    ShortMaskDigits(d[..2], d[2..]);
    assert d[..2] + d[2..] == d;
  }

  lemma LongMaskOf(d: string, i: nat, j: nat)
    requires AllDigits(d) && 2 <= i <= j <= |d|
    ensures DigitsOnly("(" + d[..2] + ") " + d[2..i] + "-" + d[i..j]) == d[..j]
  {
    LongMaskDigits(d[..2], d[2..i], d[i..j]);
    assert d[..2] + d[2..i] + d[i..j] == d[..j];
  }

  /** Re-applying the mask to its own output changes nothing: editing a formatted value is stable. */
  lemma FormatTelefoneIdempotent(value: string)
    ensures FormatTelefone(FormatTelefone(value)) == FormatTelefone(value)
  {
    var d := DigitsOnly(value);
    FormatTelefoneDigits(value);
    var e := DigitsOnly(FormatTelefone(value));
    if |d| > 11 {
      assert e[..2] == d[..2] && e[2..7] == d[2..7] && e[7..11] == d[7..11];
    } else {
      assert e == d;
    }
  }

  /** Every output character is a digit or one of the inserted `(`, `)`, space and `-`. */
  lemma FormatTelefoneChars(value: string)
    ensures var r := FormatTelefone(value); forall i :: 0 <= i < |r| ==> MaskChar(r[i])
  {
    var d := DigitsOnly(value);
    assert forall i :: 0 <= i < |d| ==> MaskChar(d[i]);
  }

  /** At most 15 characters (the input's `maxLength`), exactly 15 once 11 digits are typed. */
  lemma FormatTelefoneLength(value: string)
    ensures |FormatTelefone(value)| <= 15
    ensures |DigitsOnly(value)| >= 11 ==> |FormatTelefone(value)| == 15
    ensures var n := |DigitsOnly(value)|;
      if n <= 2 then |FormatTelefone(value)| == n
      else if n <= 6 then |FormatTelefone(value)| == n + 3
      else |FormatTelefone(value)| == Min(n, 11) + 4
  {
  }

  /** Three digits: the area code in parentheses, then the rest. */
  lemma FormatTelefoneAreaCodeExample()
    ensures FormatTelefone("119") == "(11) 9"
  {
    DigitsOnlyOfDigits("119");
  }

  /** Ten digits: a landline number. */
  lemma FormatTelefoneLandlineExample()
    ensures FormatTelefone("1133334444") == "(11) 3333-4444"
  {
    LandlineParts("1133334444");
    FormatLandlineDigits("1133334444");
    LandlineText();
  }

  lemma LandlineParts(d: string)
    requires d == "1133334444"
    ensures AllDigits(d) && |d| == 10 && d[..2] == "11" && d[2..6] == "3333" && d[6..] == "4444"
  {
    var a, b, c := "11", "3333", "4444";
    assert d == a + b + c;
    assert d[..2] == a && d[2..6] == b && d[6..] == c;
  }

  lemma LandlineText()
    ensures "(" + "11" + ") " + "3333" + "-" + "4444" == "(11) 3333-4444"
  {
    assert "(" + "11" == "(11";
    assert "(11" + ") " == "(11) ";
    assert "(11) " + "3333" == "(11) 3333";
    assert "(11) 3333" + "-" == "(11) 3333-";
  }

  /** The mask of a digit string of 7 to 10 digits. */
  lemma FormatLandlineDigits(d: string)
    requires AllDigits(d) && 7 <= |d| <= 10
    ensures FormatTelefone(d) == "(" + d[..2] + ") " + d[2..6] + "-" + d[6..]
  {
    DigitsOnlyOfDigits(d);
  }

  /** Eleven digits: a mobile number, which fills the 15 characters of the input. */
  lemma FormatTelefoneMobileExample()
    ensures FormatTelefone("11987654321") == "(11) 98765-4321"
  {
    MobileParts("11987654321");
    FormatFullDigits("11987654321");
    MobileText();
  }

  lemma MobileParts(d: string)
    requires d == "11987654321"
    ensures AllDigits(d) && |d| == 11 && d[..2] == "11" && d[2..7] == "98765" && d[7..11] == "4321"
  {
    var a, b, c := "11", "98765", "4321";
    assert d == a + b + c;
    assert d[..2] == a && d[2..7] == b && d[7..11] == c;
  }

  lemma MobileText()
    ensures "(" + "11" + ") " + "98765" + "-" + "4321" == "(11) 98765-4321"
  {
    assert "(" + "11" == "(11";
    assert "(11" + ") " == "(11) ";
    assert "(11) " + "98765" == "(11) 98765";
    assert "(11) 98765" + "-" == "(11) 98765-";
  }

  /** The mask of a digit string of at least 11 digits. */
  lemma FormatFullDigits(d: string)
    requires AllDigits(d) && |d| >= 11
    ensures FormatTelefone(d) == "(" + d[..2] + ") " + d[2..7] + "-" + d[7..11]
  {
    DigitsOnlyOfDigits(d);
  }

  /** A complete formatted mobile number is kept as it is. */
  lemma FormatTelefoneFormattedExample()
    ensures FormatTelefone("(11) 98765-4321") == "(11) 98765-4321"
  {
    FormatTelefoneMobileExample();
    FormatTelefoneIdempotent("11987654321");
  }

  /** The page's local default-time state and its "Aplicar" button. */
  class DefaultTimeControls {
    var defaultTime: string
    var useDefaultTime: bool

    constructor ()
      ensures defaultTime == "09:00" && !useDefaultTime
    {
      defaultTime := "09:00";
      useDefaultTime := false;
    }

    /** "Aplicar" is disabled while the form has no lessons. */
    static predicate AplicarDisabled(aulas: seq<AlunoFormHook.Aula>) {
      |aulas| == 0
    }

    /** A click on "Aplicar": flips the flag; a disabled button does nothing. */
    method Aplicar(aulas: seq<AlunoFormHook.Aula>)
      modifies this
      ensures AplicarDisabled(aulas) ==> useDefaultTime == old(useDefaultTime)
      ensures !AplicarDisabled(aulas) ==> useDefaultTime == !old(useDefaultTime)
      ensures defaultTime == old(defaultTime)
    {
      if !AplicarDisabled(aulas) {
        useDefaultTime := !useDefaultTime;
      }
    }

    /** The time input and the switch set their field directly. */
    method SetDefaultTime(time: string)
      modifies this
      ensures defaultTime == time && useDefaultTime == old(useDefaultTime)
    {
      defaultTime := time;
    }

    method SetUseDefaultTime(checked: bool)
      modifies this
      ensures useDefaultTime == checked && defaultTime == old(defaultTime)
    {
      useDefaultTime := checked;
    }
  }
}
