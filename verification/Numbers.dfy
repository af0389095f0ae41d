// Decimal text: how the scripts print whole numbers and read them back.
module Numbers {
  import opened Wrappers

  predicate IsDigit(c: char) { '0' <= c <= '9' }

  predicate AllDigits(s: string) { forall i :: 0 <= i < |s| ==> IsDigit(s[i]) }

  function Digit(d: nat): (c: char)
    requires d < 10
    ensures IsDigit(c) && DigitValue(c) == d
  {
    (('0' as int) + d) as char
  }

  function DigitValue(c: char): (d: nat)
    requires IsDigit(c)
    ensures d < 10
  {
    (c as int) - ('0' as int)
  }

  function Decimal(n: nat): (s: string)
    ensures s != "" && AllDigits(s)
  {
    if n < 10 then [Digit(n)] else Decimal(n / 10) + [Digit(n % 10)]
  }

  function Value(s: string): nat
    requires AllDigits(s)
  {
    if s == "" then 0 else 10 * Value(s[..|s| - 1]) + DigitValue(s[|s| - 1])
  }

  lemma {:induction false} ValueOfDecimal(n: nat)
    ensures Value(Decimal(n)) == n
  {
    if n >= 10 {
      ValueOfDecimal(n / 10);
      var s := Decimal(n);
      assert s[..|s| - 1] == Decimal(n / 10);
    } else {
      assert Decimal(n)[..0] == "";
    }
  }

  /**
   * `int(text)` on text without surrounding white space: an optional sign, then digits, single
   * underscores between them.
   */
  function ParseInt(s: string): Option<int> {
    if s != "" && s[0] == '-' then
      var u := Unsigned(s[1..]);
      if u.None? then None else Some(0 - u.value)
    else
      var u := Unsigned(if s != "" && s[0] == '+' then s[1..] else s);
      if u.None? then None else Some(u.value)
  }

  function Unsigned(s: string): Option<nat> {
    if s == "" || !IsDigit(s[0]) || !IsDigit(s[|s| - 1]) || !SingleUnderscores(s) then None
    else
      Some(Value(WithoutUnderscores(s)))
  }

  /** A digit, or an underscore with a digit behind it. */
  predicate WellPlaced(s: string, i: nat)
    requires i < |s|
  {
    IsDigit(s[i]) || (s[i] == '_' && i + 1 < |s| && IsDigit(s[i + 1]))
  }

  predicate SingleUnderscores(s: string) { forall i: nat :: i < |s| ==> WellPlaced(s, i) }

  function WithoutUnderscores(s: string): (r: string)
    requires SingleUnderscores(s)
    ensures AllDigits(r)
  {
    if s == "" then ""
    else
      assert WellPlaced(s, 0);
      assert forall i: nat :: i < |s[1..]| && WellPlaced(s, i + 1) ==> WellPlaced(s[1..], i);
      (if s[0] == '_' then "" else [s[0]]) + WithoutUnderscores(s[1..])
  }

  lemma {:induction false} NoUnderscores(s: string)
    requires AllDigits(s)
    ensures WithoutUnderscores(s) == s
  {
    if s != "" {
      NoUnderscores(s[1..]);
      assert s == [s[0]] + s[1..];
    }
  }

  /** A printed number reads back as itself. */
  lemma {:induction false} ParsePrinted(n: nat)
    ensures ParseInt(Decimal(n)) == Some(n)
  {
    hide Decimal, Value;
    var s := Decimal(n);
    ValueOfDecimal(n);
    assert IsDigit(s[0]);
    NoUnderscores(s);
  }
}
