/** Numbers as text. */
module Numerals {
  import opened Options

  predicate IsDigitChar(c: char) {
    '0' <= c <= '9'
  }

  function DigitChar(d: nat): char
    requires d < 10
  {
    (48 + d) as char
  }

  function Digits(n: nat): string {
    if n < 10 then [DigitChar(n)] else Digits(n / 10) + [DigitChar(n % 10)]
  }

  function DigitValue(c: char): nat {
    if '0' <= c <= '9' then (c as int) - 48
    else if 'a' <= c <= 'f' then (c as int) - 87
    else if 'A' <= c <= 'F' then (c as int) - 55
    else 16
  }

  function ParseRadix(s: string, radix: nat): Option<nat> {
    if s == [] then None
    else
      var digit := DigitValue(s[|s| - 1]);
      if digit >= radix then None
      else if |s| == 1 then Some(digit)
      else
        var rest := ParseRadix(s[..|s| - 1], radix);
        if rest.None? then None else Some(rest.value * radix + digit)
  }

  lemma {:induction false} DigitsParse(n: nat)
    ensures ParseRadix(Digits(n), 10) == Some(n)
    ensures forall i | 0 <= i < |Digits(n)| :: IsDigitChar(Digits(n)[i])
    ensures Digits(n) != []
  {
    if n >= 10 {
      DigitsParse(n / 10);
      var init := Digits(n / 10);
      assert Digits(n)[..|init|] == init;
    }
  }
}
