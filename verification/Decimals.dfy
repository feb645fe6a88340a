/** Printing integers in decimal and reading them back: `BigInt.prototype.toString` and `BigInt(text)`, `String(i)` for
    array indices, numbers inside a template string. */
module Decimals {

  function Digit(d: nat): char
    requires d < 10
  {
    ['0', '1', '2', '3', '4', '5', '6', '7', '8', '9'][d]
  }

  function DigitValue(c: char): nat {
    if '0' <= c <= '9' then (c - '0') as nat else 0
  }

  function Digits(n: nat): (s: string)
    ensures s != [] && forall i :: 0 <= i < |s| ==> '0' <= s[i] <= '9'
  {
    if n < 10 then [Digit(n)] else Digits(n / 10) + [Digit(n % 10)]
  }

  function Value(s: string): nat {
    if s == [] then 0 else Value(s[..|s| - 1]) * 10 + DigitValue(s[|s| - 1])
  }

  function Print(n: int): string {
    if n < 0 then ['-'] + Digits(-n) else Digits(n)
  }

  function Parse(s: string): int {
    if s != [] && s[0] == '-' then -(Value(s[1..]) as int) else Value(s)
  }

  lemma DigitComesBack(d: nat)
    requires d < 10
    ensures DigitValue(Digit(d)) == d
  {
  }

  lemma {:induction false} ValueOfDigits(n: nat)
    ensures Value(Digits(n)) == n
  {
    DigitComesBack(n % 10);
    if n < 10 {
      assert Digits(n)[..0] == [];
    } else {
      ValueOfDigits(n / 10);
      var s := Digits(n);
      assert s[..|s| - 1] == Digits(n / 10) && s[|s| - 1] == Digit(n % 10);
    }
  }

  lemma ParseOfSign(s: string)
    ensures Parse(['-'] + s) == -(Value(s) as int)
    ensures s != [] && s[0] != '-' ==> Parse(s) == Value(s)
  {
    assert (['-'] + s)[1..] == s;
  }

  lemma ParseOfPrint(n: int)
    ensures Parse(Print(n)) == n
  {
    var magnitude: nat := if n < 0 then -n else n;
    ParseOfSign(Digits(magnitude));
    ValueOfDigits(magnitude);
  }
}
