/** Numbers as text: decimal, as `str` prints an int. */
module Text {

  function Digit(d: nat): char
    requires d < 10
  {
    '0' + d as char
  }

  function Decimal(n: nat): (s: string)
    ensures s != []
  {
    if n < 10 then [Digit(n)] else Decimal(n / 10) + [Digit(n % 10)]
  }

  /** `str` of an int */
  function IntText(n: int): (s: string)
    ensures s != []
  {
    if n < 0 then "-" + Decimal(-n) else Decimal(n)
  }

  predicate IsDigit(c: char) {
    '0' <= c <= '9'
  }

  function DigitValue(c: char): nat
    requires IsDigit(c)
  {
    c as nat - '0' as nat
  }

  function DecimalValue(s: string): nat
    requires forall i :: 0 <= i < |s| ==> IsDigit(s[i])
  {
    if s == [] then 0 else DecimalValue(s[..|s| - 1]) * 10 + DigitValue(s[|s| - 1])
  }

  lemma {:induction false} DecimalReads(n: nat)
    ensures forall i :: 0 <= i < |Decimal(n)| ==> IsDigit(Decimal(n)[i])
    ensures DecimalValue(Decimal(n)) == n
  {
    var s := Decimal(n);
    if n < 10 {
      assert s[..0] == [];
    } else {
      DecimalReads(n / 10);
      assert s[..|s| - 1] == Decimal(n / 10);
    }
  }

  lemma DecimalInjective(m: nat, n: nat)
    requires Decimal(m) == Decimal(n)
    ensures m == n
  {
    DecimalReads(m);
    DecimalReads(n);
  }

  /** Two ints print the same only when they are equal. */
  lemma IntTextInjective(m: int, n: int)
    requires IntText(m) == IntText(n)
    ensures m == n
  {
    DecimalReads(if m < 0 then -m else m);
    DecimalReads(if n < 0 then -n else n);
    assert IntText(m)[0] == '-' <==> m < 0;
    assert IntText(n)[0] == '-' <==> n < 0;
    if m < 0 {
      assert IntText(m)[1..] == Decimal(-m);
      assert IntText(n)[1..] == Decimal(-n);
    }
  }

  /** The digit `d` as it is written. */
  function Shown(d: nat): char
    requires d < 10
  {
    match d
    case 0 => '0'
    case 1 => '1'
    case 2 => '2'
    case 3 => '3'
    case 4 => '4'
    case 5 => '5'
    case 6 => '6'
    case 7 => '7'
    case 8 => '8'
    case _ => '9'
  }

  lemma DecimalOne(d: nat)
    requires d < 10
    ensures Decimal(d) == [Shown(d)]
  {
  }

  lemma DecimalLast(n: nat, d: nat)
    requires n > 0 && d < 10
    ensures Decimal(10 * n + d) == Decimal(n) + [Shown(d)]
  {
    assert (10 * n + d) / 10 == n && (10 * n + d) % 10 == d;
  }

  /** A number below a thousand and not below a hundred is written with its three digits. */
  lemma ThreeDigits(a: nat, b: nat, c: nat)
    requires 0 < a < 10 && b < 10 && c < 10
    ensures Decimal(100 * a + 10 * b + c) == [Shown(a), Shown(b), Shown(c)]
  {
    hide Decimal;
    DecimalLast(10 * a + b, c);
    DecimalLast(a, b);
    DecimalOne(a);
    assert 10 * (10 * a + b) + c == 100 * a + 10 * b + c;
  }

  lemma DecimalOfThree(n: nat)
    requires 100 <= n <= 999
    ensures |Decimal(n)| == 3
  {
    hide Decimal;
    var tens := n / 10;
    ThreeDigits(tens / 10, tens % 10, n % 10);
    assert n == 10 * tens + n % 10 && tens == 10 * (tens / 10) + tens % 10;
  }
}
