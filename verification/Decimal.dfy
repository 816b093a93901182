/** Numbers written in decimal, as %d writes them; no two are written the same. */
module Decimal {

  predicate IsDigit(c: char) { '0' <= c <= '9' }

  function Digit(d: nat): (c: char)
    requires d < 10
    ensures IsDigit(c)
  {
    (d + '0' as int) as char
  }

  function Digits(n: nat): (s: string)
    ensures s != [] && forall k :: 0 <= k < |s| ==> IsDigit(s[k])
  {
    if n < 10 then [Digit(n)] else Digits(n / 10) + [Digit(n % 10)]
  }

  function ValueOf(s: string): int {
    if s == [] then 0 else ValueOf(s[..|s| - 1]) * 10 + (s[|s| - 1] as int - '0' as int)
  }

  /** Reading a written number gives it back. */
  lemma {:induction false} ReadDigits(n: nat)
    ensures ValueOf(Digits(n)) == n
  {
    if n < 10 {
      assert Digits(n)[..0] == [];
    } else {
      ReadDigits(n / 10);
      assert Digits(n)[..|Digits(n)| - 1] == Digits(n / 10);
    }
  }

  lemma {:induction false} DigitsInjective(m: nat, n: nat)
    requires Digits(m) == Digits(n)
    ensures m == n
  {
    ReadDigits(m);
    ReadDigits(n);
  }

  /** Digits without a leading zero. */
  ghost predicate Written(d: string) {
    d != "" && (forall k :: 0 <= k < |d| ==> IsDigit(d[k])) && (d[0] == '0' ==> d == "0")
  }

  /** A number is written without a leading zero. */
  lemma {:induction false} DigitsWritten(n: nat)
    ensures Written(Digits(n)) && (Digits(n)[0] == '0' ==> n == 0)
  {
    if n >= 10 {
      DigitsWritten(n / 10);
      assert Digits(n)[0] == Digits(n / 10)[0];
    }
  }

  lemma {:induction false} OneDigit(m: nat, v: nat, c: char)
    requires v < 10 && c as int == v + '0' as int
    ensures (m * 10 + v) / 10 == m && (m * 10 + v) % 10 == v && Digit(v) == c
  {
  }

  lemma {:induction false} DigitsNext(m: nat, v: nat, c: char)
    requires m > 0 && v < 10 && c as int == v + '0' as int
    ensures Digits(m * 10 + v) == Digits(m) + [c]
  {
    OneDigit(m, v, c);
  }

  lemma {:induction false} ValueNext(front: string, c: char)
    ensures ValueOf(front + [c]) == ValueOf(front) * 10 + (c as int - '0' as int)
  {
    var d := front + [c];
    assert d[..|d| - 1] == front;
  }

  lemma {:induction false} FrontWritten(d: string, front: string)
    requires Written(d) && |d| > 1 && front == d[..|d| - 1]
    ensures Written(front) && front[0] == d[0] != '0'
  {
  }

  /** And what is written so is what that number is written as. */
  lemma {:induction false} WrittenDigits(d: string)
    requires Written(d)
    ensures ValueOf(d) >= 0 && Digits(ValueOf(d)) == d
    ensures d[0] != '0' ==> ValueOf(d) > 0
    decreases |d|
  {
    var front, last := d[..|d| - 1], d[|d| - 1];
    var v: nat := last as int - '0' as int;
    assert d == front + [last];
    ValueNext(front, last);
    if front == "" {
      OneDigit(0, v, last);
      assert Digits(v) == [Digit(v)];
    } else {
      FrontWritten(d, front);
      WrittenDigits(front);
      DigitsNext(ValueOf(front), v, last);
    }
  }
}
