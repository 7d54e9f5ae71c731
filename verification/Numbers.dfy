/** Numbers as they are written in names. */
module Numbers {
  /** The number in decimal. */
  function Itoa(n: nat): (s: string)
    ensures |s| > 0
  {
    if n < 10 then ["0123456789"[n]] else Itoa(n / 10) + ["0123456789"[n % 10]]
  }

  lemma ItoaLast(n: nat)
    ensures var s := Itoa(n);
      && s[|s| - 1] == "0123456789"[n % 10] && (|s| == 1 <==> n < 10)
      && (n >= 10 ==> s[..|s| - 1] == Itoa(n / 10))
  {}

  lemma {:induction false} ItoaInjective(a: nat, b: nat)
    requires Itoa(a) == Itoa(b)
    ensures a == b
    decreases a
  {
    ItoaLast(a);
    ItoaLast(b);
    assert a % 10 == b % 10;
    if a >= 10 {
      ItoaInjective(a / 10, b / 10);
    }
  }
}
