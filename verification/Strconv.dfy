/** Decimal rendering of integers, as Go's `strconv.Itoa` and the `%d` verb write them. */
module Strconv {

  const DIGITS := "0123456789"

  /** The decimal digits of `n`, most significant first, without leading zeros. */
  function Digits(n: nat): (s: string)
    ensures |s| > 0
    ensures forall c <- s :: c in DIGITS
  {
    if n < 10 then [DIGITS[n]] else Digits(n / 10) + [DIGITS[n % 10]]
  }

  /** The decimal form of any integer; a negative one carries a leading '-'. */
  function Itoa(n: int): (s: string)
    ensures |s| > 0
    ensures forall c <- s :: c in DIGITS || c == '-'
  {
    if n < 0 then "-" + Digits(-n) else Digits(n)
  }

  /** The number a run of digits denotes: the inverse of `Digits`. */
  ghost function ValueOf(s: string): int {
    if s == [] then 0 else ValueOf(s[..|s| - 1]) * 10 + (s[|s| - 1] as int - '0' as int)
  }

  lemma {:induction false} ValueOfDigits(n: nat)
    ensures ValueOf(Digits(n)) == n
  {
    var s := Digits(n);
    if n >= 10 {
      ValueOfDigits(n / 10);
      assert s[..|s| - 1] == Digits(n / 10);
    } else {
      assert s[..0] == [];
    }
  }

  ghost function Atoi(s: string): int {
    if s != [] && s[0] == '-' then -ValueOf(s[1..]) else ValueOf(s)
  }

  /** Reading back a rendered integer. */
  lemma AtoiItoa(n: int)
    ensures Atoi(Itoa(n)) == n
  {
    var p := Digits(if n < 0 then -n else n);
    ValueOfDigits(if n < 0 then -n else n);
    assert p[0] in DIGITS;
    assert n < 0 ==> Itoa(n)[1..] == p;
  }

  /** Two integers with the same decimal form are the same integer. */
  lemma ItoaInjective(m: int, n: int)
    requires Itoa(m) == Itoa(n)
    ensures m == n
  {
    AtoiItoa(m);
    AtoiItoa(n);
  }

  /** A text is split in one way at its first separator. */
  lemma {:induction false} FirstSplitUnique(a: string, x: string, b: string, y: string, sep: char)
    requires sep !in a && sep !in b
    requires a + [sep] + x == b + [sep] + y
    ensures a == b && x == y
  {
    var left, right := a + [sep] + x, b + [sep] + y;
    assert left[|a|] == sep && right[|b|] == sep;
    assert forall i | 0 <= i < |a| :: left[i] == a[i];
    assert forall i | 0 <= i < |b| :: right[i] == b[i];
    if |a| == |b| {
      assert left[..|a|] == a && right[..|a|] == b;
      assert left[|a| + 1..] == x && right[|a| + 1..] == y;
    }
  }
}
