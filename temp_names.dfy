/**
 * The temporary-variable names `v0, v1, v2, ...` and the facts about them that the
 * rest of the model relies on: every name is recognisably a temporary, and distinct
 * counter values give distinct names.
 */
module TempNames {

  predicate IsDigit(c: char) {
    '0' <= c <= '9'
  }

  predicate AllDigits(s: string) {
    forall i :: 0 <= i < |s| ==> IsDigit(s[i])
  }

  function Digit(d: nat): (c: char)
    requires d < 10
    ensures IsDigit(c)
  {
    (d + '0' as int) as char
  }

  /** The decimal numeral of `n`, as Python's `f"{n}"` writes a non-negative int. */
  function Decimal(n: nat): string
    decreases n
  {
    if n < 10 then [Digit(n)] else Decimal(n / 10) + [Digit(n % 10)]
  }

  /** The numeral is a non-empty string of digits, of one digit exactly below 10. */
  lemma {:induction false} DecimalShape(n: nat)
    ensures |Decimal(n)| >= 1 && AllDigits(Decimal(n))
    ensures (|Decimal(n)| == 1) == (n < 10)
    decreases n
  {
    if n >= 10 {
      DecimalShape(n / 10);
      var s := Decimal(n / 10) + [Digit(n % 10)];
      assert forall i :: 0 <= i < |s| - 1 ==> s[i] == Decimal(n / 10)[i];
    }
  }

  /** The `k`-th temporary name, `f"v{k}"`. */
  function TempName(k: nat): string {
    "v" + Decimal(k)
  }

  /** Names of the shape `v` followed by one or more digits. Every `TempName(k)` has it. */
  predicate IsTemp(x: string) {
    |x| >= 2 && x[0] == 'v' && AllDigits(x[1..])
  }

  lemma TempNameIsTemp(k: nat)
    ensures IsTemp(TempName(k))
  {
    DecimalShape(k);
    assert TempName(k)[1..] == Decimal(k);
  }

  lemma DigitInjective(a: nat, b: nat)
    requires a < 10 && b < 10
    ensures Digit(a) == Digit(b) <==> a == b
  {
  }

  lemma {:induction false} DecimalInjective(i: nat, j: nat)
    ensures Decimal(i) == Decimal(j) <==> i == j
    decreases i
  {
    DecimalShape(i);
    DecimalShape(j);
    if Decimal(i) == Decimal(j) && i >= 10 && j >= 10 {
      var si, sj := Decimal(i), Decimal(j);
      assert si[|si| - 1] == Digit(i % 10) && sj[|sj| - 1] == Digit(j % 10);
      DigitInjective(i % 10, j % 10);
      assert si[..|si| - 1] == Decimal(i / 10) && sj[..|sj| - 1] == Decimal(j / 10);
      DecimalInjective(i / 10, j / 10);
    } else if Decimal(i) == Decimal(j) && i < 10 && j < 10 {
      DigitInjective(i, j);
    }
  }

  /** Distinct counter values give distinct temporary names (and, trivially, conversely). */
  lemma TempNameInjective(i: nat, j: nat)
    ensures TempName(i) == TempName(j) <==> i == j
  {
    if TempName(i) == TempName(j) {
      assert TempName(i)[1..] == Decimal(i) && TempName(j)[1..] == Decimal(j);
      DecimalInjective(i, j);
    }
  }
}
