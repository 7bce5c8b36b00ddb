/** Whole-number division, by way of products built up by addition. */
module Division {

  function Times(n: nat, size: nat): nat {
    if n == 0 then 0 else Times(n - 1, size) + size
  }

  lemma {:induction false} TimesIs(n: nat, size: nat)
    ensures Times(n, size) == n * size
  {
    if n > 0 {
      TimesIs(n - 1, size);
    }
  }

  lemma {:induction false} TimesGrows(x: nat, y: nat, n: nat)
    requires x < y
    ensures Times(x, n) + n <= Times(y, n)
    decreases y
  {
    if x + 1 < y {
      TimesGrows(x, y - 1, n);
    }
  }

  lemma DivMod(a: nat, n: nat)
    requires 0 < n
    ensures a == Times(a / n, n) + a % n
  {
    TimesIs(a / n, n);
  }

  /** There is only one quotient. */
  lemma {:induction false} QuotientIs(a: nat, n: nat, q: nat, r: nat)
    requires a == Times(q, n) + r && r < n
    ensures a / n == q && a % n == r
  {
    hide Times;
    DivMod(a, n);
    if a / n < q {
      TimesGrows(a / n, q, n);
    } else if q < a / n {
      TimesGrows(q, a / n, n);
    }
  }

  lemma {:induction false} TimesTimes(q: nat, b: nat, c: nat)
    ensures Times(q, Times(c, b)) == Times(Times(q, c), b)
  {
    if q > 0 {
      TimesTimes(q - 1, b, c);
      TimesSum(Times(q - 1, c), c, b);
    }
  }

  lemma {:induction false} TimesSum(x: nat, y: nat, n: nat)
    ensures Times(x + y, n) == Times(x, n) + Times(y, n)
    decreases y
  {
    if y > 0 {
      TimesSum(x, y - 1, n);
    }
  }

  /** Dividing by a product is dividing by its factors in turn. */
  lemma {:induction false} DivDiv(a: nat, b: nat, c: nat)
    requires 0 < b && 0 < c
    ensures 0 < b * c && a / (b * c) == a / b / c
  {
    hide Times;
    var q, r := a / b, a % b;
    var q', r' := q / c, q % c;
    DivMod(a, b);
    DivMod(q, c);
    TimesSum(Times(q', c), r', b);
    TimesTimes(q', b, c);
    TimesGrows(r', c, b);
    QuotientIs(a, Times(c, b), q', Times(r', b) + r);
    TimesIs(c, b);
  }
}
