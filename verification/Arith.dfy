/** Products, quotients and remainders. Times, Quot and Rem are *, / and % by repeated addition and
    subtraction: definitions that the solver unfolds a step at a time instead of entering non-linear
    arithmetic. TimesIsProduct and QuotRemIsDivision tie them to the operators. */
module Arith {

  function Min(a: int, b: int): int { if a <= b then a else b }

  function Max(a: int, b: int): int { if a <= b then b else a }

  lemma MulMonotone(d: nat, a: nat, b: nat)
    requires a <= b
    ensures d * a <= d * b
  {
  }

  lemma MulSucc(d: nat, a: nat)
    ensures d * (a + 1) == d * a + d
  {
  }

  lemma DivModUnique(x: nat, d: nat, q: nat, r: nat)
    requires r < d && x == d * q + r
    ensures x / d == q && x % d == r
  {
    var q', r' := x / d, x % d;
    assert x == d * q' + r';
    MulSucc(d, q);
    MulSucc(d, q');
    if q < q' {
      MulMonotone(d, q + 1, q');
    } else if q' < q {
      MulMonotone(d, q' + 1, q);
    }
  }

  lemma QuotientMonotone(x: nat, y: nat, d: nat)
    requires d > 0 && x <= y
    ensures x / d <= y / d
  {
    MulSucc(d, y / d);
    if y / d < x / d {
      MulMonotone(d, y / d + 1, x / d);
    }
  }

  /** Rounding down does not pass a multiple. */
  lemma RoundDownAbove(d: nat, m: nat, x: nat)
    requires d > 0 && d * m <= x
    ensures d * m <= x - x % d
  {
    DivModUnique(d * m, d, m, 0);
    QuotientMonotone(d * m, x, d);
    MulMonotone(d, m, x / d);
  }

  lemma MulDifference(d: nat, a: nat, b: nat)
    ensures d * a - d * b == d * (a - b)
  {
  }

  /** The remainder of x fills w - x up to a multiple, when w is one. */
  lemma RemainderFills(w: nat, d: nat, x: nat)
    requires d > 0 && x <= w && d * (w / d) == w
    ensures (w - x + x % d) % d == 0
  {
    var m, q, r := w / d, x / d, x % d;
    assert x == d * q + r;
    QuotientMonotone(x, w, d);
    MulDifference(d, m, q);
    DivModUnique(w - x + r, d, m - q, 0);
  }

  /** d * k. */
  function Times(d: nat, k: nat): nat
    decreases k
  {
    if k == 0 then 0 else Times(d, k - 1) + d
  }

  /** x / d. */
  function Quot(x: nat, d: nat): nat
    decreases x
  {
    if d == 0 || x < d then 0 else Quot(x - d, d) + 1
  }

  /** x % d. */
  function Rem(x: nat, d: nat): nat
    decreases x
  {
    if d == 0 || x < d then x else Rem(x - d, d)
  }

  lemma {:induction false} TimesIsProduct(d: nat, k: nat)
    ensures Times(d, k) == d * k
  {
    if k > 0 {
      TimesIsProduct(d, k - 1);
      MulSucc(d, k - 1);
    }
  }

  lemma {:induction false} QuotRem(x: nat, d: nat)
    requires d > 0
    ensures x == Times(d, Quot(x, d)) + Rem(x, d) && Rem(x, d) < d
    decreases x
  {
    if x >= d { QuotRem(x - d, d); }
  }

  lemma {:induction false} QuotRemIsDivision(x: nat, d: nat)
    requires d > 0
    ensures Quot(x, d) == x / d && Rem(x, d) == x % d
  {
    QuotRem(x, d);
    TimesIsProduct(d, Quot(x, d));
    DivModUnique(x, d, Quot(x, d), Rem(x, d));
  }

  lemma {:induction false} TimesMonotone(d: nat, a: nat, b: nat)
    requires a < b
    ensures Times(d, a) + d <= Times(d, b)
    decreases b
  {
    if a < b - 1 { TimesMonotone(d, a, b - 1); }
  }

  lemma {:induction false} QuotMonotone(x: nat, y: nat, d: nat)
    requires d > 0 && x <= y
    ensures Quot(x, d) <= Quot(y, d)
    decreases x
  {
    if x >= d { QuotMonotone(x - d, y - d, d); }
  }

  lemma {:induction false} QuotUnique(x: nat, d: nat, k: nat)
    requires d > 0 && Times(d, k) <= x < Times(d, k) + d
    ensures Quot(x, d) == k && Rem(x, d) == x - Times(d, k)
  {
    if k > 0 { QuotUnique(x - d, d, k - 1); }
  }

  lemma {:induction false} QuotBelow(x: nat, d: nat, k: nat)
    requires d > 0 && x < Times(d, k)
    ensures Quot(x, d) < k
  {
    QuotRem(x, d);
    if k < Quot(x, d) { TimesMonotone(d, k, Quot(x, d)); }
  }

  lemma AppendLast<T>(a: seq<T>, b: seq<T>)
    requires b != []
    ensures a + b == a + b[..|b| - 1] + [b[|b| - 1]]
  {
  }

  lemma Snoc<T>(a: seq<T>, x: T)
    ensures (a + [x])[..|a + [x]| - 1] == a && (a + [x])[|a + [x]| - 1] == x
  {
  }
}
