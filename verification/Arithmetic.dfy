/** Multiples of a block size. */
module Arithmetic {
  type Pos = n: int | 0 < n witness 1

  lemma MulLe(a: nat, b: nat, n: nat)
    requires a <= b
    ensures a * n <= b * n
  {
  }

  lemma MulStep(a: nat, n: nat)
    ensures (a + 1) * n == a * n + n
  {
  }

  lemma MulSub(a: nat, b: nat, n: nat)
    requires b <= a
    ensures (a - b) * n == a * n - b * n
  {
  }

  lemma MulAdd(a: nat, b: nat, n: nat)
    ensures (a + b) * n == a * n + b * n
  {
  }

  /** Division with remainder is unique. */
  lemma ModOf(k: nat, r: nat, n: Pos)
    requires r < n
    ensures (k * n + r) % n == r && (k * n + r) / n == k
  {
    var q := (k * n + r) / n;
    MulStep(q, n);
    MulStep(k, n);
    if q < k {
      MulLe(q + 1, k, n);
    } else if q > k {
      MulLe(k + 1, q, n);
    }
  }

  lemma MulMod(a: nat, n: Pos)
    ensures (a * n) % n == 0 && (a * n) / n == a
  {
    ModOf(a, 0, n);
  }

  /** The multiples below a bound are those of an index below its ceiling. */
  lemma CeilIndex(i: nat, size: nat, n: Pos)
    ensures i < (size + n - 1) / n <==> i * n < size
  {
    var c := (size + n - 1) / n;
    var r := (size + n - 1) % n;
    assert size + n - 1 == c * n + r;
    if i < c {
      MulStep(i, n);
      MulLe(i + 1, c, n);
    } else {
      MulLe(c, i, n);
    }
  }

  /** Distinct multiples are a block apart. */
  lemma MulLt(a: nat, b: nat, n: Pos)
    ensures a * n < b * n <==> a < b
    ensures a < b ==> a * n + n <= b * n
  {
    MulStep(a, n);
    if a < b { MulLe(a + 1, b, n); } else { MulLe(b, a, n); }
  }

  /** A number lies in the block of its quotient. */
  lemma DivBounds(i: nat, n: Pos)
    ensures (i / n) * n <= i < (i / n) * n + n
  {
  }

  lemma DivExact(i: nat, n: Pos)
    requires i % n == 0
    ensures i == (i / n) * n
  {
  }

  lemma QuotientMono(a: nat, b: nat, n: Pos, p: nat, q: nat)
    requires a <= b && p * n <= a && b < q * n + n
    ensures p <= q
  {
    if q < p { MulLt(q, p, n); }
  }

  lemma DivMono(a: nat, b: nat, n: Pos)
    requires a <= b
    ensures a / n <= b / n
  {
    DivBounds(a, n);
    DivBounds(b, n);
    QuotientMono(a, b, n, a / n, b / n);
  }

  lemma NextQuotient(a: nat, n: Pos, p: nat, q: nat)
    requires a < p * n + n && q * n <= a + 1
    ensures q <= p + 1
  {
    if q > p + 1 {
      MulStep(p, n);
      MulLt(p + 1, q, n);
    }
  }

  /** One more is in the same block or the next. */
  lemma NextDiv(a: nat, n: Pos)
    ensures a / n <= (a + 1) / n <= a / n + 1
  {
    DivMono(a, a + 1, n);
    DivBounds(a, n);
    DivBounds(a + 1, n);
    NextQuotient(a, n, a / n, (a + 1) / n);
  }
}
