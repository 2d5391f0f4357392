/** Natural numbers: counting, places in a ring, multiplication and division. */
module Arith {

  /** The numbers below n, in order. */
  function Upto(n: nat): (r: seq<nat>)
    ensures |r| == n && forall i | 0 <= i < n :: r[i] == i
  {
    seq(n, i => i)
  }

  /** The index j places after start in a ring of n, for j up to one full turn. */
  function At(n: nat, start: nat, j: nat): (i: nat)
    requires start < n && j <= n
    ensures i < n
  {
    if start + j < n then start + j else start + j - n
  }

  function Quot(a: nat, b: nat): (q: nat)
    requires b > 0
    ensures q * b <= a < q * b + b
  {
    a / b
  }

  lemma MulMono(a: nat, b: nat, c: nat, d: nat)
    requires a <= c && b <= d
    ensures a * b <= c * d
  {
    assert a * b <= c * b <= c * d;
  }

  lemma NotBelow(a: nat, b: nat, m: nat, n: nat)
    requires m * b <= a < m * b + b && n * b <= a < n * b + b
    ensures m >= n
  {
    if m < n {
      MulMono(m + 1, b, n, b);
    }
  }

  lemma QuotIs(a: nat, b: nat, n: nat)
    requires b > 0 && n * b <= a < n * b + b
    ensures Quot(a, b) == n
  {
    NotBelow(a, b, Quot(a, b), n);
    NotBelow(a, b, n, Quot(a, b));
  }

  lemma QuotMono(a: nat, b: nat, c: nat)
    requires a <= b && c > 0
    ensures Quot(a, c) <= Quot(b, c)
  {
    if Quot(b, c) < Quot(a, c) {
      MulMono(Quot(b, c) + 1, c, Quot(a, c), c);
    }
  }
}
