/** Counting facts about periodic events (every b-th call, every b-th iteration). */
module Arith {

  /** A positive multiple of b is at least b. */
  lemma {:induction false} MulAtLeast(d: int, b: int)
    requires d >= 1 && b > 0
    ensures d * b >= b
    decreases d
  {
    if d > 1 {
      MulAtLeast(d - 1, b);
      assert d * b == (d - 1) * b + b;
    }
  }

  /** Multiplication distributes over a difference of quotients. */
  lemma MulSub(x: int, y: int, b: int)
    ensures x * b - y * b == (x - y) * b
  {
  }

  /** Euclidean division is determined by a quotient and a remainder in range. */
  lemma DivModUnique(n: int, b: int, q: int, r: int)
    requires b > 0 && n == q * b + r && 0 <= r < b
    ensures n / b == q && n % b == r
  {
    var q', r' := n / b, n % b;
    assert n == q' * b + r';
    MulSub(q, q', b);
    MulSub(q', q, b);
    if q > q' {
      MulAtLeast(q - q', b);
    } else if q < q' {
      MulAtLeast(q' - q, b);
    }
  }

  /** Reducing modulo b before adding does not change the remainder. */
  lemma ModThenAdd(a: int, k: int, b: int)
    requires b > 0
    ensures (a % b + k) % b == (a + k) % b
  {
    var q, q2, r2 := a / b, (a % b + k) / b, (a % b + k) % b;
    assert a == q * b + a % b;
    assert a % b + k == q2 * b + r2;
    assert q * b + q2 * b == (q + q2) * b;
    DivModUnique(a + k, b, q + q2, r2);
  }

  /** Going from k - 1 to k adds one to the quotient exactly when b divides k. */
  lemma DivStep(k: int, b: int)
    requires k >= 1 && b > 0
    ensures k / b == (k - 1) / b + (if k % b == 0 then 1 else 0)
  {
    var q, r := (k - 1) / b, (k - 1) % b;
    if r == b - 1 {
      DivModUnique(k, b, q + 1, 0);
    } else {
      DivModUnique(k, b, q, r + 1);
    }
  }

  /** The number of m in 1..k that b divides. */
  function Multiples(k: nat, b: nat): nat
    requires b > 0
  {
    if k == 0 then 0 else Multiples(k - 1, b) + (if k % b == 0 then 1 else 0)
  }

  lemma {:induction false} MultiplesCount(k: nat, b: nat)
    requires b > 0
    ensures Multiples(k, b) == k / b
  {
    if k > 0 {
      MultiplesCount(k - 1, b);
      DivStep(k, b);
    }
  }
}
