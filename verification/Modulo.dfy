/** Reduction modulo a variable size, by repeated subtraction, with the facts ring buffers need. */
module Modulo {

  function Mod(k: nat, n: nat): (r: nat)
    requires n > 0
    ensures r < n
  {
    if k < n then k else Mod(k - n, n)
  }

  lemma {:induction false} Quotient(k: nat, n: nat) returns (q: nat)
    requires n > 0
    ensures k == q * n + Mod(k, n)
  {
    if k < n {
      q := 0;
    } else {
      var p := Quotient(k - n, n);
      q := p + 1;
      assert q * n == p * n + n;
    }
  }

  lemma MulAtLeast(a: int, n: nat)
    requires a >= 1
    ensures a * n >= n
  {
    assert a * n == n + (a - 1) * n;
  }

  lemma UniqueRemainder(n: nat, q: int, r: int, p: int, t: int)
    requires 0 <= r < n && 0 <= t < n && q * n + r == p * n + t
    ensures r == t
  {
    assert (q - p) * n == t - r;
    if q > p {
      MulAtLeast(q - p, n);
    } else if p > q {
      MulAtLeast(p - q, n);
    }
  }

  /** Mod is the remainder operator. */
  lemma ModIsRemainder(k: nat, n: nat)
    requires n > 0
    ensures Mod(k, n) == k % n
  {
    var q := Quotient(k, n);
    UniqueRemainder(n, q, Mod(k, n), k / n, k % n);
  }

  method Reduce(k: nat, n: nat) returns (r: nat)
    requires n > 0
    ensures r == Mod(k, n)
  {
    ModIsRemainder(k, n);
    r := k % n;
  }

  lemma ModSmall(k: nat, n: nat)
    requires n > 0 && k <= n
    ensures Mod(k, n) == if k == n then 0 else k
  {
    assert Mod(0, n) == 0;
  }

  lemma {:induction false} ModAdvance(k: nat, j: nat, n: nat)
    requires n > 0 && Mod(k, n) + j <= n
    ensures Mod(k + j, n) == if Mod(k, n) + j == n then 0 else Mod(k, n) + j
  {
    if k >= n {
      ModAdvance(k - n, j, n);
    }
  }

  /** The distance between two positions, when what lies between them is less than `n`. */
  lemma {:induction false} ModDistance(a: nat, b: nat, n: nat)
    requires n > 0 && a <= b < a + n
    ensures b - a == if Mod(a, n) <= Mod(b, n) then Mod(b, n) - Mod(a, n)
                     else n - (Mod(a, n) - Mod(b, n))
  {
    if a >= n {
      ModDistance(a - n, b - n, n);
    }
  }
}
