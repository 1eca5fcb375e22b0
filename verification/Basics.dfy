/** Notions that several parts of the model share. */
module Basics {

  datatype Option<T> = None | Some(value: T)

  function Max(a: int, b: int): int { if a < b then b else a }

  function Pow2(n: nat): (r: nat)
    ensures r > 0
  {
    if n == 0 then 1 else 2 * Pow2(n - 1)
  }

  lemma MulAtLeast(d: int, k: int)
    requires d > 0 && k >= 1
    ensures d * k >= d
  {
    assert d * k == d + d * (k - 1) && d * (k - 1) >= 0;
  }

  /** Division with remainder is unique. */
  lemma RemainderIs(n: int, d: int, q: int, r: int)
    requires d > 0 && 0 <= r < d && n == d * q + r
    ensures n % d == r && n / d == q
  {
    var k := q - n / d;
    assert d * k == d * q - d * (n / d) && d * -k == -(d * k);
    if k >= 1 {
      MulAtLeast(d, k);
    } else if k <= -1 {
      MulAtLeast(d, -k);
    }
  }

  /** Numbers less than `d` apart are equal if they have the same remainder. */
  lemma SameRemainder(m: int, n: int, d: int)
    requires d > 0 && m <= n < m + d && m % d == n % d
    ensures m == n
  {
    RemainderIs(n - m, d, 0, n - m);
    var k := n / d - m / d;
    assert d * k == d * (n / d) - d * (m / d);
    RemainderIs(n - m, d, k, 0);
  }

  /** (n >> k) & 1 */
  predicate Bit(n: nat, k: nat)
    decreases k
  {
    if k == 0 then n % 2 == 1 else Bit(n / 2, k - 1)
  }

  /** The numbers below `n`. */
  function Upto(n: nat): (u: set<nat>)
    ensures forall x: nat :: x in u <==> x < n
  {
    if n == 0 then {} else Upto(n - 1) + {n - 1}
  }

  /** No element comes twice. */
  ghost predicate Unique<T>(q: seq<T>) { forall i, j | 0 <= i < j < |q| :: q[i] != q[j] }

  ghost function Elems<T>(q: seq<T>): set<T> { set x | x in q }

  lemma {:induction false} UniqueSize<T>(q: seq<T>)
    requires Unique(q)
    ensures |Elems(q)| == |q|
  {
    if q == [] {
    } else {
      var n := |q| - 1;
      UniqueSize(q[..n]);
      assert Elems(q) == Elems(q[..n]) + {q[n]} by {
        assert q == q[..n] + [q[n]];
      }
    }
  }
}
