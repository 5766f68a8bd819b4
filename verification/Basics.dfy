/**
 Facts that several modules share: about products, remainders, powers of two and concatenation, about sequences
 whose elements are distinct, and about taking an element out of a sequence.
 */
module Basics {

  lemma MulMono(x: nat, a: nat, b: nat)
    requires a <= b
    ensures x * a <= x * b
  {
    assert x * b == x * a + x * (b - a);
  }

  lemma NotNegative(x: nat, y: nat)
    ensures x * y >= 0
  {
  }

  lemma Shrinks(x: nat, y: nat)
    requires y > 0
    ensures 0 <= x / y <= x
  {
    assert x / y * y <= x;
    assert x / y * y >= x / y * 1 by { MulMono(x / y, 1, y); }
  }

  lemma Multiples(e: int, y: int)
    requires y >= 0
    ensures e >= 1 ==> e * y >= y
    ensures e <= -1 ==> e * y <= -y
  {
    if e >= 1 { MulMono(y, 1, e); }
    if e <= -1 {
      MulMono(y, 1, -e);
      assert y * -e == -(e * y);
    }
  }

  /** Quotient and remainder are unique. */
  lemma DivMod(q: nat, y: nat, r: nat)
    requires r < y
    ensures (q * y + r) / y == q && (q * y + r) % y == r
  {
    var x := q * y + r;
    assert x == x / y * y + x % y;
    var e := x / y - q;
    assert e * y == r - x % y by { assert e * y == x / y * y - q * y; }
    Multiples(e, y);
  }

  function Pow2(k: nat): (r: nat)
    ensures r >= 1
  {
    if k == 0 then 1 else 2 * Pow2(k - 1)
  }

  /** `n` shifted right by `k` bits. */
  function Shr(n: nat, k: nat): nat
  {
    if k == 0 then n else Shr(n, k - 1) / 2
  }

  lemma Assoc<T>(a: seq<T>, b: seq<T>, c: seq<T>)
    ensures (a + b) + c == a + (b + c)
  {
  }

  predicate Distinct<T(==)>(q: seq<T>) {
    forall i, j :: 0 <= i < j < |q| ==> q[i] != q[j]
  }

  /** The sequence without any `x`. */
  function Without<T(==)>(q: seq<T>, x: T): (r: seq<T>)
    ensures |r| <= |q|
    ensures forall y :: y in r ==> y in q
  {
    if q == [] then [] else (if q[0] == x then [] else [q[0]]) + Without(q[1..], x)
  }

  lemma {:induction false} WithoutExact<T>(q: seq<T>, x: T)
    ensures forall y :: y in Without(q, x) <==> y in q && y != x
  {
    if q != [] {
      WithoutExact(q[1..], x);
      assert forall y :: y in q <==> y == q[0] || y in q[1..];
    }
  }

  lemma {:induction false} WithoutDistinct<T>(q: seq<T>, x: T)
    requires Distinct(q)
    ensures Distinct(Without(q, x))
  {
    if q != [] {
      WithoutDistinct(q[1..], x);
      WithoutExact(q[1..], x);
      assert q[0] !in q[1..];
    }
  }

  lemma {:induction false} WithoutAbsent<T>(q: seq<T>, x: T)
    requires x !in q
    ensures Without(q, x) == q
  {
    if q != [] { WithoutAbsent(q[1..], x); }
  }
}
