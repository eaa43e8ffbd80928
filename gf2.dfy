/**
 * Vectors of ints and the sum of products that the Hamming script reduces
 * modulo 2, with the linear-algebra facts its correctness rests on: the sum of
 * products is linear in its first argument, and a combination of rows that
 * are each orthogonal (mod 2) to a check row is orthogonal to it as well.
 */
module Gf2 {

  function Min(a: nat, b: nat): (r: nat)
    ensures r <= a && r <= b && (r == a || r == b)
  {
    if a <= b then a else b
  }

  /** The sum of u[j] * v[j] over the first n positions. */
  function DotTo(u: seq<int>, v: seq<int>, n: nat): int
    requires n <= |u| && n <= |v|
  {
    if n == 0 then 0 else DotTo(u, v, n - 1) + u[n - 1] * v[n - 1]
  }

  /** sum(a * b for a, b in zip(u, v)): zip stops at the end of the shorter vector. */
  function Dot(u: seq<int>, v: seq<int>): int
  {
    DotTo(u, v, Min(|u|, |v|))
  }

  /** Every row of m has length n. */
  predicate Rows(m: seq<seq<int>>, n: nat)
  {
    forall i :: 0 <= i < |m| ==> |m[i]| == n
  }

  /** Every row of g has an even sum of products with every row of h. */
  predicate Orthogonal(g: seq<seq<int>>, h: seq<seq<int>>)
  {
    forall i, k :: 0 <= i < |g| && 0 <= k < |h| ==> Dot(g[i], h[k]) % 2 == 0
  }

  function Add(u: seq<int>, v: seq<int>): (w: seq<int>)
    requires |u| == |v|
    ensures |w| == |u|
  {
    seq(|u|, j requires 0 <= j < |u| => u[j] + v[j])
  }

  function Scale(s: int, u: seq<int>): (w: seq<int>)
    ensures |w| == |u|
  {
    seq(|u|, j requires 0 <= j < |u| => s * u[j])
  }

  /** The integer combination a[0] * m[0] + ... + a[k-1] * m[k-1] of rows of length n. */
  function ComboTo(a: seq<int>, m: seq<seq<int>>, n: nat, k: nat): (w: seq<int>)
    requires k <= |a| && k <= |m| && Rows(m, n)
    ensures |w| == n
  {
    if k == 0 then seq(n, _ => 0)
    else Add(ComboTo(a, m, n, k - 1), Scale(a[k - 1], m[k - 1]))
  }

  /** Column j of m, as a vector. */
  function Column(m: seq<seq<int>>, j: nat): (c: seq<int>)
    requires forall i :: 0 <= i < |m| ==> j < |m[i]|
    ensures |c| == |m|
  {
    seq(|m|, i requires 0 <= i < |m| => m[i][j])
  }

  /** The sum of products is additive in its first argument. */
  lemma {:induction false} DotToAdd(u: seq<int>, v: seq<int>, h: seq<int>, n: nat)
    requires |u| == |v| && n <= |u| && n <= |h|
    ensures DotTo(Add(u, v), h, n) == DotTo(u, h, n) + DotTo(v, h, n)
  {
    if n > 0 {
      DotToAdd(u, v, h, n - 1);
      assert (u[n - 1] + v[n - 1]) * h[n - 1] == u[n - 1] * h[n - 1] + v[n - 1] * h[n - 1];
    }
  }

  /** The sum of products is homogeneous in its first argument. */
  lemma {:induction false} DotToScale(s: int, u: seq<int>, h: seq<int>, n: nat)
    requires n <= |u| && n <= |h|
    ensures DotTo(Scale(s, u), h, n) == s * DotTo(u, h, n)
  {
    if n > 0 {
      DotToScale(s, u, h, n - 1);
      assert (s * u[n - 1]) * h[n - 1] == s * (u[n - 1] * h[n - 1]);
      assert s * DotTo(u, h, n) == s * DotTo(u, h, n - 1) + s * (u[n - 1] * h[n - 1]);
    }
  }

  lemma {:induction false} DotToZero(z: seq<int>, h: seq<int>, n: nat)
    requires n <= |z| && n <= |h|
    requires forall j :: 0 <= j < n ==> z[j] == 0 || h[j] == 0
    ensures DotTo(z, h, n) == 0
  {
    if n > 0 {
      DotToZero(z, h, n - 1);
    }
  }

  /**
   * A combination of rows that each have an even sum of products with h has
   * an even sum of products with h.
   */
  lemma {:induction false} ComboOrthogonal(a: seq<int>, m: seq<seq<int>>, h: seq<int>, n: nat, k: nat)
    requires k <= |a| && k <= |m| && Rows(m, n) && |h| == n
    requires forall i :: 0 <= i < |m| ==> Dot(m[i], h) % 2 == 0
    ensures DotTo(ComboTo(a, m, n, k), h, n) % 2 == 0
  {
    if k == 0 {
      DotToZero(ComboTo(a, m, n, 0), h, n);
    } else {
      var rest, row := ComboTo(a, m, n, k - 1), Scale(a[k - 1], m[k - 1]);
      ComboOrthogonal(a, m, h, n, k - 1);
      DotToAdd(rest, row, h, n);
      DotToScale(a[k - 1], m[k - 1], h, n);
      assert Dot(m[k - 1], h) == DotTo(m[k - 1], h, n);
      EvenPlusMultiple(DotTo(rest, h, n), a[k - 1], DotTo(m[k - 1], h, n));
    }
  }

  lemma EvenPlusMultiple(e: int, s: int, d: int)
    requires e % 2 == 0 && d % 2 == 0
    ensures (e + s * d) % 2 == 0
  {
    var p, q := e / 2, d / 2;
    assert s * d == s * (2 * q) == 2 * (s * q);
    assert e + s * d == 2 * (p + s * q);
  }

  /** Position j of a combination of rows is the sum of products of the weights with column j. */
  lemma {:induction false} ComboColumn(a: seq<int>, m: seq<seq<int>>, n: nat, j: nat, k: nat)
    requires k <= |a| && k <= |m| && Rows(m, n) && j < n
    ensures ComboTo(a, m, n, k)[j] == DotTo(a, Column(m, j), k)
  {
    if k > 0 {
      ComboColumn(a, m, n, j, k - 1);
    }
  }

  /** Vectors that agree modulo 2 have sums of products that agree modulo 2. */
  lemma {:induction false} DotToMod2(c: seq<int>, d: seq<int>, h: seq<int>, n: nat)
    requires n <= |c| && n <= |d| && n <= |h|
    requires forall j :: 0 <= j < n ==> c[j] % 2 == d[j] % 2
    ensures (DotTo(c, h, n) - DotTo(d, h, n)) % 2 == 0
  {
    if n > 0 {
      DotToMod2(c, d, h, n - 1);
      var q := (c[n - 1] - d[n - 1]) / 2;
      assert c[n - 1] - d[n - 1] == 2 * q;
      assert c[n - 1] * h[n - 1] - d[n - 1] * h[n - 1] == 2 * (q * h[n - 1]);
    }
  }

  /** Changing position k of the first vector changes the sum by the difference times h[k]. */
  lemma {:induction false} DotToUpdate(x: seq<int>, h: seq<int>, n: nat, k: nat, b: int)
    requires k < n <= |x| && n <= |h|
    ensures DotTo(x[k := b], h, n) == DotTo(x, h, n) + (b - x[k]) * h[k]
  {
    if k < n - 1 {
      DotToUpdate(x, h, n - 1, k, b);
    } else {
      DotToAgree(x[k := b], x, h, n - 1);
    }
  }

  /** The sum over the first n positions reads only those positions. */
  lemma {:induction false} DotToAgree(u: seq<int>, v: seq<int>, h: seq<int>, n: nat)
    requires n <= |u| && n <= |v| && n <= |h|
    requires forall j :: 0 <= j < n ==> u[j] == v[j]
    ensures DotTo(u, h, n) == DotTo(v, h, n)
  {
    if n > 0 {
      DotToAgree(u, v, h, n - 1);
    }
  }

  /** Against a unit vector, the sum of products picks out one position. */
  lemma {:induction false} DotToUnit(a: seq<int>, e: seq<int>, n: nat, j: nat)
    requires j < n <= |a| && n <= |e|
    requires forall p :: 0 <= p < n ==> e[p] == if p == j then 1 else 0
    ensures DotTo(a, e, n) == a[j]
  {
    if n - 1 > j {
      DotToUnit(a, e, n - 1, j);
    } else {
      DotToZero(a, e, n - 1);
    }
  }
}
