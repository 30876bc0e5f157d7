/**
 * Vectors of the ambient parameter domain, with exact real arithmetic in place of
 * numpy's floating point: sums, scalings and linear combinations of rows.
 */
module Linear {

  /** A point or a direction of the ambient domain. */
  type Vec = seq<real>

  function Zero(n: nat): (z: Vec)
    ensures |z| == n && forall i :: 0 <= i < n ==> z[i] == 0.0
  {
    seq(n, _ => 0.0)
  }

  function Add(u: Vec, v: Vec): (w: Vec)
    requires |u| == |v|
    ensures |w| == |u| && forall i :: 0 <= i < |w| ==> w[i] == u[i] + v[i]
  {
    seq(|u|, i requires 0 <= i < |u| => u[i] + v[i])
  }

  function Sub(u: Vec, v: Vec): (w: Vec)
    requires |u| == |v|
    ensures |w| == |u| && forall i :: 0 <= i < |w| ==> w[i] == u[i] - v[i]
  {
    seq(|u|, i requires 0 <= i < |u| => u[i] - v[i])
  }

  function Scale(a: real, v: Vec): (w: Vec)
    ensures |w| == |v| && forall i :: 0 <= i < |w| ==> w[i] == a * v[i]
  {
    seq(|v|, i requires 0 <= i < |v| => a * v[i])
  }

  /** Every row of m has n entries: m is a (|m|, n) matrix. */
  predicate IsMatrix(m: seq<Vec>, n: nat)
  {
    forall r :: 0 <= r < |m| ==> |m[r]| == n
  }

  /** Entry x of every row of m. */
  function Column(m: seq<Vec>, x: nat): (c: seq<real>)
    requires forall r :: 0 <= r < |m| ==> x < |m[r]|
    ensures |c| == |m|
  {
    seq(|m|, r requires 0 <= r < |m| => m[r][x])
  }

  /** The scalar product of two coefficient lists, summed from the front. */
  function Dot(a: seq<real>, b: seq<real>): real
    requires |a| == |b|
  {
    if |a| == 0 then 0.0 else Dot(a[..|a| - 1], b[..|b| - 1]) + a[|a| - 1] * b[|b| - 1]
  }

  /** c[0] * m[0] + ... + c[|c|-1] * m[|c|-1]: the first |c| rows of m weighted by c. */
  function Combine(c: seq<real>, m: seq<Vec>, n: nat): (w: Vec)
    requires |c| <= |m| && IsMatrix(m, n)
    ensures |w| == n
    decreases |c|
  {
    if |c| == 0 then Zero(n)
    else Add(Combine(c[..|c| - 1], m, n), Scale(c[|c| - 1], m[|c| - 1]))
  }

  /** The coefficient list with a 1 at position k and 0 elsewhere. */
  function Unit(len: nat, k: nat): (e: seq<real>)
    ensures |e| == len
  {
    seq(len, d => if d == k then 1.0 else 0.0)
  }

  lemma AddZero(u: Vec)
    ensures Add(u, Zero(|u|)) == u
  {
  }

  lemma AddAssoc(u: Vec, v: Vec, w: Vec)
    requires |u| == |v| == |w|
    ensures Add(Add(u, v), w) == Add(u, Add(v, w))
  {
  }

  /** A linear combination is linear in its coefficients. */
  lemma {:induction false} CombineAdd(a: seq<real>, b: seq<real>, m: seq<Vec>, n: nat)
    requires |a| == |b| <= |m| && IsMatrix(m, n)
    ensures Combine(Add(a, b), m, n) == Add(Combine(a, m, n), Combine(b, m, n))
  {
    if |a| > 0 {
      var k := |a| - 1;
      assert Add(a, b)[..k] == Add(a[..k], b[..k]);
      CombineAdd(a[..k], b[..k], m, n);
      var lhs := Combine(Add(a, b), m, n);
      var rhs := Add(Combine(a, m, n), Combine(b, m, n));
      forall i | 0 <= i < n
        ensures lhs[i] == rhs[i]
      {
        calc {
          lhs[i];
          Combine(a[..k], m, n)[i] + Combine(b[..k], m, n)[i] + (a[k] + b[k]) * m[k][i];
          (Combine(a[..k], m, n)[i] + a[k] * m[k][i]) + (Combine(b[..k], m, n)[i] + b[k] * m[k][i]);
          rhs[i];
        }
      }
    }
  }

  /** Entry x of a linear combination is the scalar product of the weights with column x. */
  lemma {:induction false} CombineAt(c: seq<real>, m: seq<Vec>, n: nat, x: nat)
    requires |c| <= |m| && IsMatrix(m, n) && x < n
    ensures Combine(c, m, n)[x] == Dot(c, Column(m[..|c|], x))
  {
    if |c| > 0 {
      var k := |c| - 1;
      CombineAt(c[..k], m, n, x);
      assert Column(m[..|c|], x)[..k] == Column(m[..k], x);
    }
  }

  /** All-zero weights give the zero vector. */
  lemma {:induction false} CombineZero(c: seq<real>, m: seq<Vec>, n: nat)
    requires |c| <= |m| && IsMatrix(m, n)
    requires forall d :: 0 <= d < |c| ==> c[d] == 0.0
    ensures Combine(c, m, n) == Zero(n)
  {
    if |c| > 0 {
      CombineZero(c[..|c| - 1], m, n);
    }
  }

  /** The unit weight list e_k selects row k. */
  lemma {:induction false} CombineUnit(len: nat, k: nat, m: seq<Vec>, n: nat)
    requires k < len <= |m| && IsMatrix(m, n)
    ensures Combine(Unit(len, k), m, n) == m[k]
  {
    var e := Unit(len, k);
    var p := e[..len - 1];
    if len == k + 1 {
      CombineZero(p, m, n);
    } else {
      assert p == Unit(len - 1, k);
      CombineUnit(len - 1, k, m, n);
    }
  }
}
