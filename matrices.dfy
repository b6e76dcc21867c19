/** Integer matrices and the two products `np.matmul` computes in matrix.py: C = B @ A and
    AV = A @ V, with exact (unbounded) sums. */
module Matrices {

  /** A matrix as its sequence of rows. */
  type Matrix = seq<seq<int>>

  /** m has `rows` rows of `cols` entries each. */
  predicate IsShape(m: Matrix, rows: nat, cols: nat) {
    |m| == rows && forall i :: 0 <= i < |m| ==> |m[i]| == cols
  }

  /** Every entry lies in [lo, hi], the range `np.random.randint(lo, hi + 1)` draws from. */
  predicate InRange(m: Matrix, lo: int, hi: int) {
    forall i, j :: 0 <= i < |m| && 0 <= j < |m[i]| ==> lo <= m[i][j] <= hi
  }

  /** Column j of m. */
  function Column(m: Matrix, j: nat): (c: seq<int>)
    requires forall i :: 0 <= i < |m| ==> j < |m[i]|
  {
    seq(|m|, i requires 0 <= i < |m| => m[i][j])
  }

  /** Dot product of two equally long vectors, folded from the front. */
  function Dot(u: seq<int>, v: seq<int>): int
    requires |u| == |v|
  {
    if u == [] then 0 else u[0] * v[0] + Dot(u[1..], v[1..])
  }

  /** `np.matmul(l, r)` for an l with |r| columns and an r with `cols` columns: entry (i, j)
      is the dot product of row i of l with column j of r. */
  function MatMul(l: Matrix, r: Matrix, cols: nat): (p: Matrix)
    requires IsShape(l, |l|, |r|) && IsShape(r, |r|, cols)
    ensures IsShape(p, |l|, cols)
  {
    seq(|l|, i requires 0 <= i < |l| =>
      seq(cols, j requires 0 <= j < cols => Dot(l[i], Column(r, j))))
  }

  /** The textbook sum over the inner index: l[i][0]*r[0][j] + ... + l[i][k-1]*r[k-1][j]. */
  function Sum(l: Matrix, r: Matrix, i: nat, j: nat, k: nat): int
    requires i < |l| && k <= |l[i]| && k <= |r|
    requires forall t :: 0 <= t < k ==> j < |r[t]|
  {
    if k == 0 then 0 else Sum(l, r, i, j, k - 1) + l[i][k - 1] * r[k - 1][j]
  }

  /** Dot over the first k+1 entries, peeled from the back. */
  lemma {:induction false} DotSnoc(u: seq<int>, v: seq<int>, k: nat)
    requires |u| == |v| && k < |u|
    ensures Dot(u[..k + 1], v[..k + 1]) == Dot(u[..k], v[..k]) + u[k] * v[k]
  {
    if k > 0 {
      assert u[..k + 1][1..] == u[1..][..k];
      assert v[..k + 1][1..] == v[1..][..k];
      assert u[..k][1..] == u[1..][..k - 1];
      assert v[..k][1..] == v[1..][..k - 1];
      DotSnoc(u[1..], v[1..], k - 1);
    }
  }

  lemma {:induction false} DotPrefixIsSum(l: Matrix, r: Matrix, i: nat, j: nat, k: nat)
    requires i < |l| && |l[i]| == |r| && k <= |r|
    requires forall t :: 0 <= t < |r| ==> j < |r[t]|
    ensures Dot(l[i][..k], Column(r, j)[..k]) == Sum(l, r, i, j, k)
  {
    if k > 0 {
      DotPrefixIsSum(l, r, i, j, k - 1);
      DotSnoc(l[i], Column(r, j), k - 1);
    }
  }

  /** Every entry of the product is the exact integer sum over the inner index. */
  lemma MatMulEntry(l: Matrix, r: Matrix, cols: nat, i: nat, j: nat)
    requires IsShape(l, |l|, |r|) && IsShape(r, |r|, cols)
    requires i < |l| && j < cols
    ensures MatMul(l, r, cols)[i][j] == Sum(l, r, i, j, |r|)
  {
    DotPrefixIsSum(l, r, i, j, |r|);
    assert l[i][..|r|] == l[i];
    assert Column(r, j)[..|r|] == Column(r, j);
  }

  /** A product of two values in [-128, 127] lies in [-16256, 16384]. */
  lemma ProductBound(a: int, b: int)
    requires -128 <= a <= 127 && -128 <= b <= 127
    ensures -16256 <= a * b <= 16384
  {
    if a >= 0 && b >= 0 {
      assert a * b <= 127 * b;
    } else if a < 0 && b < 0 {
      assert a * b == (-a) * (-b);
      assert (-a) * (-b) <= 128 * (-b);
    } else if a < 0 {
      assert a * b >= -128 * b;
    } else {
      assert a * b >= a * -128;
    }
  }

  /** A dot product of 8-bit vectors of length k lies in [-16256 k, 16384 k]. */
  lemma {:induction false} DotBound(u: seq<int>, v: seq<int>)
    requires |u| == |v|
    requires forall t :: 0 <= t < |u| ==> -128 <= u[t] <= 127 && -128 <= v[t] <= 127
    ensures -16256 * |u| <= Dot(u, v) <= 16384 * |u|
  {
    if u != [] {
      ProductBound(u[0], v[0]);
      DotBound(u[1..], v[1..]);
    }
  }

  const INT32_MIN: int := -0x8000_0000
  const INT32_MAX: int := 0x7FFF_FFFF

  /** The widening to int32 before `np.matmul` suffices: with 8-bit operands and an inner
      dimension up to 131071, no entry of the product leaves the int32 range, so the exact
      sums modelled here are the sums numpy computes. With a larger inner dimension the
      bound fails (see `MatrixProductMaySaturate`) and numpy's sums would wrap. */
  lemma AccumulatorFitsInt32(l: Matrix, r: Matrix, cols: nat, i: nat, j: nat)
    requires IsShape(l, |l|, |r|) && IsShape(r, |r|, cols)
    requires InRange(l, -128, 127) && InRange(r, -128, 127)
    requires |r| <= 131071 && i < |l| && j < cols
    ensures INT32_MIN <= MatMul(l, r, cols)[i][j] <= INT32_MAX
  {
    var c := Column(r, j);
    assert forall t :: 0 <= t < |c| ==> -128 <= c[t] <= 127;
    DotBound(l[i], c);
  }
}
