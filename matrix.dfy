/**
 * Pure cell-wise specifications of the matrix algebra performed by
 * `ariel::Graph`: shapes, the per-cell operations, the matrix product and
 * the cell-wise comparisons. Cells are mathematical integers; `INT_MAX` is
 * kept only because binary `+` tests against it.
 */
module Matrix {

  /** std::numeric_limits<int>::max() for a 32-bit int. */
  const INT_MAX: int := 2147483647

  function Abs(x: int): nat { if x < 0 then -x else x }

  /** Every row is as long as there are rows; the 0x0 matrix qualifies. */
  predicate IsSquare(m: seq<seq<int>>) {
    forall i :: 0 <= i < |m| ==> |m[i]| == |m|
  }

  /** `m` is exactly `n` by `n`. */
  predicate IsGrid(m: seq<seq<int>>, n: nat) {
    |m| == n && IsSquare(m)
  }

  /** The `n` by `n` matrix whose every cell is `v` (a `resize` with a fill value). */
  function Filled(n: nat, v: int): (m: seq<seq<int>>)
    ensures IsGrid(m, n)
    ensures forall i, j :: 0 <= i < n && 0 <= j < n ==> m[i][j] == v
  {
    seq(n, _ => seq(n, _ => v))
  }

  /**
   * C++ `/` on int: the quotient truncated toward zero. The remainder it
   * leaves is smaller than the divisor and has the sign of the dividend;
   * these two facts determine the quotient.
   */
  function TruncDiv(x: int, d: int): (q: int)
    requires d != 0
    ensures var r := x - q * d;
            Abs(r) < Abs(d) && (x >= 0 ==> r >= 0) && (x <= 0 ==> r <= 0)
  {
    var q0: int, r0: int := Abs(x) / Abs(d), Abs(x) % Abs(d);
    var q := if (x < 0) == (d < 0) then q0 else -q0;
    SignedRemainder(x, d, q, q0, r0);
    q
  }

  /** `x - q * d` is the remainder of `|x|` by `|d|`, carrying the sign of `x`. */
  lemma SignedRemainder(x: int, d: int, q: int, q0: int, r0: int)
    requires d != 0 && Abs(x) == q0 * Abs(d) + r0 && 0 <= r0 < Abs(d)
    requires q == if (x < 0) == (d < 0) then q0 else -q0
    ensures x - q * d == if x >= 0 then r0 else -r0
  {
    var e: int := Abs(d);
    NegatedProduct(q0, e);
    if x >= 0 {
      if d > 0 {
        assert q == q0 && d == e;
      } else {
        assert q == -q0 && d == -e;
      }
      assert q * d == q0 * e;
    } else {
      if d > 0 {
        assert q == -q0 && d == e;
      } else {
        assert q == q0 && d == -e;
      }
      assert q * d == -(q0 * e);
    }
  }

  lemma NegatedProduct(a: int, b: int)
    ensures (-a) * b == -(a * b) && a * (-b) == -(a * b) && (-a) * (-b) == a * b
  {
  }

  /** Dividing a multiple of `k` by `k` gives back the factor (`(g * k) / k == g`). */
  lemma TruncDivOfMultiple(x: int, k: int)
    requires k != 0
    ensures TruncDiv(x * k, k) == x
  {
    var q := TruncDiv(x * k, k);
    assert x * k - q * k == (x - q) * k;
    if x - q != 0 {
      AbsOfProduct(x - q, k);
    }
  }

  lemma AbsOfProduct(m: int, k: int)
    requires m != 0
    ensures Abs(m * k) >= Abs(k)
  {
    AbsMultiplies(m, k);
    ProductAtLeast(Abs(m), Abs(k));
  }

  lemma AbsMultiplies(m: int, k: int)
    ensures Abs(m * k) == Abs(m) * Abs(k)
  {
    NegatedProduct(m, k);
    if m < 0 && k < 0 {
      assert m * k == (-m) * (-k);
    } else if m < 0 {
      assert m * k == -((-m) * k);
    } else if k < 0 {
      assert m * k == -(m * (-k));
    }
  }

  lemma ProductAtLeast(a: int, b: int)
    requires a >= 1 && b >= 0
    ensures a * b >= b
  {
    assert (a - 1) * b >= 0;
  }

  /** The cell operations that combine a graph with a second graph. */
  datatype BinOp = Add | Sub | Mul

  function ApplyBin(op: BinOp, x: int, y: int): int {
    match op
    case Add => x + y
    case Sub => x - y
    case Mul => x * y
  }

  /** The cell operations that involve one graph (and possibly a scalar). */
  datatype UnOp = Scale(k: int) | Quotient(k: int) | Negate | Increment | Decrement {
    /** Only division by a zero scalar is undefined. */
    predicate Defined() { Quotient? ==> k != 0 }
  }

  function ApplyUn(op: UnOp, x: int): int
    requires op.Defined()
  {
    match op
    case Scale(k) => x * k
    case Quotient(k) => TruncDiv(x, k)
    case Negate => -x
    case Increment => x + 1
    case Decrement => x - 1
  }

  /** The `n` by `n` matrix combining `a` and `b` cell by cell. */
  function Zip(op: BinOp, a: seq<seq<int>>, b: seq<seq<int>>, n: nat): (r: seq<seq<int>>)
    requires IsGrid(a, n) && IsGrid(b, n)
    ensures IsGrid(r, n)
    ensures forall i, j :: 0 <= i < n && 0 <= j < n ==> r[i][j] == ApplyBin(op, a[i][j], b[i][j])
  {
    seq(n, i requires 0 <= i < n => seq(n, j requires 0 <= j < n => ApplyBin(op, a[i][j], b[i][j])))
  }

  /** The `n` by `n` matrix applying `op` to every cell of `a`. */
  function Map(op: UnOp, a: seq<seq<int>>, n: nat): (r: seq<seq<int>>)
    requires op.Defined() && IsGrid(a, n)
    ensures IsGrid(r, n)
    ensures forall i, j :: 0 <= i < n && 0 <= j < n ==> r[i][j] == ApplyUn(op, a[i][j])
  {
    seq(n, i requires 0 <= i < n => seq(n, j requires 0 <= j < n => ApplyUn(op, a[i][j])))
  }

  /** Two `n` by `n` matrices that agree on every cell are equal. */
  lemma GridExtensionality(a: seq<seq<int>>, b: seq<seq<int>>, n: nat)
    requires IsGrid(a, n) && IsGrid(b, n)
    requires forall i, j :: 0 <= i < n && 0 <= j < n ==> a[i][j] == b[i][j]
    ensures a == b
  {
    forall i | 0 <= i < n ensures a[i] == b[i] {
      assert forall j :: 0 <= j < n ==> a[i][j] == b[i][j];
    }
  }

  /** `-=` undoes `+=` with the same right-hand graph. */
  lemma SubUndoesAdd(a: seq<seq<int>>, b: seq<seq<int>>, n: nat)
    requires IsGrid(a, n) && IsGrid(b, n)
    ensures Zip(Sub, Zip(Add, a, b, n), b, n) == a
  {
    GridExtensionality(Zip(Sub, Zip(Add, a, b, n), b, n), a, n);
  }

  /** `--` undoes `++`. */
  lemma DecrementUndoesIncrement(a: seq<seq<int>>, n: nat)
    requires IsGrid(a, n)
    ensures Map(Decrement, Map(Increment, a, n), n) == a
  {
    GridExtensionality(Map(Decrement, Map(Increment, a, n), n), a, n);
  }

  /** Unary minus is an involution. */
  lemma NegateInvolution(a: seq<seq<int>>, n: nat)
    requires IsGrid(a, n)
    ensures Map(Negate, Map(Negate, a, n), n) == a
  {
    GridExtensionality(Map(Negate, Map(Negate, a, n), n), a, n);
  }

  /** Dividing by a non-zero scalar undoes multiplying by it. */
  lemma QuotientUndoesScale(a: seq<seq<int>>, n: nat, k: int)
    requires IsGrid(a, n) && k != 0
    ensures Map(Quotient(k), Map(Scale(k), a, n), n) == a
  {
    forall i, j | 0 <= i < n && 0 <= j < n
      ensures Map(Quotient(k), Map(Scale(k), a, n), n)[i][j] == a[i][j]
    {
      TruncDivOfMultiple(a[i][j], k);
    }
    GridExtensionality(Map(Quotient(k), Map(Scale(k), a, n), n), a, n);
  }

  /** The first `k` terms of the dot product of row `i` of `a` with column `j` of `b`. */
  function Dot(a: seq<seq<int>>, b: seq<seq<int>>, n: nat, i: nat, j: nat, k: nat): int
    requires IsGrid(a, n) && IsGrid(b, n) && i < n && j < n && k <= n
  {
    if k == 0 then 0 else Dot(a, b, n, i, j, k - 1) + a[i][k - 1] * b[k - 1][j]
  }

  /** The ordinary matrix product of two `n` by `n` matrices. */
  function MatMul(a: seq<seq<int>>, b: seq<seq<int>>, n: nat): (r: seq<seq<int>>)
    requires IsGrid(a, n) && IsGrid(b, n)
    ensures IsGrid(r, n)
    ensures forall i, j :: 0 <= i < n && 0 <= j < n ==> r[i][j] == Dot(a, b, n, i, j, n)
  {
    seq(n, i requires 0 <= i < n => seq(n, j requires 0 <= j < n => Dot(a, b, n, i, j, n)))
  }

  /** The `n` by `n` identity matrix. */
  function Identity(n: nat): (m: seq<seq<int>>)
    ensures IsGrid(m, n)
    ensures forall i, j :: 0 <= i < n && 0 <= j < n ==> m[i][j] == if i == j then 1 else 0
  {
    seq(n, i => seq(n, j => if i == j then 1 else 0))
  }

  lemma {:induction false} DotWithIdentity(b: seq<seq<int>>, n: nat, i: nat, j: nat, k: nat)
    requires IsGrid(b, n) && i < n && j < n && k <= n
    ensures Dot(Identity(n), b, n, i, j, k) == if i < k then b[i][j] else 0
  {
    if k > 0 {
      DotWithIdentity(b, n, i, j, k - 1);
    }
  }

  /** The identity graph is neutral for binary `*` on the left. */
  lemma IdentityTimes(b: seq<seq<int>>, n: nat)
    requires IsGrid(b, n)
    ensures MatMul(Identity(n), b, n) == b
  {
    forall i, j | 0 <= i < n && 0 <= j < n ensures MatMul(Identity(n), b, n)[i][j] == b[i][j] {
      DotWithIdentity(b, n, i, j, n);
    }
    GridExtensionality(MatMul(Identity(n), b, n), b, n);
  }

  /** `m` has at least `n` rows, each of at least `n` entries. */
  predicate Covers(m: seq<seq<int>>, n: nat) {
    n <= |m| && forall i :: 0 <= i < n ==> n <= |m[i]|
  }

  /**
   * The overflow test of binary `+`: some cell among the first `n` by `n`
   * has `a[i][j] > INT_MAX - b[i][j]`.
   */
  predicate SumOverflows(a: seq<seq<int>>, b: seq<seq<int>>, n: nat)
    requires Covers(a, n) && Covers(b, n)
  {
    exists i, j :: 0 <= i < n && 0 <= j < n && a[i][j] > INT_MAX - b[i][j]
  }

  /** Every cell of `a` equals the matching cell of `b` (the loop of operator==). */
  predicate AllEqual(a: seq<seq<int>>, b: seq<seq<int>>, n: nat)
    requires IsGrid(a, n) && IsGrid(b, n)
  {
    forall i, j :: 0 <= i < n && 0 <= j < n ==> a[i][j] == b[i][j]
  }

  /** Every cell of `a` is strictly below the matching cell of `b` (the loop of operator<). */
  predicate AllLess(a: seq<seq<int>>, b: seq<seq<int>>, n: nat)
    requires IsGrid(a, n) && IsGrid(b, n)
  {
    forall i, j :: 0 <= i < n && 0 <= j < n ==> a[i][j] < b[i][j]
  }

  /** Every cell of `a` is at most the matching cell of `b`; NOT what operator<= computes. */
  predicate AllAtMost(a: seq<seq<int>>, b: seq<seq<int>>, n: nat)
    requires IsGrid(a, n) && IsGrid(b, n)
  {
    forall i, j :: 0 <= i < n && 0 <= j < n ==> a[i][j] <= b[i][j]
  }

  /** operator<= is `(a < b) || (a == b)`. */
  predicate LessOrEqual(a: seq<seq<int>>, b: seq<seq<int>>, n: nat)
    requires IsGrid(a, n) && IsGrid(b, n)
  {
    AllLess(a, b, n) || AllEqual(a, b, n)
  }

  /** Cell-wise equality of two graphs of equal size is equality of their matrices. */
  lemma AllEqualIsEquality(a: seq<seq<int>>, b: seq<seq<int>>, n: nat)
    requires IsGrid(a, n) && IsGrid(b, n)
    ensures AllEqual(a, b, n) <==> a == b
  {
    if AllEqual(a, b, n) {
      GridExtensionality(a, b, n);
    }
  }

  /** With at least one vertex, `<` is irreflexive and asymmetric and excludes `==`. */
  lemma AllLessIsStrict(a: seq<seq<int>>, b: seq<seq<int>>, n: nat)
    requires IsGrid(a, n) && IsGrid(b, n) && n > 0
    ensures AllLess(a, b, n) ==> !AllEqual(a, b, n) && !AllLess(b, a, n)
  {
    if AllLess(a, b, n) {
      assert a[0][0] < b[0][0];
    }
  }

  /**
   * At zero vertices `<`, `==` and `<=` hold vacuously, in both directions.
   * So `>=`, which is `!(a < b)`, and `>`, which is `!(a <= b)`, are both
   * false, although the two graphs are equal.
   */
  lemma ComparisonsOfEmpty(a: seq<seq<int>>, b: seq<seq<int>>)
    requires IsGrid(a, 0) && IsGrid(b, 0)
    ensures AllLess(a, b, 0) && AllEqual(a, b, 0) && LessOrEqual(a, b, 0)
    ensures AllLess(b, a, 0) && a == b
    ensures !(!AllLess(a, b, 0)) && !(!LessOrEqual(a, b, 0))
  {
  }

  /** operator<= implies cell-wise <=, but not conversely. */
  lemma LessOrEqualIsStronger(a: seq<seq<int>>, b: seq<seq<int>>, n: nat)
    requires IsGrid(a, n) && IsGrid(b, n)
    ensures LessOrEqual(a, b, n) ==> AllAtMost(a, b, n)
    ensures var c, d := [[0, 1], [1, 1]], [[0, 2], [1, 1]];
            IsGrid(c, 2) && IsGrid(d, 2) && AllAtMost(c, d, 2) && !LessOrEqual(c, d, 2)
  {
    var c, d := [[0, 1], [1, 1]], [[0, 2], [1, 1]];
    assert c[0][1] != d[0][1];
    assert !(c[0][0] < d[0][0]);
  }
}
