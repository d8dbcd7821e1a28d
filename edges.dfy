/**
 * The edge list of `ariel::Graph::edges`: a row-major scan of the matrix
 * that emits `(i, j, weight)` for a non-zero cell unless the reverse pair
 * `(j, i)` was emitted earlier in the scan.
 */
module EdgeList {
  import opened Matrix

  /** `(from, to, weight)`, as `std::tuple<int, int, int>`. */
  type Edge = (nat, nat, int)

  /**
   * Cell `(i, j)` yields an edge: it is non-zero, and it is not the second
   * half of a pair whose first half `(j, i)` the scan met earlier.
   */
  predicate Kept(g: seq<seq<int>>, n: nat, i: nat, j: nat)
    requires IsGrid(g, n) && i < n && j < n
  {
    g[i][j] != 0 && !(j < i && g[j][i] != 0)
  }

  /** The edges emitted for cells `(i, 0) .. (i, j - 1)`. */
  function RowEdges(g: seq<seq<int>>, n: nat, i: nat, j: nat): seq<Edge>
    requires IsGrid(g, n) && i < n && j <= n
  {
    if j == 0 then []
    else RowEdges(g, n, i, j - 1) + (if Kept(g, n, i, j - 1) then [(i, j - 1, g[i][j - 1])] else [])
  }

  /** The edges emitted for rows `0 .. i - 1`. */
  function EdgesOfRows(g: seq<seq<int>>, n: nat, i: nat): seq<Edge>
    requires IsGrid(g, n) && i <= n
  {
    if i == 0 then [] else EdgesOfRows(g, n, i - 1) + RowEdges(g, n, i - 1, n)
  }

  /** The whole edge list of an `n` by `n` matrix. */
  function Edges(g: seq<seq<int>>, n: nat): seq<Edge>
    requires IsGrid(g, n)
  {
    EdgesOfRows(g, n, n)
  }

  /** The index pairs of the emitted edges (the `uniqueEdges` keys). */
  function Pairs(es: seq<Edge>): set<(nat, nat)> {
    set e | e in es :: (e.0, e.1)
  }

  /** Edges appear in strictly increasing row-major order of their cells. */
  predicate RowMajorSorted(es: seq<Edge>) {
    forall p, q :: 0 <= p < q < |es| ==>
      es[p].0 < es[q].0 || (es[p].0 == es[q].0 && es[p].1 < es[q].1)
  }

  /** No unordered pair of vertices occurs twice, in either direction. */
  predicate NoRepeatedPair(es: seq<Edge>) {
    forall p, q :: 0 <= p < q < |es| ==>
      !(es[p].0 == es[q].0 && es[p].1 == es[q].1) && !(es[p].0 == es[q].1 && es[p].1 == es[q].0)
  }

  lemma {:induction false} RowEdgesMembership(g: seq<seq<int>>, n: nat, i: nat, j: nat)
    requires IsGrid(g, n) && i < n && j <= n
    ensures forall e :: e in RowEdges(g, n, i, j) <==>
      e.0 == i && e.1 < j && Kept(g, n, i, e.1) && e.2 == g[i][e.1]
  {
    if j > 0 {
      RowEdgesMembership(g, n, i, j - 1);
    }
  }

  lemma {:induction false} EdgesOfRowsMembership(g: seq<seq<int>>, n: nat, i: nat)
    requires IsGrid(g, n) && i <= n
    ensures forall e :: e in EdgesOfRows(g, n, i) <==>
      e.0 < i && e.1 < n && Kept(g, n, e.0, e.1) && e.2 == g[e.0][e.1]
  {
    if i > 0 {
      EdgesOfRowsMembership(g, n, i - 1);
      RowEdgesMembership(g, n, i - 1, n);
      var front, back := EdgesOfRows(g, n, i - 1), RowEdges(g, n, i - 1, n);
      forall e: Edge
        ensures e in front + back <==> e.0 < i && e.1 < n && Kept(g, n, e.0, e.1) && e.2 == g[e.0][e.1]
      {
        assert e in front + back <==> e in front || e in back;
      }
    }
  }

  /** An edge is listed exactly when its cell is kept, with that cell's weight. */
  lemma EdgesMembership(g: seq<seq<int>>, n: nat, e: Edge)
    requires IsGrid(g, n)
    ensures e in Edges(g, n) <==>
      e.0 < n && e.1 < n && g[e.0][e.1] != 0 && !(e.1 < e.0 && g[e.1][e.0] != 0) && e.2 == g[e.0][e.1]
  {
    EdgesOfRowsMembership(g, n, n);
  }

  /**
   * The set test of the scan agrees with `Kept`: at cell `(i, j)`, the key
   * `(j, i)` is among those already emitted exactly when `j < i` and
   * `g[j][i]` is non-zero.
   */
  lemma ScanCriterion(g: seq<seq<int>>, n: nat, i: nat, j: nat)
    requires IsGrid(g, n) && i < n && j < n
    ensures (j, i) in Pairs(EdgesOfRows(g, n, i) + RowEdges(g, n, i, j)) <==> j < i && g[j][i] != 0
    ensures Kept(g, n, i, j) <==> g[i][j] != 0 && (j, i) !in Pairs(EdgesOfRows(g, n, i) + RowEdges(g, n, i, j))
  {
    var es := EdgesOfRows(g, n, i) + RowEdges(g, n, i, j);
    EdgesOfRowsMembership(g, n, i);
    RowEdgesMembership(g, n, i, j);
    if j < i && g[j][i] != 0 {
      assert (j, i, g[j][i]) in EdgesOfRows(g, n, i);
      assert (j, i, g[j][i]) in es;
    }
  }

  /** One step of the scan: cell `(i, j)` appends its edge exactly when the set test lets it. */
  lemma ScanStep(g: seq<seq<int>>, n: nat, i: nat, j: nat)
    requires IsGrid(g, n) && i < n && j < n
    ensures var es := EdgesOfRows(g, n, i) + RowEdges(g, n, i, j);
            EdgesOfRows(g, n, i) + RowEdges(g, n, i, j + 1)
            == es + (if g[i][j] != 0 && (j, i) !in Pairs(es) then [(i, j, g[i][j])] else [])
  {
    ScanCriterion(g, n, i, j);
    var front, row := EdgesOfRows(g, n, i), RowEdges(g, n, i, j);
    var cell: seq<Edge> := if Kept(g, n, i, j) then [(i, j, g[i][j])] else [];
    assert RowEdges(g, n, i, j + 1) == row + cell;
    assert front + (row + cell) == (front + row) + cell;
  }

  lemma {:induction false} RowEdgesSorted(g: seq<seq<int>>, n: nat, i: nat, j: nat)
    requires IsGrid(g, n) && i < n && j <= n
    ensures RowMajorSorted(RowEdges(g, n, i, j))
  {
    if j > 0 {
      RowEdgesSorted(g, n, i, j - 1);
      RowEdgesMembership(g, n, i, j - 1);
      var es := RowEdges(g, n, i, j - 1);
      forall p | 0 <= p < |es| ensures es[p].0 == i && es[p].1 < j - 1 {
        assert es[p] in es;
      }
    }
  }

  lemma {:induction false} EdgesOfRowsSorted(g: seq<seq<int>>, n: nat, i: nat)
    requires IsGrid(g, n) && i <= n
    ensures RowMajorSorted(EdgesOfRows(g, n, i))
  {
    if i > 0 {
      EdgesOfRowsSorted(g, n, i - 1);
      RowEdgesSorted(g, n, i - 1, n);
      EdgesOfRowsMembership(g, n, i - 1);
      RowEdgesMembership(g, n, i - 1, n);
      var front, back := EdgesOfRows(g, n, i - 1), RowEdges(g, n, i - 1, n);
      forall p | 0 <= p < |front| ensures front[p].0 < i - 1 {
        assert front[p] in front;
      }
      forall q | 0 <= q < |back| ensures back[q].0 == i - 1 {
        assert back[q] in back;
      }
    }
  }

  /** The edge list is in row-major order and lists no unordered pair twice. */
  lemma EdgesOrderedWithoutRepeats(g: seq<seq<int>>, n: nat)
    requires IsGrid(g, n)
    ensures RowMajorSorted(Edges(g, n))
    ensures NoRepeatedPair(Edges(g, n))
  {
    var es := Edges(g, n);
    EdgesOfRowsSorted(g, n, n);
    EdgesOfRowsMembership(g, n, n);
    forall p, q | 0 <= p < q < |es|
      ensures !(es[p].0 == es[q].1 && es[p].1 == es[q].0)
    {
      assert es[p] in es && es[q] in es;
    }
  }

  /** Every non-zero cell is represented, by itself or by its reverse. */
  lemma EdgesCoverNonZeroCells(g: seq<seq<int>>, n: nat, i: nat, j: nat)
    requires IsGrid(g, n) && i < n && j < n && g[i][j] != 0
    ensures (i, j, g[i][j]) in Edges(g, n) || (j, i, g[j][i]) in Edges(g, n)
  {
    EdgesOfRowsMembership(g, n, n);
  }

  /** For a symmetric matrix the edges are the non-zero cells on or above the diagonal. */
  lemma SymmetricEdges(g: seq<seq<int>>, n: nat, e: Edge)
    requires IsGrid(g, n)
    requires forall a, b :: 0 <= a < n && 0 <= b < n ==> g[a][b] == g[b][a]
    ensures e in Edges(g, n) <==> e.0 <= e.1 < n && g[e.0][e.1] != 0 && e.2 == g[e.0][e.1]
  {
    EdgesOfRowsMembership(g, n, n);
  }
}
