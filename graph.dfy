/**
 * `ariel::Graph`: a square integer adjacency matrix with loading,
 * accessors, an edge list, arithmetic and comparison operators, and text
 * output and input.
 *
 * The class keeps three pieces of state that only `LoadGraph` keeps in step:
 * `graph`, `numVertices` and `adjacencyMatrix`. Binary `+` and graph-by-graph
 * `*` fill only `adjacencyMatrix`; binary and unary `-`, scalar `*` and `/`
 * fill only `graph` and `numVertices`; the in-place operators change only
 * `graph`. `PrintGraph`, binary `+` and graph-by-graph `*` read
 * `adjacencyMatrix` (`+` also tests `graph`); every other operation reads
 * `graph`.
 */
module Ariel {
  import opened Errors
  import opened Matrix
  import opened EdgeList
  import opened Text

  /** The cell loop of binary `-`: a fresh `n` by `n` matrix combining `a` and `b`. */
  method FillZip(op: BinOp, a: seq<seq<int>>, b: seq<seq<int>>, n: nat) returns (m: seq<seq<int>>)
    requires IsGrid(a, n) && IsGrid(b, n)
    ensures m == Zip(op, a, b, n)
  {
    m := Filled(n, 0);
    for i := 0 to n
      invariant IsGrid(m, n)
      invariant forall r, c :: 0 <= r < i && 0 <= c < n ==> m[r][c] == ApplyBin(op, a[r][c], b[r][c])
    {
      for j := 0 to n
        invariant IsGrid(m, n)
        invariant forall r, c :: 0 <= r < i && 0 <= c < n ==> m[r][c] == ApplyBin(op, a[r][c], b[r][c])
        invariant forall c :: 0 <= c < j ==> m[i][c] == ApplyBin(op, a[i][c], b[i][c])
      {
        m := m[i := m[i][j := ApplyBin(op, a[i][j], b[i][j])]];
      }
    }
    GridExtensionality(m, Zip(op, a, b, n), n);
  }

  /** The cell loop of unary `-`, scalar `*` and `/`: a fresh matrix applying `op` to `a`. */
  method FillMap(op: UnOp, a: seq<seq<int>>, n: nat) returns (m: seq<seq<int>>)
    requires op.Defined() && IsGrid(a, n)
    ensures m == Map(op, a, n)
  {
    m := Filled(n, 0);
    for i := 0 to n
      invariant IsGrid(m, n)
      invariant forall r, c :: 0 <= r < i && 0 <= c < n ==> m[r][c] == ApplyUn(op, a[r][c])
    {
      for j := 0 to n
        invariant IsGrid(m, n)
        invariant forall r, c :: 0 <= r < i && 0 <= c < n ==> m[r][c] == ApplyUn(op, a[r][c])
        invariant forall c :: 0 <= c < j ==> m[i][c] == ApplyUn(op, a[i][c])
      {
        m := m[i := m[i][j := ApplyUn(op, a[i][j])]];
      }
    }
    GridExtensionality(m, Map(op, a, n), n);
  }

  /** The triple loop of graph-by-graph `*`: each cell starts at 0 and accumulates its dot product. */
  method FillProduct(a: seq<seq<int>>, b: seq<seq<int>>, n: nat) returns (m: seq<seq<int>>)
    requires IsGrid(a, n) && IsGrid(b, n)
    ensures m == MatMul(a, b, n)
  {
    m := Filled(n, 0);
    for i := 0 to n
      invariant IsGrid(m, n)
      invariant forall r, c :: 0 <= r < i && 0 <= c < n ==> m[r][c] == Dot(a, b, n, r, c, n)
    {
      for j := 0 to n
        invariant IsGrid(m, n)
        invariant forall r, c :: 0 <= r < i && 0 <= c < n ==> m[r][c] == Dot(a, b, n, r, c, n)
        invariant forall c :: 0 <= c < j ==> m[i][c] == Dot(a, b, n, i, c, n)
      {
        var acc := 0;
        for k := 0 to n
          invariant acc == Dot(a, b, n, i, j, k)
        {
          acc := acc + a[i][k] * b[k][j];
        }
        m := m[i := m[i][j := acc]];
      }
    }
    GridExtensionality(m, MatMul(a, b, n), n);
  }

  /**
   * The loop of binary `+`: each cell of the sum is written from `a` and `b`,
   * then the overflow test runs on the same cell of `ga` and `gb`; the first
   * cell that fails it throws.
   */
  method FillCheckedSum(a: seq<seq<int>>, b: seq<seq<int>>, ga: seq<seq<int>>, gb: seq<seq<int>>, n: nat)
    returns (r: Result<seq<seq<int>>>)
    requires IsGrid(a, n) && IsGrid(b, n) && Covers(ga, n) && Covers(gb, n)
    ensures r.Ok? <==> !SumOverflows(ga, gb, n)
    ensures r.Ok? ==> r.value == Zip(Add, a, b, n)
    ensures r.Err? ==> r.error == OverflowError
  {
    var m := Filled(n, 0);
    for i := 0 to n
      invariant IsGrid(m, n)
      invariant forall x, y :: 0 <= x < i && 0 <= y < n ==> m[x][y] == a[x][y] + b[x][y]
      invariant forall x, y :: 0 <= x < i && 0 <= y < n ==> ga[x][y] <= INT_MAX - gb[x][y]
    {
      for j := 0 to n
        invariant IsGrid(m, n)
        invariant forall x, y :: 0 <= x < i && 0 <= y < n ==> m[x][y] == a[x][y] + b[x][y]
        invariant forall x, y :: 0 <= x < i && 0 <= y < n ==> ga[x][y] <= INT_MAX - gb[x][y]
        invariant forall y :: 0 <= y < j ==> m[i][y] == a[i][y] + b[i][y]
        invariant forall y :: 0 <= y < j ==> ga[i][y] <= INT_MAX - gb[i][y]
      {
        m := m[i := m[i][j := a[i][j] + b[i][j]]];
        if ga[i][j] > INT_MAX - gb[i][j] {
          return Err(OverflowError);
        }
      }
    }
    GridExtensionality(m, Zip(Add, a, b, n), n);
    return Ok(m);
  }

  class Graph {
    var numVertices: nat
    var graph: seq<seq<int>>
    var adjacencyMatrix: seq<seq<int>>

    /**
     * The invariant every operation keeps: `graph` is `numVertices` square,
     * `adjacencyMatrix` is square, and when both are in use they agree in size.
     */
    ghost predicate Valid()
      reads this
    {
      && IsGrid(graph, numVertices)
      && IsSquare(adjacencyMatrix)
      && (numVertices != 0 && |adjacencyMatrix| != 0 ==> |adjacencyMatrix| == numVertices)
    }

    /** The default constructor: no vertices, both matrices empty. */
    constructor ()
      ensures Valid()
      ensures numVertices == 0 && graph == [] && adjacencyMatrix == []
    {
      numVertices := 0;
      graph := [];
      adjacencyMatrix := [];
    }

    /** The implicit copy constructor: every field copied. */
    constructor Copy(other: Graph)
      requires other.Valid()
      ensures Valid()
      ensures numVertices == other.numVertices && graph == other.graph
      ensures adjacencyMatrix == other.adjacencyMatrix
    {
      numVertices := other.numVertices;
      graph := other.graph;
      adjacencyMatrix := other.adjacencyMatrix;
    }

    /** True iff every row of `matrix` is as long as there are rows. */
    method IsSquareMatrix(matrix: seq<seq<int>>) returns (square: bool)
      ensures square <==> IsSquare(matrix)
    {
      var n := |matrix|;
      for k := 0 to |matrix|
        invariant forall t :: 0 <= t < k ==> |matrix[t]| == n
      {
        if |matrix[k]| != n {
          return false;
        }
      }
      return true;
    }

    /**
     * Replaces all three fields by `matrix` when it is square (0x0 included);
     * otherwise throws `invalid_argument` and changes nothing.
     */
    method LoadGraph(matrix: seq<seq<int>>) returns (status: Status)
      requires Valid()
      modifies this
      ensures Valid()
      ensures IsSquare(matrix) ==> status == Done
      ensures IsSquare(matrix) ==> numVertices == |matrix| && graph == matrix && adjacencyMatrix == matrix
      ensures !IsSquare(matrix) ==> status == Failed(InvalidArgument) && unchanged(this)
    {
      var square := IsSquareMatrix(matrix);
      if !square {
        return Failed(InvalidArgument);
      }
      graph := matrix;
      adjacencyMatrix := matrix;
      numVertices := |matrix|;
      return Done;
    }

    /** `adjacencyMatrix` rendered as `[v0, v1, ...]` rows separated by newlines. */
    method PrintGraph() returns (s: string)
      ensures s == Render(adjacencyMatrix, ", ")
    {
      s := RenderMatrix(adjacencyMatrix, ", ");
    }

    /** The `graph` field (not `adjacencyMatrix`): `numVertices` rows of `numVertices` cells. */
    function GetGraph(): (m: seq<seq<int>>)
      requires Valid()
      reads this
      ensures IsGrid(m, numVertices)
      ensures m == graph
    {
      graph
    }

    /** The `numVertices` field, which is also the number of rows of `GetGraph()`. */
    function Vertices(): (n: nat)
      requires Valid()
      reads this
      ensures n == numVertices && n == |GetGraph()|
    {
      numVertices
    }

    /** Row `index` of `graph`; `out_of_range` unless `0 <= index < numVertices`. */
    function Adj(index: int): (r: Result<seq<int>>)
      requires Valid()
      reads this
      ensures r.Err? <==> index < 0 || index >= numVertices
      ensures r.Err? ==> r.error == OutOfRange
      ensures r.Ok? ==> |r.value| == numVertices && r.value == graph[index]
    {
      if index < 0 || index >= numVertices then Err(OutOfRange) else Ok(graph[index])
    }

    /**
     * The row-major scan of `graph`: a non-zero cell `(i, j)` is listed unless
     * the key `(j, i)` was recorded earlier.
     */
    method Edges() returns (edgeList: seq<Edge>)
      requires Valid()
      ensures edgeList == EdgeList.Edges(graph, numVertices)
    {
      var n := numVertices;
      edgeList := [];
      var uniqueEdges: set<(nat, nat)> := {};
      for i := 0 to n
        invariant edgeList == EdgesOfRows(graph, n, i)
        invariant uniqueEdges == Pairs(edgeList)
      {
        edgeList, uniqueEdges := ScanRow(i, edgeList, uniqueEdges);
      }
    }

    /** The inner loop of `Edges()`: row `i` scanned, growing the list and the key set. */
    method ScanRow(i: nat, front: seq<Edge>, keys: set<(nat, nat)>) returns (edgeList: seq<Edge>, uniqueEdges: set<(nat, nat)>)
      requires Valid() && i < numVertices
      requires front == EdgesOfRows(graph, numVertices, i) && keys == Pairs(front)
      ensures edgeList == EdgesOfRows(graph, numVertices, i + 1) && uniqueEdges == Pairs(edgeList)
    {
      var n := numVertices;
      edgeList, uniqueEdges := front, keys;
      for j := 0 to n
        invariant edgeList == EdgesOfRows(graph, n, i) + RowEdges(graph, n, i, j)
        invariant uniqueEdges == Pairs(edgeList)
      {
        ScanStep(graph, n, i, j);
        if graph[i][j] != 0 {
          if (j, i) !in uniqueEdges {
            PairsOfSnoc(edgeList, (i, j, graph[i][j]));
            edgeList := edgeList + [(i, j, graph[i][j])];
            uniqueEdges := uniqueEdges + {(i, j)};
          }
        }
      }
    }

    /** The length of `Edges()`. */
    method CountEdges() returns (count: nat)
      requires Valid()
      ensures count == |EdgeList.Edges(graph, numVertices)|
    {
      var edgeList := Edges();
      count := |edgeList|;
    }

    /**
     * Binary `+`: `logic_error` on an empty operand, `invalid_argument` when the
     * `adjacencyMatrix` sizes differ, `overflow_error` when a cell of `graph`
     * fails the overflow test; otherwise a graph whose only filled field is
     * `adjacencyMatrix`, the cell-wise sum.
     */
    method Plus(other: Graph) returns (r: Result<Graph>)
      requires Valid() && other.Valid()
      ensures numVertices == 0 || other.numVertices == 0 ==> r == Err(LogicError)
      ensures numVertices != 0 && other.numVertices != 0 && |adjacencyMatrix| != |other.adjacencyMatrix|
        ==> r == Err(InvalidArgument)
      ensures numVertices != 0 && other.numVertices != 0 && |adjacencyMatrix| == |other.adjacencyMatrix|
        ==> (&& Covers(graph, |adjacencyMatrix|) && Covers(other.graph, |adjacencyMatrix|)
             && (r.Ok? <==> !SumOverflows(graph, other.graph, |adjacencyMatrix|))
             && (r.Err? ==> r.error == OverflowError))
      ensures r.Ok? ==> fresh(r.value) && r.value.Valid()
      ensures r.Ok? ==> r.value.numVertices == 0 && r.value.graph == []
      ensures r.Ok? ==> r.value.adjacencyMatrix == Zip(Add, adjacencyMatrix, other.adjacencyMatrix, |adjacencyMatrix|)
    {
      if numVertices == 0 || other.numVertices == 0 {
        return Err(LogicError);
      }
      if |adjacencyMatrix| != |other.adjacencyMatrix| {
        return Err(InvalidArgument);
      }
      var n := |adjacencyMatrix|;
      var sum := FillCheckedSum(adjacencyMatrix, other.adjacencyMatrix, graph, other.graph, n);
      if sum.Err? {
        return Err(sum.error);
      }
      var result := new Graph();
      result.adjacencyMatrix := sum.value;
      return Ok(result);
    }

    /** The loop shared by `+=`, `-=` and graph `*=`: every cell of `graph` combined with `rhs` in place. */
    method ZipAssign(op: BinOp, rhs: seq<seq<int>>)
      requires Valid() && IsGrid(rhs, numVertices)
      modifies this
      ensures Valid() && numVertices == old(numVertices) && adjacencyMatrix == old(adjacencyMatrix)
      ensures graph == Zip(op, old(graph), rhs, numVertices)
    {
      var n := numVertices;
      for i := 0 to n
        invariant Valid() && numVertices == n && adjacencyMatrix == old(adjacencyMatrix)
        invariant forall r, c :: 0 <= r < n && 0 <= c < n ==>
          graph[r][c] == if r < i then ApplyBin(op, old(graph)[r][c], rhs[r][c]) else old(graph)[r][c]
      {
        for j := 0 to n
          invariant Valid() && numVertices == n && adjacencyMatrix == old(adjacencyMatrix)
          invariant forall r, c :: 0 <= r < n && 0 <= c < n ==>
            graph[r][c] == if r < i || (r == i && c < j) then ApplyBin(op, old(graph)[r][c], rhs[r][c])
                           else old(graph)[r][c]
        {
          graph := graph[i := graph[i][j := ApplyBin(op, graph[i][j], rhs[i][j])]];
        }
      }
      GridExtensionality(graph, Zip(op, old(graph), rhs, n), n);
    }

    /** The loop shared by scalar `*=`, `/=`, `++` and `--`: `op` applied to every cell of `graph` in place. */
    method MapAssign(op: UnOp)
      requires Valid() && op.Defined()
      modifies this
      ensures Valid() && numVertices == old(numVertices) && adjacencyMatrix == old(adjacencyMatrix)
      ensures graph == Map(op, old(graph), numVertices)
    {
      var n := numVertices;
      for i := 0 to n
        invariant Valid() && numVertices == n && adjacencyMatrix == old(adjacencyMatrix)
        invariant forall r, c :: 0 <= r < n && 0 <= c < n ==>
          graph[r][c] == if r < i then ApplyUn(op, old(graph)[r][c]) else old(graph)[r][c]
      {
        for j := 0 to n
          invariant Valid() && numVertices == n && adjacencyMatrix == old(adjacencyMatrix)
          invariant forall r, c :: 0 <= r < n && 0 <= c < n ==>
            graph[r][c] == if r < i || (r == i && c < j) then ApplyUn(op, old(graph)[r][c])
                           else old(graph)[r][c]
        {
          graph := graph[i := graph[i][j := ApplyUn(op, graph[i][j])]];
        }
      }
      GridExtensionality(graph, Map(op, old(graph), n), n);
    }

    /**
     * `+=`: `invalid_argument` on unequal `numVertices`, before any change;
     * otherwise every cell of `graph` gets the matching cell of `other` added,
     * with no overflow test. Returns the receiver.
     */
    method PlusAssign(other: Graph) returns (r: Result<Graph>)
      requires Valid() && other.Valid()
      modifies this
      ensures Valid() && numVertices == old(numVertices) && adjacencyMatrix == old(adjacencyMatrix)
      ensures numVertices != old(other.numVertices) ==> r == Err(InvalidArgument) && graph == old(graph)
      ensures numVertices == old(other.numVertices) ==>
        r == Ok(this) && graph == Zip(Add, old(graph), old(other.graph), numVertices)
    {
      if numVertices != other.numVertices {
        return Err(InvalidArgument);
      }
      // `other` may be the receiver itself; the cell (i, j) of `other` is still
      // unchanged when it is read, so reading a snapshot is the same.
      ZipAssign(Add, other.graph);
      return Ok(this);
    }

    /**
     * Binary `-`: `invalid_argument` on unequal `numVertices`; otherwise a graph
     * with `numVertices` copied, `graph` the cell-wise difference and an empty
     * `adjacencyMatrix`.
     */
    method Minus(other: Graph) returns (r: Result<Graph>)
      requires Valid() && other.Valid()
      ensures numVertices != other.numVertices ==> r == Err(InvalidArgument)
      ensures numVertices == other.numVertices ==> r.Ok? && fresh(r.value) && r.value.Valid()
      ensures r.Ok? ==> r.value.numVertices == numVertices && r.value.adjacencyMatrix == []
      ensures r.Ok? ==> r.value.graph == Zip(Sub, graph, other.graph, numVertices)
    {
      if numVertices != other.numVertices {
        return Err(InvalidArgument);
      }
      var result := new Graph();
      result.numVertices := numVertices;
      result.graph := FillZip(Sub, graph, other.graph, numVertices);
      return Ok(result);
    }

    /** `-=`: as `+=`, subtracting. */
    method MinusAssign(other: Graph) returns (r: Result<Graph>)
      requires Valid() && other.Valid()
      modifies this
      ensures Valid() && numVertices == old(numVertices) && adjacencyMatrix == old(adjacencyMatrix)
      ensures numVertices != old(other.numVertices) ==> r == Err(InvalidArgument) && graph == old(graph)
      ensures numVertices == old(other.numVertices) ==>
        r == Ok(this) && graph == Zip(Sub, old(graph), old(other.graph), numVertices)
    {
      if numVertices != other.numVertices {
        return Err(InvalidArgument);
      }
      ZipAssign(Sub, other.graph);
      return Ok(this);
    }

    /**
     * Graph-by-graph `*`: the same empty and size checks as binary `+`, then a
     * graph whose only filled field is `adjacencyMatrix`, the matrix product of
     * the two `adjacencyMatrix` fields.
     */
    method Times(other: Graph) returns (r: Result<Graph>)
      requires Valid() && other.Valid()
      ensures numVertices == 0 || other.numVertices == 0 ==> r == Err(LogicError)
      ensures numVertices != 0 && other.numVertices != 0 && |adjacencyMatrix| != |other.adjacencyMatrix|
        ==> r == Err(InvalidArgument)
      ensures numVertices != 0 && other.numVertices != 0 && |adjacencyMatrix| == |other.adjacencyMatrix|
        ==> r.Ok? && fresh(r.value) && r.value.Valid()
      ensures r.Ok? ==> r.value.numVertices == 0 && r.value.graph == []
      ensures r.Ok? ==> r.value.adjacencyMatrix == MatMul(adjacencyMatrix, other.adjacencyMatrix, |adjacencyMatrix|)
    {
      if numVertices == 0 || other.numVertices == 0 {
        return Err(LogicError);
      }
      if |adjacencyMatrix| != |other.adjacencyMatrix| {
        return Err(InvalidArgument);
      }
      var result := new Graph();
      result.adjacencyMatrix := FillProduct(adjacencyMatrix, other.adjacencyMatrix, |adjacencyMatrix|);
      return Ok(result);
    }

    /**
     * Graph `*=`: only equal `numVertices` is demanded, and the cells of `graph`
     * are multiplied element-wise, not as a matrix product.
     */
    method TimesAssign(other: Graph) returns (r: Result<Graph>)
      requires Valid() && other.Valid()
      modifies this
      ensures Valid() && numVertices == old(numVertices) && adjacencyMatrix == old(adjacencyMatrix)
      ensures numVertices != old(other.numVertices) ==> r == Err(InvalidArgument) && graph == old(graph)
      ensures numVertices == old(other.numVertices) ==>
        r == Ok(this) && graph == Zip(Mul, old(graph), old(other.graph), numVertices)
    {
      if numVertices != other.numVertices {
        return Err(InvalidArgument);
      }
      ZipAssign(Mul, other.graph);
      return Ok(this);
    }

    /** The new-value operators over one graph: `numVertices` copied, `graph` mapped, `adjacencyMatrix` empty. */
    method MapNew(op: UnOp) returns (result: Graph)
      requires Valid() && op.Defined()
      ensures fresh(result) && result.Valid()
      ensures result.numVertices == numVertices && result.adjacencyMatrix == []
      ensures result.graph == Map(op, graph, numVertices)
    {
      result := new Graph();
      result.numVertices := numVertices;
      result.graph := FillMap(op, graph, numVertices);
    }

    /** Scalar `*`: every cell of `graph` multiplied by `scalar`, into a new graph. */
    method Scale(scalar: int) returns (result: Graph)
      requires Valid()
      ensures fresh(result) && result.Valid()
      ensures result.numVertices == numVertices && result.adjacencyMatrix == []
      ensures result.graph == Map(UnOp.Scale(scalar), graph, numVertices)
    {
      result := MapNew(UnOp.Scale(scalar));
    }

    /** Scalar `*=`: every cell of `graph` multiplied in place. Returns the receiver. */
    method ScaleAssign(scalar: int) returns (self: Graph)
      requires Valid()
      modifies this
      ensures Valid() && numVertices == old(numVertices) && adjacencyMatrix == old(adjacencyMatrix)
      ensures graph == Map(UnOp.Scale(scalar), old(graph), numVertices)
      ensures self == this
    {
      MapAssign(UnOp.Scale(scalar));
      return this;
    }

    /**
     * Scalar `/`: `invalid_argument` on 0; otherwise every cell of `graph`
     * divided with truncation toward zero, into a new graph.
     */
    method Divide(scalar: int) returns (r: Result<Graph>)
      requires Valid()
      ensures scalar == 0 ==> r == Err(InvalidArgument)
      ensures scalar != 0 ==> r.Ok? && fresh(r.value) && r.value.Valid()
      ensures r.Ok? ==> r.value.numVertices == numVertices && r.value.adjacencyMatrix == []
      ensures r.Ok? ==> scalar != 0 && r.value.graph == Map(Quotient(scalar), graph, numVertices)
    {
      if scalar == 0 {
        return Err(InvalidArgument);
      }
      var result := MapNew(Quotient(scalar));
      return Ok(result);
    }

    /** Scalar `/=`: `invalid_argument` on 0 before any change; otherwise every cell divided in place. */
    method DivideAssign(scalar: int) returns (r: Result<Graph>)
      requires Valid()
      modifies this
      ensures Valid() && numVertices == old(numVertices) && adjacencyMatrix == old(adjacencyMatrix)
      ensures scalar == 0 ==> r == Err(InvalidArgument) && graph == old(graph)
      ensures scalar != 0 ==> r == Ok(this) && graph == Map(Quotient(scalar), old(graph), numVertices)
    {
      if scalar == 0 {
        return Err(InvalidArgument);
      }
      MapAssign(Quotient(scalar));
      return Ok(this);
    }

    /** `==`: `invalid_argument` on unequal `numVertices`; otherwise cell-wise equality of `graph`. */
    method Equals(other: Graph) returns (r: Result<bool>)
      requires Valid() && other.Valid()
      ensures numVertices != other.numVertices ==> r == Err(InvalidArgument)
      ensures numVertices == other.numVertices ==> r == Ok(AllEqual(graph, other.graph, numVertices))
    {
      if numVertices != other.numVertices {
        return Err(InvalidArgument);
      }
      var n := numVertices;
      for i := 0 to n
        invariant forall a, b :: 0 <= a < i && 0 <= b < n ==> graph[a][b] == other.graph[a][b]
      {
        for j := 0 to n
          invariant forall a, b :: 0 <= a < i && 0 <= b < n ==> graph[a][b] == other.graph[a][b]
          invariant forall b :: 0 <= b < j ==> graph[i][b] == other.graph[i][b]
        {
          if graph[i][j] != other.graph[i][j] {
            return Ok(false);
          }
        }
      }
      return Ok(true);
    }

    /** `!=`: the negation of `==`, with the same failure. */
    method NotEquals(other: Graph) returns (r: Result<bool>)
      requires Valid() && other.Valid()
      ensures numVertices != other.numVertices ==> r == Err(InvalidArgument)
      ensures numVertices == other.numVertices ==> r == Ok(!AllEqual(graph, other.graph, numVertices))
    {
      var eq := Equals(other);
      if eq.Err? {
        return Err(eq.error);
      }
      return Ok(!eq.value);
    }

    /**
     * `<`: `invalid_argument` on unequal `numVertices`; otherwise whether every
     * cell of `graph` is strictly below the matching cell of `other.graph`.
     */
    method Less(other: Graph) returns (r: Result<bool>)
      requires Valid() && other.Valid()
      ensures numVertices != other.numVertices ==> r == Err(InvalidArgument)
      ensures numVertices == other.numVertices ==> r == Ok(AllLess(graph, other.graph, numVertices))
    {
      if numVertices != other.numVertices {
        return Err(InvalidArgument);
      }
      var n := numVertices;
      for i := 0 to n
        invariant forall a, b :: 0 <= a < i && 0 <= b < n ==> graph[a][b] < other.graph[a][b]
      {
        for j := 0 to n
          invariant forall a, b :: 0 <= a < i && 0 <= b < n ==> graph[a][b] < other.graph[a][b]
          invariant forall b :: 0 <= b < j ==> graph[i][b] < other.graph[i][b]
        {
          if graph[i][j] >= other.graph[i][j] {
            return Ok(false);
          }
        }
      }
      return Ok(true);
    }

    /** `<=`: `(a < b) || (a == b)`, not cell-wise `<=`. */
    method LessEq(other: Graph) returns (r: Result<bool>)
      requires Valid() && other.Valid()
      ensures numVertices != other.numVertices ==> r == Err(InvalidArgument)
      ensures numVertices == other.numVertices ==> r == Ok(LessOrEqual(graph, other.graph, numVertices))
    {
      var lt := Less(other);
      if lt.Err? {
        return Err(lt.error);
      }
      if lt.value {
        return Ok(true);
      }
      r := Equals(other);
    }

    /** `>`: the negation of `<=`. */
    method Greater(other: Graph) returns (r: Result<bool>)
      requires Valid() && other.Valid()
      ensures numVertices != other.numVertices ==> r == Err(InvalidArgument)
      ensures numVertices == other.numVertices ==> r == Ok(!LessOrEqual(graph, other.graph, numVertices))
    {
      var le := LessEq(other);
      if le.Err? {
        return Err(le.error);
      }
      return Ok(!le.value);
    }

    /** `>=`: the negation of `<`. */
    method GreaterEq(other: Graph) returns (r: Result<bool>)
      requires Valid() && other.Valid()
      ensures numVertices != other.numVertices ==> r == Err(InvalidArgument)
      ensures numVertices == other.numVertices ==> r == Ok(!AllLess(graph, other.graph, numVertices))
    {
      var lt := Less(other);
      if lt.Err? {
        return Err(lt.error);
      }
      return Ok(!lt.value);
    }

    /** Unary `+`: a copy of all three fields. */
    method UnaryPlus() returns (result: Graph)
      requires Valid()
      ensures fresh(result) && result.Valid()
      ensures result.numVertices == numVertices && result.graph == graph
      ensures result.adjacencyMatrix == adjacencyMatrix
    {
      result := new Graph.Copy(this);
    }

    /** Unary `-`: every cell of `graph` negated, into a new graph. */
    method Negative() returns (result: Graph)
      requires Valid()
      ensures fresh(result) && result.Valid()
      ensures result.numVertices == numVertices && result.adjacencyMatrix == []
      ensures result.graph == Map(Negate, graph, numVertices)
    {
      result := MapNew(Negate);
    }

    /** Prefix `++`: every cell of `graph` incremented in place. Returns the receiver. */
    method PreIncrement() returns (self: Graph)
      requires Valid()
      modifies this
      ensures Valid() && numVertices == old(numVertices) && adjacencyMatrix == old(adjacencyMatrix)
      ensures graph == Map(Increment, old(graph), numVertices)
      ensures self == this
    {
      MapAssign(Increment);
      return this;
    }

    /** Postfix `++`: as prefix `++`, returning a copy of the state before. */
    method PostIncrement() returns (before: Graph)
      requires Valid()
      modifies this
      ensures Valid() && numVertices == old(numVertices) && adjacencyMatrix == old(adjacencyMatrix)
      ensures graph == Map(Increment, old(graph), numVertices)
      ensures fresh(before) && before.Valid()
      ensures before.numVertices == old(numVertices) && before.graph == old(graph)
      ensures before.adjacencyMatrix == old(adjacencyMatrix)
    {
      before := new Graph.Copy(this);
      MapAssign(Increment);
    }

    /** Prefix `--`: every cell of `graph` decremented in place. Returns the receiver. */
    method PreDecrement() returns (self: Graph)
      requires Valid()
      modifies this
      ensures Valid() && numVertices == old(numVertices) && adjacencyMatrix == old(adjacencyMatrix)
      ensures graph == Map(Decrement, old(graph), numVertices)
      ensures self == this
    {
      MapAssign(Decrement);
      return this;
    }

    /** Postfix `--`: as prefix `--`, returning a copy of the state before. */
    method PostDecrement() returns (before: Graph)
      requires Valid()
      modifies this
      ensures Valid() && numVertices == old(numVertices) && adjacencyMatrix == old(adjacencyMatrix)
      ensures graph == Map(Decrement, old(graph), numVertices)
      ensures fresh(before) && before.Valid()
      ensures before.numVertices == old(numVertices) && before.graph == old(graph)
      ensures before.adjacencyMatrix == old(adjacencyMatrix)
    {
      before := new Graph.Copy(this);
      MapAssign(Decrement);
    }

    /** `operator<<`: rows `0 .. numVertices - 1` of `graph` as `[v0 v1 ...]`, separated by newlines. */
    method Write() returns (s: string)
      requires Valid()
      ensures s == Render(graph, " ")
    {
      s := RenderMatrix(graph, " ");
    }

    /**
     * `operator>>`: one row per input line, of the integers that line yields;
     * `invalid_argument` and no change when the rows are not square, otherwise
     * the rows are loaded.
     */
    method Read(input: string) returns (status: Status)
      requires Valid()
      modifies this
      ensures Valid()
      ensures IsSquare(ReadRows(input)) ==> status == Done
      ensures IsSquare(ReadRows(input)) ==>
        numVertices == |ReadRows(input)| && graph == ReadRows(input) && adjacencyMatrix == ReadRows(input)
      ensures !IsSquare(ReadRows(input)) ==> status == Failed(InvalidArgument) && unchanged(this)
    {
      var lines := Lines(input);
      var tempGraph: seq<seq<int>> := [];
      for k := 0 to |lines|
        invariant tempGraph == ReadRows(input)[..k]
        invariant unchanged(this)
      {
        var row := ParseLine(lines[k]);
        tempGraph := tempGraph + [row];
      }
      assert tempGraph == ReadRows(input);
      var square := IsSquareMatrix(tempGraph);
      if !square {
        return Failed(InvalidArgument);
      }
      status := LoadGraph(tempGraph);
    }
  }

  lemma PairsOfSnoc(es: seq<Edge>, e: Edge)
    ensures Pairs(es + [e]) == Pairs(es) + {(e.0, e.1)}
  {
    assert forall x :: x in es + [e] <==> x in es || x == e;
  }

  /**
   * What `operator<<` writes cannot be read back by `operator>>` once there is
   * a vertex: every line starts with `[`, so every row read is empty and the
   * rows are not square. With no vertex both sides are empty.
   */
  lemma WrittenGraphIsNotReadable(g: seq<seq<int>>, n: nat)
    requires IsGrid(g, n)
    ensures IsSquare(ReadRows(Render(g, " "))) <==> n == 0
  {
    ReadRendered(g, " ");
    if n > 0 {
      assert |ReadRows(Render(g, " "))[0]| == 0;
    }
  }
}
