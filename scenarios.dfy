/**
 * The cases of the repository's unit tests, replayed against the model:
 * each method drives a `Graph` as the test does and states what the test
 * expects; the lemmas beside them work out the concrete values.
 */
module Scenarios {
  import opened Errors
  import opened Matrix
  import opened EdgeList
  import opened Text
  import opened Ariel

  /** The operands of the addition and multiplication cases, their sum and their product. */
  const Path: seq<seq<int>> := [[0, 1, 0], [1, 0, 1], [0, 1, 0]]
  const Weighted: seq<seq<int>> := [[0, 1, 1], [1, 0, 2], [1, 2, 0]]
  const PathPlusWeighted: seq<seq<int>> := [[0, 2, 1], [2, 0, 3], [1, 3, 0]]
  const PathTimesWeighted: seq<seq<int>> := [[1, 0, 2], [1, 3, 1], [1, 0, 2]]

  lemma JoinOfTwo(x: string, y: string, sep: string)
    ensures Join([x, y], sep) == x + sep + y
  {
    assert [x, y][..1] == [x];
  }

  lemma JoinOfThree(x: string, y: string, z: string, sep: string)
    ensures Join([x, y, z], sep) == x + sep + y + sep + z
  {
    assert [x, y, z][..2] == [x, y];
    JoinOfTwo(x, y, sep);
  }

  lemma BracketedOfTwo(a: int, b: int, sep: string)
    ensures Bracketed([a, b], sep) == "[" + IntToString(a) + sep + IntToString(b) + "]"
  {
    var x, y := IntToString(a), IntToString(b);
    assert IntStrings([a, b]) == [x, y];
    JoinOfTwo(x, y, sep);
    BracketsOfThree(x, sep, y);
  }

  lemma BracketedOfThree(a: int, b: int, c: int, sep: string)
    ensures Bracketed([a, b, c], sep) == "[" + IntToString(a) + sep + IntToString(b) + sep + IntToString(c) + "]"
  {
    var x, y, z := IntToString(a), IntToString(b), IntToString(c);
    assert IntStrings([a, b, c]) == [x, y, z];
    JoinOfThree(x, y, z, sep);
    BracketsOfFive(x, sep, y, sep, z);
  }

  /** Brackets around a concatenation of three pieces, regrouped. */
  lemma BracketsOfThree(x: string, y: string, z: string)
    ensures "[" + (x + y + z) + "]" == "[" + x + y + z + "]"
  {
  }

  /** Brackets around a concatenation of five pieces, regrouped. */
  lemma BracketsOfFive(x: string, y: string, z: string, u: string, v: string)
    ensures "[" + (x + y + z + u + v) + "]" == "[" + x + y + z + u + v + "]"
  {
  }

  lemma RenderOfTwo(m: seq<seq<int>>, sep: string)
    requires |m| == 2
    ensures Render(m, sep) == Bracketed(m[0], sep) + "\n" + Bracketed(m[1], sep)
  {
    assert seq(2, i requires 0 <= i < 2 => Bracketed(m[i], sep)) == [Bracketed(m[0], sep), Bracketed(m[1], sep)];
    JoinOfTwo(Bracketed(m[0], sep), Bracketed(m[1], sep), "\n");
  }

  lemma RenderOfThree(m: seq<seq<int>>, sep: string)
    requires |m| == 3
    ensures Render(m, sep) == Bracketed(m[0], sep) + "\n" + Bracketed(m[1], sep) + "\n" + Bracketed(m[2], sep)
  {
    var rows := [Bracketed(m[0], sep), Bracketed(m[1], sep), Bracketed(m[2], sep)];
    assert seq(3, i requires 0 <= i < 3 => Bracketed(m[i], sep)) == rows;
    JoinOfThree(rows[0], rows[1], rows[2], "\n");
  }

  /** A row of three one-digit weights, as `printGraph` writes it. */
  lemma DigitRow(a: nat, b: nat, c: nat)
    requires a < 10 && b < 10 && c < 10
    ensures Bracketed([a, b, c], ", ") == ['[', DigitChar(a), ',', ' ', DigitChar(b), ',', ' ', DigitChar(c), ']']
  {
    assert IntToString(a) == [DigitChar(a)] && IntToString(b) == [DigitChar(b)] && IntToString(c) == [DigitChar(c)];
    BracketedOfThree(a, b, c, ", ");
  }

  lemma SmallDigits()
    ensures IntToString(0) == "0" && IntToString(1) == "1" && IntToString(2) == "2" && IntToString(3) == "3"
  {
  }

  lemma AdditionCells()
    ensures Zip(Add, Path, Weighted, 3) == PathPlusWeighted
    ensures !SumOverflows(Path, Weighted, 3)
  {
    GridExtensionality(Zip(Add, Path, Weighted, 3), PathPlusWeighted, 3);
  }

  lemma AdditionRows()
    ensures Bracketed(PathPlusWeighted[0], ", ") == "[0, 2, 1]"
    ensures Bracketed(PathPlusWeighted[1], ", ") == "[2, 0, 3]"
    ensures Bracketed(PathPlusWeighted[2], ", ") == "[1, 3, 0]"
  {
    assert Bracketed(PathPlusWeighted[0], ", ") == "[0, 2, 1]" by { DigitRow(0, 2, 1); }
    assert Bracketed(PathPlusWeighted[1], ", ") == "[2, 0, 3]" by { DigitRow(2, 0, 3); }
    assert Bracketed(PathPlusWeighted[2], ", ") == "[1, 3, 0]" by { DigitRow(1, 3, 0); }
  }

  lemma AdditionPrinted()
    ensures Render(PathPlusWeighted, ", ") == "[0, 2, 1]\n[2, 0, 3]\n[1, 3, 0]"
  {
    AdditionRows();
    RenderOfThree(PathPlusWeighted, ", ");
  }

  /** `g1 + g2` prints the cell-wise sum, and the sum graph reports no vertices. */
  method AdditionScenario() returns (printed: string, vertices: nat)
    ensures printed == "[0, 2, 1]\n[2, 0, 3]\n[1, 3, 0]" && vertices == 0
  {
    var g1 := new Graph();
    var s1 := g1.LoadGraph(Path);
    var g2 := new Graph();
    var s2 := g2.LoadGraph(Weighted);
    AdditionCells();
    AdditionPrinted();
    var sum := g1.Plus(g2);
    assert sum.Ok?;
    printed := sum.value.PrintGraph();
    vertices := sum.value.Vertices();
  }

  lemma MultiplicationCells()
    ensures MatMul(Path, Weighted, 3) == PathTimesWeighted
  {
    GridExtensionality(MatMul(Path, Weighted, 3), PathTimesWeighted, 3);
  }

  lemma MultiplicationRows()
    ensures Bracketed(PathTimesWeighted[0], ", ") == "[1, 0, 2]"
    ensures Bracketed(PathTimesWeighted[1], ", ") == "[1, 3, 1]"
    ensures Bracketed(PathTimesWeighted[2], ", ") == "[1, 0, 2]"
  {
    assert Bracketed(PathTimesWeighted[0], ", ") == "[1, 0, 2]" by { DigitRow(1, 0, 2); }
    assert Bracketed(PathTimesWeighted[1], ", ") == "[1, 3, 1]" by { DigitRow(1, 3, 1); }
    assert Bracketed(PathTimesWeighted[2], ", ") == "[1, 0, 2]" by { DigitRow(1, 0, 2); }
  }

  lemma MultiplicationPrinted()
    ensures Render(PathTimesWeighted, ", ") == "[1, 0, 2]\n[1, 3, 1]\n[1, 0, 2]"
  {
    MultiplicationRows();
    RenderOfThree(PathTimesWeighted, ", ");
  }

  /** `g1 * g2` prints the matrix product. */
  method MultiplicationScenario() returns (printed: string)
    ensures printed == "[1, 0, 2]\n[1, 3, 1]\n[1, 0, 2]"
  {
    var g1 := new Graph();
    var s1 := g1.LoadGraph(Path);
    var g2 := new Graph();
    var s2 := g2.LoadGraph(Weighted);
    MultiplicationCells();
    MultiplicationPrinted();
    var product := g1.Times(g2);
    printed := product.value.PrintGraph();
  }

  /** Operands of different sizes: `g5 * g1` and `g1 + g6` both throw `invalid_argument`. */
  method SizeMismatchScenario() returns (product: Result<Graph>, sum: Result<Graph>)
    ensures product == Err(InvalidArgument) && sum == Err(InvalidArgument)
  {
    var ring := [[0, 1, 0, 0, 1], [1, 0, 1, 0, 0], [0, 1, 0, 1, 0], [0, 0, 1, 0, 1], [1, 0, 0, 1, 0]];
    assert IsSquare(ring) by {
      assert |ring[0]| == |ring[1]| == |ring[2]| == |ring[3]| == |ring[4]| == 5;
    }
    var g1 := new Graph();
    var s1 := g1.LoadGraph(Path);
    var g5 := new Graph();
    var s5 := g5.LoadGraph(ring);
    product := g5.Times(g1);
    var g6 := new Graph();
    var s6 := g6.LoadGraph(ring);
    sum := g1.Plus(g6);
  }

  /** The complete graph on three vertices. */
  const Complete: seq<seq<int>> := [[0, 1, 1], [1, 0, 1], [1, 1, 0]]
  const CompleteDoubled: seq<seq<int>> := [[0, 2, 2], [2, 0, 2], [2, 2, 0]]

  lemma DoublingCells()
    ensures Zip(Add, Complete, Complete, 3) == CompleteDoubled
    ensures !SumOverflows(Complete, Complete, 3)
  {
    GridExtensionality(Zip(Add, Complete, Complete, 3), CompleteDoubled, 3);
  }

  lemma DoublingRows()
    ensures Bracketed(CompleteDoubled[0], ", ") == "[0, 2, 2]"
    ensures Bracketed(CompleteDoubled[1], ", ") == "[2, 0, 2]"
    ensures Bracketed(CompleteDoubled[2], ", ") == "[2, 2, 0]"
  {
    assert Bracketed(CompleteDoubled[0], ", ") == "[0, 2, 2]" by { DigitRow(0, 2, 2); }
    assert Bracketed(CompleteDoubled[1], ", ") == "[2, 0, 2]" by { DigitRow(2, 0, 2); }
    assert Bracketed(CompleteDoubled[2], ", ") == "[2, 2, 0]" by { DigitRow(2, 2, 0); }
  }

  lemma DoublingPrinted()
    ensures Render(CompleteDoubled, ", ") == "[0, 2, 2]\n[2, 0, 2]\n[2, 2, 0]"
  {
    DoublingRows();
    RenderOfThree(CompleteDoubled, ", ");
  }

  /** A complete graph added to itself doubles every edge weight. */
  method FullyConnectedScenario() returns (printed: string)
    ensures printed == "[0, 2, 2]\n[2, 0, 2]\n[2, 2, 0]"
  {
    var g := new Graph();
    var s := g.LoadGraph(Complete);
    DoublingCells();
    DoublingPrinted();
    var sum := g.Plus(g);
    assert sum.Ok?;
    printed := sum.value.PrintGraph();
  }

  /** A graph of zero weights prints as zeros, and `+` and `*` with its copy do not throw. */
  method ZeroWeightsScenario() returns (printed: string, sum: Result<Graph>, product: Result<Graph>)
    ensures printed == "[0, 0]\n[0, 0]" && sum.Ok? && product.Ok?
  {
    var zeros := [[0, 0], [0, 0]];
    var g := new Graph();
    var s := g.LoadGraph(zeros);
    printed := g.PrintGraph();
    assert printed == "[0, 0]\n[0, 0]" by {
      SmallDigits();
      BracketedOfTwo(0, 0, ", ");
      RenderOfTwo(zeros, ", ");
    }
    var g2 := new Graph.Copy(g);
    assert !SumOverflows(g.graph, g2.graph, 2);
    sum := g.Plus(g2);
    product := g.Times(g2);
  }

  /** Adding a graph with `INT_MAX` weights to its copy throws; multiplying them does not. */
  method MaximumWeightsScenario() returns (sum: Result<Graph>, product: Result<Graph>)
    ensures sum == Err(OverflowError) && product.Ok?
  {
    var g := new Graph();
    var s := g.LoadGraph([[0, INT_MAX], [INT_MAX, 0]]);
    var g2 := new Graph.Copy(g);
    assert g.graph[0][1] > INT_MAX - g2.graph[0][1];
    sum := g.Plus(g2);
    product := g.Times(g2);
  }

  /** The empty graph has no vertices, and `adj(0)`, `g + g` and `g * g` all throw. */
  method EmptyGraphScenario() returns (vertices: nat, adj: Result<seq<int>>, sum: Result<Graph>, product: Result<Graph>)
    ensures vertices == 0
    ensures adj == Err(OutOfRange) && sum == Err(LogicError) && product == Err(LogicError)
  {
    var g := new Graph();
    var s := g.LoadGraph([]);
    vertices := g.Vertices();
    adj := g.Adj(0);
    sum := g.Plus(g);
    product := g.Times(g);
  }

  /** An empty graph compared with itself: `<`, `==` and `<=` hold, `>` and `>=` do not. */
  method EmptyComparisonsScenario() returns (less: Result<bool>, equal: Result<bool>, lessEq: Result<bool>,
                                             greater: Result<bool>, greaterEq: Result<bool>)
    ensures less == Ok(true) && equal == Ok(true) && lessEq == Ok(true)
    ensures greater == Ok(false) && greaterEq == Ok(false)
  {
    var g := new Graph();
    var s := g.LoadGraph([]);
    ComparisonsOfEmpty(g.graph, g.graph);
    less := g.Less(g);
    equal := g.Equals(g);
    lessEq := g.LessEq(g);
    greater := g.Greater(g);
    greaterEq := g.GreaterEq(g);
  }

  /** A single vertex: one vertex, `adj(0)` succeeds, and it prints as `[0]`. */
  method SingleVertexScenario() returns (vertices: nat, adj: Result<seq<int>>, printed: string)
    ensures vertices == 1 && adj == Ok([0]) && printed == "[0]"
  {
    var g := new Graph();
    var s := g.LoadGraph([[0]]);
    vertices := g.Vertices();
    adj := g.Adj(0);
    printed := g.PrintGraph();
    assert IntStrings([0]) == ["0"];
    assert Bracketed([0], ", ") == "[0]";
    assert seq(1, i requires 0 <= i < 1 => Bracketed([[0]][i], ", ")) == ["[0]"];
  }

  /** Division by zero, subtraction of unequal sizes and a 3 by 2 load all throw `invalid_argument`. */
  method InvalidArgumentScenario() returns (quotient: Result<Graph>, difference: Result<Graph>, load: Status)
    ensures quotient == Err(InvalidArgument) && difference == Err(InvalidArgument)
    ensures load == Failed(InvalidArgument)
  {
    var g := new Graph();
    var s := g.LoadGraph([[2, 4], [6, 8]]);
    quotient := g.Divide(0);
    var g1 := new Graph();
    s := g1.LoadGraph([[0, 1], [1, 0]]);
    var g2 := new Graph();
    s := g2.LoadGraph(Weighted);
    difference := g1.Minus(g2);
    var g3 := new Graph();
    var nonSquare := [[1, 2], [3, 4], [5, 6]];
    assert |nonSquare[0]| != |nonSquare|;
    load := g3.LoadGraph(nonSquare);
  }

  /** Index 2 of a two-vertex graph is out of range. */
  method InvalidIndexScenario() returns (adj: Result<seq<int>>)
    ensures adj == Err(OutOfRange)
  {
    var g := new Graph();
    var s := g.LoadGraph([[0, 1], [1, 0]]);
    adj := g.Adj(2);
  }

  lemma TwoVertexText()
    ensures PlainText([[0, 1], [1, 0]]) == "0 1\n1 0"
    ensures Render([[0, 1], [1, 0]], " ") == "[0 1]\n[1 0]"
  {
    var m := [[0, 1], [1, 0]];
    SmallDigits();
    assert IntStrings(m[0]) == ["0", "1"] && IntStrings(m[1]) == ["1", "0"];
    JoinOfTwo("0", "1", " ");
    JoinOfTwo("1", "0", " ");
    assert Join(IntStrings(m[0]), " ") == "0 1" && Join(IntStrings(m[1]), " ") == "1 0";
    assert seq(2, i requires 0 <= i < 2 => Join(IntStrings(m[i]), " ")) == ["0 1", "1 0"];
    JoinOfTwo("0 1", "1 0", "\n");
    BracketedOfTwo(0, 1, " ");
    BracketedOfTwo(1, 0, " ");
    RenderOfTwo(m, " ");
  }

  /** Reading `"0 1\n1 0"` and writing the graph back gives the bracketed form. */
  method InputOutputScenario() returns (written: string)
    ensures written == "[0 1]\n[1 0]"
  {
    var m := [[0, 1], [1, 0]];
    assert ReadRows("0 1\n1 0") == m && IsSquare(m) && Render(m, " ") == "[0 1]\n[1 0]" by {
      TwoVertexText();
      ReadPlainText(m);
    }
    var g := new Graph();
    var s := g.Read("0 1\n1 0");
    written := g.Write();
  }

  /** The bracketed output of `<<` reads back as an empty row. */
  lemma BracketedRowIsUnreadable()
    ensures LeadingInts("[0 1]") == []
  {
    BracketFails("[0 1]");
  }

  /** Scalar division truncates toward zero, unlike Dafny's own `/`. */
  lemma DivisionTruncates()
    ensures TruncDiv(-7, 2) == -3 && -7 / 2 == -4
    ensures TruncDiv(7, -2) == -3
  {
  }

  /** A path 0 - 1 - 2 has two edges, each listed once. */
  lemma PathEdges()
    ensures Edges(Path, 3) == [(0, 1, 1), (1, 2, 1)]
  {
  }
}
