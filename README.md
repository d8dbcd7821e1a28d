# ariel::Graph in Dafny

This project models `ariel::Graph` from `CPP_EX1_24-main/sources/Graph.cpp` and `Graph.hpp`. The class is an integer adjacency matrix with a loader, accessors, an edge list, the arithmetic and comparison operators, two text renderings and a text reader. The model is a Dafny `class Graph` with the same three fields as the C++ class: `numVertices`, `graph` and `adjacencyMatrix`. Every operator is a method that works the way the C++ loop does. Its `ensures` ties the result or the new state to a pure specification (module `Matrix`, `EdgeList` or `Text`), and lemmas prove that specification's properties.

The three fields drift apart, and the model keeps that drift. Only `loadGraph` keeps them in step:

- Binary `+` and graph-by-graph `*` fill only `adjacencyMatrix` in their result.
- Binary and unary `-`, scalar `*` and `/` fill only `graph` and `numVertices`.
- The in-place operators change only `graph`.
- `printGraph`, binary `+` and graph-by-graph `*` read `adjacencyMatrix`, and `+` also tests `graph`. Every other operation reads `graph`.

`Graph.Valid()` is the class invariant, and every method keeps it:

- `graph` is `numVertices` by `numVertices`;
- `adjacencyMatrix` is square;
- when `numVertices` is non-zero and `adjacencyMatrix` is non-empty, the two sizes agree.

That last condition keeps the `graph[i][j]` reads in binary `+`'s overflow test in bounds.

Files:

- `errors.dfy`: the thrown exceptions as an `Error` enum, plus `Result` and `Status`.
- `matrix.dfy`: the cell operations, `INT_MAX`, truncating division, the matrix product and the comparison predicates.
- `edges.dfy`: the edge-list specification.
- `text.dfy`: rendering, `std::getline` as `Lines`, `istream >> int` as `Extract`, and the row parser.
- `graph.dfy`: the class.
- `scenarios.dfy`: the unit-test cases of `Test.cpp`, replayed against the class.

Two behaviours of the reader are worth stating:

- `while (rowStream >> value)` stops at the first token that is not an integer, so the line `"1 x 2"` gives the row `[1]`.
- `istream >> int` accepts a leading `+` as well as a `-`, so the model accepts one sign of either kind before the digits.

## Model

| member | source | states |
|---|---|---|
| `Ariel.Graph.constructor` | CPP_EX1_24-main/sources/Graph.cpp:10 | a new graph has no vertices and two empty matrices, and satisfies the invariant |
| `Ariel.Graph.Copy` | CPP_EX1_24-main/Test.cpp:210-219 | the implicit copy constructor copies all three fields |
| `Ariel.Graph.IsSquareMatrix` | CPP_EX1_24-main/sources/Graph.cpp:91-97 | true exactly when every row is as long as there are rows; the empty matrix qualifies |
| `Ariel.Graph.LoadGraph` | CPP_EX1_24-main/sources/Graph.cpp:13-23 | a square input, 0x0 included, becomes `graph` and `adjacencyMatrix`, with its row count as `numVertices`; a non-square input gives `invalid_argument` and changes nothing |
| `Ariel.Graph.PrintGraph` | CPP_EX1_24-main/sources/Graph.cpp:25-42 | the text is `adjacencyMatrix` rendered as `[v0, v1, ...]` rows joined by newlines, with no trailing newline |
| `Ariel.Graph.GetGraph` | CPP_EX1_24-main/sources/Graph.cpp:46-48 | returns the `graph` field, which is `numVertices` square |
| `Ariel.Graph.Vertices` | CPP_EX1_24-main/sources/Graph.cpp:51-53 | returns `numVertices`, which is the row count of `GetGraph()` |
| `Ariel.Graph.Adj` | CPP_EX1_24-main/sources/Graph.cpp:56-61 | `out_of_range` exactly when `index < 0` or `index >= numVertices`; otherwise row `index` of `graph` |
| `Ariel.Graph.Edges` | CPP_EX1_24-main/sources/Graph.cpp:64-83 | the row-major scan with its key set returns exactly the edge list specified by `EdgeList.Edges` |
| `Ariel.Graph.ScanRow` | CPP_EX1_24-main/sources/Graph.cpp:69-80 | one row of the scan extends the list by that row's kept cells, and the key set stays the list's index pairs |
| `Ariel.Graph.CountEdges` | CPP_EX1_24-main/sources/Graph.cpp:86-88 | the count is the length of the edge list |
| `EdgeList.ScanCriterion` | CPP_EX1_24-main/sources/Graph.cpp:70-78 | at cell `(i, j)` the key `(j, i)` was recorded earlier exactly when `j < i` and `graph[j][i]` is non-zero |
| `EdgeList.EdgesMembership` | CPP_EX1_24-main/sources/Graph.cpp:68-81 | `(i, j, w)` is listed exactly when `graph[i][j] != 0`, `w` is that weight, and not (`j < i` and `graph[j][i] != 0`) |
| `EdgeList.EdgesOrderedWithoutRepeats` | CPP_EX1_24-main/sources/Graph.cpp:64-83 | the list is in strictly increasing row-major order and contains no unordered vertex pair twice |
| `EdgeList.EdgesCoverNonZeroCells` | CPP_EX1_24-main/sources/Graph.cpp:68-81 | every non-zero cell is listed, either itself or as its reverse |
| `EdgeList.SymmetricEdges` | CPP_EX1_24-main/sources/Graph.cpp:64-83 | for a symmetric matrix the list holds exactly the non-zero cells on or above the diagonal |
| `Ariel.FillCheckedSum` | CPP_EX1_24-main/sources/Graph.cpp:106-114 | the sum loop fails with `overflow_error` exactly when some cell of the two `graph` fields fails `a > INT_MAX - b`; otherwise it returns the cell-wise sum of the `adjacencyMatrix` fields |
| `Ariel.Graph.Plus` | CPP_EX1_24-main/sources/Graph.cpp:98-116 | `logic_error` on an empty operand; `invalid_argument` on different `adjacencyMatrix` sizes; `overflow_error` exactly when the test fails on `graph`; otherwise a new graph with 0 vertices, empty `graph` and the summed `adjacencyMatrix` |
| `Ariel.Graph.ZipAssign` | CPP_EX1_24-main/sources/Graph.cpp:124-128 | every cell of `graph` is combined in place with the same cell of the right-hand side; `numVertices` and `adjacencyMatrix` are unchanged |
| `Ariel.Graph.MapAssign` | CPP_EX1_24-main/sources/Graph.cpp:215-219 | every cell of `graph` gets the cell operation in place; `numVertices` and `adjacencyMatrix` are unchanged |
| `Ariel.Graph.PlusAssign` | CPP_EX1_24-main/sources/Graph.cpp:119-131 | `invalid_argument` and no change on unequal `numVertices`; otherwise `graph` gets the cell-wise sum with no overflow test, and the receiver is returned |
| `Ariel.FillZip` | CPP_EX1_24-main/sources/Graph.cpp:140-146 | the resized result is filled with the cell-wise combination of the two operands |
| `Ariel.Graph.Minus` | CPP_EX1_24-main/sources/Graph.cpp:133-149 | `invalid_argument` on unequal `numVertices`; otherwise a new graph with `numVertices` copied, `graph` the cell-wise difference and an empty `adjacencyMatrix` |
| `Ariel.Graph.MinusAssign` | CPP_EX1_24-main/sources/Graph.cpp:151-163 | `invalid_argument` and no change on unequal `numVertices`; otherwise `graph` gets the cell-wise difference in place |
| `Ariel.FillProduct` | CPP_EX1_24-main/sources/Graph.cpp:173-182 | each cell starts at 0 and accumulates `a[i][k] * b[k][j]`, so the result is the matrix product |
| `Ariel.Graph.Times` | CPP_EX1_24-main/sources/Graph.cpp:165-184 | the same empty and size failures as `+`; otherwise a new graph with 0 vertices, empty `graph` and `adjacencyMatrix` the matrix product of the two `adjacencyMatrix` fields |
| `Ariel.Graph.TimesAssign` | CPP_EX1_24-main/sources/Graph.cpp:186-198 | `invalid_argument` and no change on unequal `numVertices`; otherwise `graph` cells are multiplied element-wise in place, not as a matrix product |
| `Ariel.FillMap` | CPP_EX1_24-main/sources/Graph.cpp:203-209 | the resized result is filled with the cell operation applied to each cell |
| `Ariel.Graph.MapNew` | CPP_EX1_24-main/sources/Graph.cpp:309-317 | a new graph with `numVertices` copied, `graph` mapped cell by cell and an empty `adjacencyMatrix` |
| `Ariel.Graph.Scale` | CPP_EX1_24-main/sources/Graph.cpp:200-212 | a new graph whose `graph` is every cell times the scalar, with an empty `adjacencyMatrix` |
| `Ariel.Graph.ScaleAssign` | CPP_EX1_24-main/sources/Graph.cpp:214-222 | every cell of `graph` is multiplied in place, and the receiver is returned |
| `Ariel.Graph.Divide` | CPP_EX1_24-main/sources/Graph.cpp:224-240 | `invalid_argument` on 0; otherwise a new graph whose cells are divided with truncation toward zero |
| `Ariel.Graph.DivideAssign` | CPP_EX1_24-main/sources/Graph.cpp:242-254 | `invalid_argument` and no change on 0; otherwise every cell is divided in place with truncation |
| `Ariel.Graph.Equals` | CPP_EX1_24-main/sources/Graph.cpp:256-270 | `invalid_argument` on unequal `numVertices`; otherwise whether `graph` agrees cell by cell |
| `Ariel.Graph.NotEquals` | CPP_EX1_24-main/sources/Graph.cpp:272-274 | the negation of `==`, with the same failure |
| `Ariel.Graph.Less` | CPP_EX1_24-main/sources/Graph.cpp:276-290 | `invalid_argument` on unequal `numVertices`; otherwise whether every cell is strictly smaller |
| `Ariel.Graph.LessEq` | CPP_EX1_24-main/sources/Graph.cpp:292-294 | `(a < b) or (a == b)`, with the same failure |
| `Ariel.Graph.Greater` | CPP_EX1_24-main/sources/Graph.cpp:296-298 | the negation of `<=` |
| `Ariel.Graph.GreaterEq` | CPP_EX1_24-main/sources/Graph.cpp:300-302 | the negation of `<` |
| `Ariel.Graph.UnaryPlus` | CPP_EX1_24-main/sources/Graph.cpp:304-306 | a new graph with all three fields copied |
| `Ariel.Graph.Negative` | CPP_EX1_24-main/sources/Graph.cpp:308-320 | a new graph whose `graph` is every cell negated, with `numVertices` copied and an empty `adjacencyMatrix` |
| `Ariel.Graph.PreIncrement` | CPP_EX1_24-main/sources/Graph.cpp:322-330 | every cell of `graph` is incremented in place, and the receiver is returned |
| `Ariel.Graph.PostIncrement` | CPP_EX1_24-main/sources/Graph.cpp:332-336 | the same update, returning a copy of all three fields as they were before |
| `Ariel.Graph.PreDecrement` | CPP_EX1_24-main/sources/Graph.cpp:338-346 | every cell of `graph` is decremented in place, and the receiver is returned |
| `Ariel.Graph.PostDecrement` | CPP_EX1_24-main/sources/Graph.cpp:348-352 | the same update, returning a copy of all three fields as they were before |
| `Ariel.Graph.Write` | CPP_EX1_24-main/sources/Graph.cpp:354-369 | `operator<<` writes `graph` as `[v0 v1 ...]` rows joined by newlines, with no trailing newline |
| `Ariel.Graph.Read` | CPP_EX1_24-main/sources/Graph.cpp:371-390 | every line becomes the row of its leading integers; non-square rows give `invalid_argument` and no change, otherwise the rows are loaded into all three fields |
| `Text.IntToString` | CPP_EX1_24-main/sources/Graph.cpp:31 | `os << int` writes a `-` exactly when the value is negative, and the characters after it denote the absolute value |
| `Text.IntToStringCanonical` | CPP_EX1_24-main/sources/Graph.cpp:358 | what `<<` writes for an int is canonical: after the optional `-` come only decimal digits, with no leading zero unless the value is 0 |
| `Text.Lines` | CPP_EX1_24-main/sources/Graph.cpp:374 | the lines successive `getline` calls return: none for empty input, none containing a newline, and rejoined with newlines (plus a final newline if the input had one) they give back the input |
| `Text.Extract` | CPP_EX1_24-main/sources/Graph.cpp:378 | one `rowStream >> value` either fails or consumes at least one character and no more than the input holds |
| `Text.ParseLine` | CPP_EX1_24-main/sources/Graph.cpp:375-380 | the extraction loop over one line collects exactly `LeadingInts(line)` |
| `Text.RenderMatrix` | CPP_EX1_24-main/sources/Graph.cpp:28-40 | the outer rendering loop writes each row and a newline after every row but the last |
| `Text.RenderRow` | CPP_EX1_24-main/sources/Graph.cpp:29-36 | the inner rendering loop writes `[`, the values separated by the separator, then `]` |
| `Text.DigitsOfNat` | CPP_EX1_24-main/sources/Graph.cpp:358 | the decimal digits `<<` writes for a natural number denote that number |
| `Text.ExtractRendered` | CPP_EX1_24-main/sources/Graph.cpp:378 | `>>` on a written int followed by a non-digit reads that int, consuming exactly its characters |
| `Text.LeadingIntsAfterSpace` | CPP_EX1_24-main/sources/Graph.cpp:378 | `>>` skips leading whitespace: `" " + t` yields the same integers as `t` |
| `Text.ReadSpaced` | CPP_EX1_24-main/sources/Graph.cpp:376-380 | a row written with single spaces between its integers is read back exactly |
| `Text.LinesOfJoin` | CPP_EX1_24-main/sources/Graph.cpp:374 | `getline` recovers non-empty newline-free pieces from their newline join |
| `Text.ReadPlainText` | CPP_EX1_24-main/sources/Graph.cpp:371-388 | a square matrix written as plain space-separated lines is read back unchanged |
| `Text.BracketFails` | CPP_EX1_24-main/sources/Graph.cpp:378 | `>>` fails at once on a line that starts with `[`, so such a line yields no integers |
| `Text.LinesOfRendered` | CPP_EX1_24-main/sources/Graph.cpp:374 | `getline` splits rendered output back into exactly its bracketed rows |
| `Text.ReadRendered` | CPP_EX1_24-main/sources/Graph.cpp:371-381 | every line of bracketed output reads as an empty row |
| `Ariel.WrittenGraphIsNotReadable` | CPP_EX1_24-main/sources/Graph.cpp:354-390 | what `<<` writes reads back as a square matrix exactly when there are no vertices, so the two operators do not round-trip |
| `Matrix.TruncDiv` | CPP_EX1_24-main/sources/Graph.cpp:235 | C++ `/` on int: the remainder it leaves is smaller than the divisor in magnitude and has the sign of the dividend, which fixes the quotient as truncated toward zero |
| `Matrix.TruncDivOfMultiple` | CPP_EX1_24-main/sources/Graph.cpp:235 | truncating division of `x * k` by `k` gives back `x` |
| `Matrix.QuotientUndoesScale` | CPP_EX1_24-main/sources/Graph.cpp:200-240 | scalar `/ k` undoes scalar `* k` for every non-zero `k` |
| `Matrix.SubUndoesAdd` | CPP_EX1_24-main/sources/Graph.cpp:119-163 | `-=` undoes `+=` with the same right-hand graph |
| `Matrix.DecrementUndoesIncrement` | CPP_EX1_24-main/sources/Graph.cpp:322-346 | `--` undoes `++` |
| `Matrix.NegateInvolution` | CPP_EX1_24-main/sources/Graph.cpp:308-320 | unary `-` applied twice gives back the matrix |
| `Matrix.IdentityTimes` | CPP_EX1_24-main/sources/Graph.cpp:175-182 | the identity matrix is a left unit of the matrix product |
| `Matrix.AllEqualIsEquality` | CPP_EX1_24-main/sources/Graph.cpp:261-269 | the cell-wise test of `==` holds exactly when the two matrices are equal |
| `Matrix.AllLessIsStrict` | CPP_EX1_24-main/sources/Graph.cpp:281-289 | with at least one vertex, `<` excludes `==` and is asymmetric |
| `Matrix.ComparisonsOfEmpty` | CPP_EX1_24-main/sources/Graph.cpp:256-302 | at 0 vertices `<`, `==` and `<=` hold in both directions, so `>=` (not `<`) and `>` (not `<=`) are false even for equal graphs |
| `Matrix.LessOrEqualIsStronger` | CPP_EX1_24-main/sources/Graph.cpp:292-294 | `<=` implies cell-wise `<=`, and a concrete pair that is cell-wise `<=` gives `<=` false |
| `Scenarios.AdditionScenario` | CPP_EX1_24-main/Test.cpp:11-31 | `g1 + g2` prints `[0, 2, 1]\n[2, 0, 3]\n[1, 3, 0]`, and the sum reports 0 vertices |
| `Scenarios.MultiplicationScenario` | CPP_EX1_24-main/Test.cpp:33-51 | `g1 * g2` prints `[1, 0, 2]\n[1, 3, 1]\n[1, 0, 2]` |
| `Scenarios.SizeMismatchScenario` | CPP_EX1_24-main/Test.cpp:55-76 | `*` and `+` of a 5-vertex and a 3-vertex graph both give `invalid_argument` |
| `Scenarios.EmptyGraphScenario` | CPP_EX1_24-main/Test.cpp:101-109 | the empty graph has 0 vertices, and `adj(0)`, `g + g` and `g * g` fail |
| `Scenarios.EmptyComparisonsScenario` | CPP_EX1_24-main/sources/Graph.cpp:256-302 | an empty graph compared with itself: `<`, `==` and `<=` give true, `>` and `>=` give false |
| `Scenarios.SingleVertexScenario` | CPP_EX1_24-main/Test.cpp:111-118 | one vertex, `adj(0)` succeeds, and it prints `[0]` |
| `Scenarios.MaximumWeightsScenario` | CPP_EX1_24-main/Test.cpp:120-129 | with `INT_MAX` weights, `+` gives `overflow_error` and `*` succeeds |
| `Scenarios.ZeroWeightsScenario` | CPP_EX1_24-main/Test.cpp:142-150 | zero weights print as `[0, 0]\n[0, 0]`, and `+` and `*` with a copy succeed |
| `Scenarios.InvalidArgumentScenario` | CPP_EX1_24-main/Test.cpp:151-172 | division by 0, subtraction of unequal sizes and loading a 3 by 2 matrix give `invalid_argument` |
| `Scenarios.InvalidIndexScenario` | CPP_EX1_24-main/Test.cpp:175-180 | `adj(2)` on two vertices gives `out_of_range` |
| `Scenarios.FullyConnectedScenario` | CPP_EX1_24-main/Test.cpp:181-191 | the complete graph on 3 vertices added to itself prints `[0, 2, 2]\n[2, 0, 2]\n[2, 2, 0]` |
| `Scenarios.InputOutputScenario` | CPP_EX1_24-main/Test.cpp:200-208 | reading `"0 1\n1 0"` and writing the graph gives `[0 1]\n[1 0]` |
| `Scenarios.BracketedRowIsUnreadable` | CPP_EX1_24-main/sources/Graph.cpp:378-380 | the line `[0 1]` yields an empty row |
| `Scenarios.DivisionTruncates` | CPP_EX1_24-main/sources/Graph.cpp:235 | `-7 / 2` is `-3` in C++, while Dafny's Euclidean `/` gives `-4`; `7 / -2` is `-3` |
| `Scenarios.PathEdges` | CPP_EX1_24-main/sources/Graph.cpp:64-83 | the path 0-1-2 has the two edges `(0, 1, 1)` and `(1, 2, 1)`, each once |

## Left out

- Every arithmetic operator works on mathematical integers. The C++ `int` wraps around or has undefined behaviour on overflow, and the model does not reproduce that. This covers `+=` and `-=` sums, `*` and `*=` products, `++` at `INT_MAX`, `INT_MIN / -1`, and `INT_MAX - b` for a negative `b` inside `+`'s test. The test itself is kept literally, with `INT_MAX` = 2147483647.
- Ariel.Graph.Plus: when the test fails, the C++ code has already written the sum of that cell and of the cells before it into a result that is then discarded. The model returns the error without that partial result.
- Stream plumbing is replaced by strings: `printGraph`, `<<` and `>>` work on `string` values, and `std::endl` becomes a plain `"\n"`. The stream state is not modelled: failbit, eofbit and flushing.
- `istream >> int` is modelled as a simple grammar: leading whitespace, one optional `+` or `-`, and a maximal run of digits. A value outside the `int` range sets failbit in C++; the model reads it as a mathematical integer. Locales are not modelled, and the whitespace characters are those of the "C" locale.
- `std::getline` is modelled as `Text.Lines`. A final newline does not start an extra empty line. A `\r` stays inside the line.
- The exception class hierarchy becomes the `Error` enum, and a thrown exception becomes an `Err` or `Failed` result.
- The `"i-j"` string keys of `edges()` are modelled as index pairs. The string keys are injective, so the set lookups agree.
- Ariel.Graph.CountEdges: the C++ function returns `int`, a narrowing of `size_t`. The model returns the length as a `nat`.
- The in-place operators read the right-hand graph through a snapshot taken before the loop. For `g += g` this matches the C++ code, because each cell of `other` is read before it is overwritten. Aliasing in general is not modelled.
- `sources/Algorithms.hpp` and the doctest harness included by `Test.cpp` are not part of this model.
- Three `Test.cpp` cases are left out. Each `printGraph` string with `to_string(INT_MAX)` is left out, because it would need a ten-digit rendering proof. The 100-vertex case is left out, because it is only a bigger instance of the addition and product cases. The assignment `g3 = g1` is left out because it behaves like the copy constructor.
