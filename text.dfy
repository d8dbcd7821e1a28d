/**
 * The text side of `ariel::Graph`: how an int and a matrix are rendered,
 * how `std::getline` cuts a stream into lines, and how `istream >> int`
 * reads the leading integers of a line.
 */
module Text {
  import opened Matrix

  datatype Option<+T> = None | Some(value: T)

  predicate IsDigit(c: char) { '0' <= c <= '9' }

  /** The characters `std::isspace` accepts in the "C" locale. */
  predicate IsSpace(c: char) {
    c == ' ' || c == '\t' || c == '\n' || c == '\r' || c == '\U{000B}' || c == '\U{000C}'
  }

  predicate AllDigits(s: string) {
    forall k :: 0 <= k < |s| ==> IsDigit(s[k])
  }

  predicate NoNewline(s: string) {
    forall k :: 0 <= k < |s| ==> s[k] != '\n'
  }

  function DigitChar(d: nat): (c: char)
    requires d < 10
    ensures IsDigit(c)
  {
    "0123456789"[d]
  }

  function DigitValue(c: char): int {
    (c as int) - ('0' as int)
  }

  /** The decimal digits of `n`, most significant first, without leading zeros. */
  function NatToString(n: nat): (s: string)
    ensures |s| > 0 && AllDigits(s)
  {
    if n < 10 then [DigitChar(n)] else NatToString(n / 10) + [DigitChar(n % 10)]
  }

  /**
   * `os << v` for an int: a `-` exactly when `v` is negative, then the
   * decimal digits of `|v|`.
   */
  function IntToString(x: int): (s: string)
    ensures |s| > 0 && (s[0] == '-' <==> x < 0)
    ensures DigitsValue(if x < 0 then s[1..] else s) == Abs(x)
  {
    var n: nat := Abs(x);
    DigitsOfNat(n);
    if x < 0 then "-" + NatToString(n) else NatToString(n)
  }

  /**
   * What `os << v` writes is canonical: after the optional `-` come only
   * decimal digits, with no leading zero unless `v` is 0.
   */
  lemma IntToStringCanonical(x: int)
    ensures var s := IntToString(x);
            var digits := if x < 0 then s[1..] else s;
            |digits| > 0 && AllDigits(digits) && (digits[0] == '0' ==> x == 0)
  {
    var n: nat := Abs(x);
    NoLeadingZero(n);
    var digits := NatToString(n);
    if x < 0 {
      assert IntToString(x) == "-" + digits;
      assert ("-" + digits)[1..] == digits;
    } else {
      assert IntToString(x) == digits;
    }
  }

  /** The digits of `n` start with `0` only for `n == 0` itself. */
  lemma {:induction false} NoLeadingZero(n: nat)
    ensures NatToString(n)[0] == '0' ==> n == 0
  {
    if n >= 10 {
      NoLeadingZero(n / 10);
    }
  }

  /** `pieces` with `sep` between consecutive ones. */
  function Join(pieces: seq<string>, sep: string): string {
    if |pieces| == 0 then ""
    else if |pieces| == 1 then pieces[0]
    else Join(pieces[..|pieces| - 1], sep) + sep + pieces[|pieces| - 1]
  }

  function IntStrings(row: seq<int>): seq<string> {
    seq(|row|, k requires 0 <= k < |row| => IntToString(row[k]))
  }

  /** One row as the renderers print it: `[v0<sep>v1<sep>...]`. */
  function Bracketed(row: seq<int>, sep: string): string {
    "[" + Join(IntStrings(row), sep) + "]"
  }

  /** Every row bracketed, rows separated by a newline, no newline after the last. */
  function Render(m: seq<seq<int>>, sep: string): string {
    Join(seq(|m|, i requires 0 <= i < |m| => Bracketed(m[i], sep)), "\n")
  }

  /** The rows written as whitespace-separated integers, one line per row. */
  function PlainText(m: seq<seq<int>>): string {
    Join(seq(|m|, i requires 0 <= i < |m| => Join(IntStrings(m[i]), " ")), "\n")
  }

  /** The length of the first line of `s`: the position of its first newline, else `|s|`. */
  function LineLength(s: string): (k: nat)
    ensures k <= |s| && NoNewline(s[..k]) && (k < |s| ==> s[k] == '\n')
  {
    if s == [] || s[0] == '\n' then 0
    else
      var k := 1 + LineLength(s[1..]);
      assert s[..k] == [s[0]] + s[1..][..k - 1];
      k
  }

  /**
   * The lines that successive `std::getline` calls extract: newline-separated
   * pieces, where a final newline does not start one more (empty) line.
   */
  function Lines(s: string): (r: seq<string>)
    ensures |r| == 0 <==> s == []
    ensures forall k :: 0 <= k < |r| ==> NoNewline(r[k])
    ensures Join(r, "\n") + Terminator(s) == s
    decreases |s|
  {
    if s == [] then []
    else
      var k := LineLength(s);
      if k == |s| then
        assert s[..k] == s;
        [s]
      else
        LinesStep(s, k, Lines(s[k + 1..]));
        [s[..k]] + Lines(s[k + 1..])
  }

  /** The newline that ends `s`, if any: what joining its lines leaves out. */
  function Terminator(s: string): string {
    if s != [] && s[|s| - 1] == '\n' then "\n" else ""
  }

  /** One step of `Lines`: the first line, its newline and the rest rejoin to `s`. */
  lemma LinesStep(s: string, k: nat, rest: seq<string>)
    requires k < |s| && s[k] == '\n'
    requires |rest| == 0 <==> s[k + 1..] == []
    requires Join(rest, "\n") + Terminator(s[k + 1..]) == s[k + 1..]
    ensures Join([s[..k]] + rest, "\n") + Terminator(s) == s
  {
    var line, tail := s[..k], s[k + 1..];
    SplitAtNewline(s, k);
    if rest == [] {
      assert [line] + rest == [line];
    } else {
      JoinCons(line, rest, "\n");
      Regroup(line + "\n", Join(rest, "\n"), Terminator(tail), tail);
    }
  }

  /** `s` is its first line, the newline and the rest; its terminator is the rest's, if any. */
  lemma SplitAtNewline(s: string, k: nat)
    requires k < |s| && s[k] == '\n'
    ensures s == s[..k] + "\n" + s[k + 1..]
    ensures Terminator(s) == if k + 1 == |s| then "\n" else Terminator(s[k + 1..])
  {
    assert s == s[..k] + [s[k]] + s[k + 1..];
    if k + 1 < |s| {
      assert s[|s| - 1] == s[k + 1..][|s| - k - 2];
    }
  }

  lemma Regroup(a: string, joined: string, term: string, tail: string)
    requires joined + term == tail
    ensures a + joined + term == a + tail
  {
    AppendAssociates(a, joined, term);
  }


  /** The length of the run of digits that starts `s`. */
  function DigitRun(s: string): (k: nat)
    ensures k <= |s|
  {
    if s == [] || !IsDigit(s[0]) then 0 else 1 + DigitRun(s[1..])
  }

  /** The number a string of decimal digits denotes. */
  function DigitsValue(d: string): int {
    if d == [] then 0 else 10 * DigitsValue(d[..|d| - 1]) + DigitValue(d[|d| - 1])
  }

  /**
   * One `istream >> int` at a position with no leading whitespace: an optional
   * sign and a maximal run of at least one digit; the value and the number of
   * characters consumed, or `None` when extraction fails.
   */
  function ExtractNumber(s: string): (r: Option<(int, nat)>)
    ensures r.Some? ==> 0 < r.value.1 <= |s|
  {
    var signed := s != [] && (s[0] == '-' || s[0] == '+');
    var start := if signed then 1 else 0;
    var k := DigitRun(s[start..]);
    if k == 0 then None
    else
      var v: int := DigitsValue(s[start..start + k]);
      Some((if signed && s[0] == '-' then -v else v, start + k))
  }

  /** The length of the run of whitespace that starts `s`. */
  function SpaceRun(s: string): (k: nat)
    ensures k <= |s|
  {
    if s == [] || !IsSpace(s[0]) then 0 else 1 + SpaceRun(s[1..])
  }

  /** One `istream >> int`: skips leading whitespace, then reads a number. */
  function Extract(s: string): (r: Option<(int, nat)>)
    ensures r.Some? ==> 0 < r.value.1 <= |s|
  {
    var w := SpaceRun(s);
    var r := ExtractNumber(s[w..]);
    if r.None? then None else Some((r.value.0, w + r.value.1))
  }

  /** The integers `while (rowStream >> value)` reads from a line before the first failure. */
  function LeadingInts(s: string): seq<int>
    decreases |s|
  {
    var r := Extract(s);
    if r.None? then [] else [r.value.0] + LeadingInts(s[r.value.1..])
  }

  /** The rows that `operator>>` builds from a whole input text, one per line. */
  function ReadRows(input: string): seq<seq<int>> {
    var lines := Lines(input);
    seq(|lines|, i requires 0 <= i < |lines| => LeadingInts(lines[i]))
  }

  /** The inner loop of `operator>>`: push every integer the line yields. */
  method ParseLine(line: string) returns (row: seq<int>)
    ensures row == LeadingInts(line)
  {
    row := [];
    var pos: nat := 0;
    var next := Extract(line);
    ParseStart(line);
    while next.Some?
      invariant pos <= |line| && next == Extract(line[pos..]) && Parsed(line, pos, row)
      decreases |line| - pos
    {
      var v, k := next.value.0, next.value.1;
      var row', pos' := row + [v], pos + k;
      ExtractStep(line, pos, v, k, pos');
      ParseStep(line, pos, row, v, pos', row');
      row, pos := row', pos';
      next := Extract(line[pos..]);
    }
    ParseDone(line, pos, row);
  }

  /** `row` holds the integers of `line` before `pos`: with those after, they are all of them. */
  ghost predicate Parsed(line: string, pos: nat, row: seq<int>)
    requires pos <= |line|
  {
    row + LeadingInts(line[pos..]) == LeadingInts(line)
  }

  lemma ParseStart(line: string)
    ensures Parsed(line, 0, [])
  {
    assert line[0..] == line;
    assert [] + LeadingInts(line) == LeadingInts(line);
  }

  /** One successful extraction at `pos`: its value heads the integers from `pos` on. */
  lemma ExtractStep(line: string, pos: nat, v: int, k: nat, pos': nat)
    requires pos <= |line| && Extract(line[pos..]) == Some((v, k)) && pos' == pos + k
    ensures pos < pos' <= |line| && LeadingInts(line[pos..]) == [v] + LeadingInts(line[pos'..])
  {
    var s := line[pos..];
    assert 0 < k <= |s|;
    assert s[k..] == line[pos'..];
    assert LeadingInts(s) == [v] + LeadingInts(s[k..]);
  }

  lemma ParseStep(line: string, pos: nat, row: seq<int>, v: int, pos': nat, row': seq<int>)
    requires pos <= pos' <= |line| && row' == row + [v]
    requires LeadingInts(line[pos..]) == [v] + LeadingInts(line[pos'..]) && Parsed(line, pos, row)
    ensures Parsed(line, pos', row')
  {
    AppendShift(row, v, LeadingInts(line[pos'..]), LeadingInts(line[pos..]), LeadingInts(line));
  }

  /** Moving one element from the unread part to the read part keeps the whole. */
  lemma AppendShift(row: seq<int>, v: int, rest: seq<int>, unread: seq<int>, all: seq<int>)
    requires unread == [v] + rest && row + unread == all
    ensures (row + [v]) + rest == all
  {
    assert (row + [v]) + rest == row + ([v] + rest);
  }

  lemma ParseDone(line: string, pos: nat, row: seq<int>)
    requires pos <= |line| && Extract(line[pos..]).None? && Parsed(line, pos, row)
    ensures row == LeadingInts(line)
  {
    assert LeadingInts(line[pos..]) == [];
    assert row + [] == row;
  }

  lemma JoinStep(pieces: seq<string>, sep: string, k: nat)
    requires k < |pieces|
    ensures Join(pieces[..k + 1], sep) == if k == 0 then pieces[0] else Join(pieces[..k], sep) + sep + pieces[k]
  {
    assert pieces[..k + 1][..k] == pieces[..k];
  }

  /**
   * What a loop that writes `pieces` in turn, each followed by `sep` unless it
   * is the last, has written after the first `j` of them.
   */
  function Written(pieces: seq<string>, sep: string, j: nat): string
    requires j <= |pieces|
  {
    if j == |pieces| then Join(pieces, sep)
    else Join(pieces[..j], sep) + (if j == 0 then "" else sep)
  }

  lemma WrittenStep(pieces: seq<string>, sep: string, j: nat)
    requires j < |pieces|
    ensures Written(pieces, sep, j + 1)
         == Written(pieces, sep, j) + pieces[j] + (if j + 1 < |pieces| then sep else "")
  {
    JoinStep(pieces, sep, j);
    if j + 1 == |pieces| {
      assert pieces[..j + 1] == pieces;
    }
  }

  /**
   * The outer loop of `printGraph` and `operator<<`: each row in turn, and a
   * newline after every row but the last.
   */
  method RenderMatrix(m: seq<seq<int>>, sep: string) returns (s: string)
    ensures s == Render(m, sep)
  {
    ghost var rows := seq(|m|, i requires 0 <= i < |m| => Bracketed(m[i], sep));
    s := "";
    var i := 0;
    while i < |m|
      invariant 0 <= i <= |m|
      invariant s == Written(rows, "\n", i)
    {
      var line := RenderRow(m[i], sep);
      WrittenStep(rows, "\n", i);
      s := s + line;
      if i != |m| - 1 {
        s := s + "\n";
      }
      i := i + 1;
    }
  }

  /**
   * The inner loop of `printGraph` and `operator<<`: `[`, each value followed
   * by `sep` unless it is the last of the row, then `]`.
   */
  method RenderRow(row: seq<int>, sep: string) returns (s: string)
    ensures s == Bracketed(row, sep)
  {
    ghost var values := IntStrings(row);
    s := "[";
    var j := 0;
    while j < |row|
      invariant 0 <= j <= |row|
      invariant s == "[" + Written(values, sep, j)
    {
      ghost var before := s;
      var piece := IntToString(row[j]);
      assert piece == values[j];
      s := s + piece;
      if j != |row| - 1 {
        s := s + sep;
      }
      WrittenStep(values, sep, j);
      PrefixedStep(before, Written(values, sep, j), piece, if j + 1 < |values| then sep else "", s);
      j := j + 1;
    }
    s := s + "]";
  }

  /** Appending to a prefixed string appends after the prefix. */
  lemma PrefixedStep(before: string, w: string, piece: string, tail: string, after: string)
    requires before == "[" + w && after == before + piece + tail
    ensures after == "[" + (w + piece + tail)
  {
  }

  /** Reading the digits of `n` back gives `n`. */
  lemma {:induction false} DigitsOfNat(n: nat)
    ensures DigitsValue(NatToString(n)) == n
  {
    var s := NatToString(n);
    if n >= 10 {
      DigitsOfNat(n / 10);
      assert s[..|s| - 1] == NatToString(n / 10);
    }
  }

  /** One `istream >> int` on a rendered int reads that int back, up to the next non-digit. */
  lemma ExtractRendered(v: int, rest: string)
    requires rest == [] || !IsDigit(rest[0])
    ensures Extract(IntToString(v) + rest) == Some((v, |IntToString(v)|))
  {
    if v < 0 {
      ExtractRenderedNegative(v, rest);
    } else {
      ExtractRenderedNatural(v, rest);
    }
  }

  lemma ExtractRenderedNatural(n: nat, rest: string)
    requires rest == [] || !IsDigit(rest[0])
    ensures Extract(IntToString(n) + rest) == Some((n as int, |IntToString(n)|))
  {
    var digits := NatToString(n);
    DigitsOfNat(n);
    DigitRunOf(digits, rest);
    assert IntToString(n) == digits;
    ExtractDigits(digits, rest);
  }

  lemma ExtractRenderedNegative(v: int, rest: string)
    requires v < 0 && (rest == [] || !IsDigit(rest[0]))
    ensures Extract(IntToString(v) + rest) == Some((v, |IntToString(v)|))
  {
    var n: nat := -v;
    var digits := NatToString(n);
    DigitsOfNat(n);
    DigitRunOf(digits, rest);
    assert IntToString(v) == "-" + digits;
    ExtractMinus(IntToString(v), digits, rest, n);
  }

  lemma ExtractMinus(text: string, digits: string, rest: string, n: int)
    requires text == "-" + digits && |digits| > 0
    requires DigitsValue(digits) == n && DigitRun(digits + rest) == |digits|
    ensures Extract(text + rest) == Some((-n, |text|))
  {
    AppendAssociates("-", digits, rest);
    ExtractSignedDigits(digits, rest);
  }

  lemma AppendAssociates(a: string, b: string, c: string)
    ensures (a + b) + c == a + (b + c)
  {
  }

  /** Without leading whitespace `Extract` is `ExtractNumber`. */
  lemma ExtractUnspaced(s: string)
    requires s == [] || !IsSpace(s[0])
    ensures Extract(s) == ExtractNumber(s)
  {
    assert SpaceRun(s) == 0;
    assert s[0..] == s;
  }

  /** One leading whitespace character is skipped, and counted as consumed. */
  lemma ExtractAfterSpace(c: char, t: string)
    requires IsSpace(c)
    ensures Extract([c] + t) == if Extract(t).None? then None else Some((Extract(t).value.0, Extract(t).value.1 + 1))
  {
    var s := [c] + t;
    assert s[1..] == t;
    assert SpaceRun(s) == 1 + SpaceRun(t);
    var w := SpaceRun(t);
    assert s[w + 1..] == t[w..];
  }

  lemma ExtractDigits(digits: string, rest: string)
    requires |digits| > 0 && DigitRun(digits + rest) == |digits|
    ensures Extract(digits + rest) == Some((DigitsValue(digits), |digits|))
  {
    var s := digits + rest;
    assert IsDigit(s[0]);
    ExtractUnspaced(s);
    assert s[0..] == s;
    assert s[0..|digits|] == digits;
  }

  lemma ExtractSignedDigits(digits: string, rest: string)
    requires |digits| > 0 && DigitRun(digits + rest) == |digits|
    ensures Extract("-" + (digits + rest)) == Some((-DigitsValue(digits), |digits| + 1))
  {
    var t := digits + rest;
    var s := "-" + t;
    assert s[0] == '-' && s[1..] == t;
    ExtractUnspaced(s);
    ExtractNegative(s, |digits|);
    assert s[1..1 + |digits|] == digits;
  }

  /** A `-` and `k` digits read as the negated value of those digits. */
  lemma ExtractNegative(s: string, k: nat)
    requires s != [] && s[0] == '-' && k > 0 && DigitRun(s[1..]) == k
    ensures ExtractNumber(s) == Some((-DigitsValue(s[1..1 + k]), k + 1))
  {
  }

  lemma {:induction false} DigitRunOf(digits: string, rest: string)
    requires AllDigits(digits)
    requires rest == [] || !IsDigit(rest[0])
    ensures DigitRun(digits + rest) == |digits|
    decreases |digits|
  {
    if |digits| > 0 {
      assert (digits + rest)[1..] == digits[1..] + rest;
      DigitRunOf(digits[1..], rest);
    } else {
      assert digits + rest == rest;
    }
  }

  /** Leading whitespace is skipped: `" " + t` yields the integers of `t`. */
  lemma LeadingIntsAfterSpace(t: string)
    ensures LeadingInts(" " + t) == LeadingInts(t)
  {
    var s := " " + t;
    ExtractAfterSpace(' ', t);
    var r := Extract(t);
    if r.Some? {
      var k := r.value.1;
      assert s[k + 1..] == t[k..];
    }
  }

  lemma JoinCons(x: string, xs: seq<string>, sep: string)
    requires |xs| > 0
    ensures Join([x] + xs, sep) == x + sep + Join(xs, sep)
    decreases |xs|
  {
    var ys := [x] + xs;
    if |xs| > 1 {
      assert ys[..|ys| - 1] == [x] + xs[..|xs| - 1];
      JoinCons(x, xs[..|xs| - 1], sep);
    } else {
      assert ys[..1] == [x];
    }
  }

  /** Integers written separated by single spaces are read back by `>>`. */
  lemma {:induction false} ReadSpaced(row: seq<int>)
    ensures LeadingInts(Join(IntStrings(row), " ")) == row
    decreases |row|
  {
    if |row| == 1 {
      LeadingIntsOfRendered(row[0], "");
      assert IntToString(row[0]) + "" == IntToString(row[0]);
      assert [row[0]] + [] == row;
    } else if |row| > 1 {
      var head, tail := IntToString(row[0]), IntStrings(row[1..]);
      IntStringsCons(row);
      JoinCons(head, tail, " ");
      AppendAssociates(head, " ", Join(tail, " "));
      LeadingIntsOfRendered(row[0], " " + Join(tail, " "));
      LeadingIntsAfterSpace(Join(tail, " "));
      ReadSpaced(row[1..]);
      HeadAndTail(row);
    }
  }

  lemma HeadAndTail(row: seq<int>)
    requires |row| > 0
    ensures [row[0]] + row[1..] == row
  {
  }

  lemma IntStringsCons(row: seq<int>)
    requires |row| > 0
    ensures IntStrings(row) == [IntToString(row[0])] + IntStrings(row[1..])
  {
  }

  /** A rendered int followed by a non-digit yields that int, then whatever follows. */
  lemma LeadingIntsOfRendered(v: int, rest: string)
    requires rest == [] || !IsDigit(rest[0])
    ensures LeadingInts(IntToString(v) + rest) == [v] + LeadingInts(rest)
  {
    var s := IntToString(v) + rest;
    ExtractRendered(v, rest);
    assert s[|IntToString(v)|..] == rest;
  }

  /** Non-empty pieces free of newlines are recovered by `getline` from their newline join. */
  lemma {:induction false} LinesOfJoin(pieces: seq<string>)
    requires forall k :: 0 <= k < |pieces| ==> |pieces[k]| > 0 && NoNewline(pieces[k])
    ensures Lines(Join(pieces, "\n")) == pieces
    decreases |pieces|
  {
    if |pieces| == 1 {
      LineLengthOf(pieces[0], "");
    } else if |pieces| > 1 {
      var rest := pieces[1..];
      assert pieces == [pieces[0]] + rest;
      JoinCons(pieces[0], rest, "\n");
      var s := Join(pieces, "\n");
      var tail := "\n" + Join(rest, "\n");
      assert s == pieces[0] + tail;
      LineLengthOf(pieces[0], tail);
      assert s[|pieces[0]| + 1..] == Join(rest, "\n");
      assert s[..|pieces[0]|] == pieces[0];
      LinesOfJoin(rest);
    }
  }

  lemma {:induction false} LineLengthOf(line: string, rest: string)
    requires NoNewline(line)
    requires rest == [] || rest[0] == '\n'
    ensures LineLength(line + rest) == |line|
    decreases |line|
  {
    if |line| > 0 {
      assert (line + rest)[1..] == line[1..] + rest;
      LineLengthOf(line[1..], rest);
    } else {
      assert line + rest == rest;
    }
  }

  lemma {:induction false} JoinNoNewline(pieces: seq<string>, sep: string)
    requires NoNewline(sep) && forall k :: 0 <= k < |pieces| ==> NoNewline(pieces[k])
    ensures NoNewline(Join(pieces, sep))
    decreases |pieces|
  {
    if |pieces| > 1 {
      JoinNoNewline(pieces[..|pieces| - 1], sep);
    }
  }

  lemma IntStringsNoNewline(row: seq<int>)
    ensures forall k :: 0 <= k < |row| ==> NoNewline(IntStrings(row)[k])
  {
    forall k | 0 <= k < |row| ensures NoNewline(IntStrings(row)[k]) {
      var v := row[k];
      var digits := if v < 0 then NatToString(-v) else NatToString(v);
      assert AllDigits(digits);
    }
  }

  /** A square matrix written as plain space-separated lines is read back unchanged. */
  lemma ReadPlainText(m: seq<seq<int>>)
    requires IsSquare(m)
    ensures ReadRows(PlainText(m)) == m
  {
    var pieces := seq(|m|, i requires 0 <= i < |m| => Join(IntStrings(m[i]), " "));
    forall k | 0 <= k < |pieces| ensures |pieces[k]| > 0 && NoNewline(pieces[k]) {
      IntStringsNoNewline(m[k]);
      JoinNoNewline(IntStrings(m[k]), " ");
      assert |IntStrings(m[k])| == |m| > 0;
      JoinNonEmpty(IntStrings(m[k]), " ");
    }
    LinesOfJoin(pieces);
    forall i | 0 <= i < |m| ensures LeadingInts(pieces[i]) == m[i] {
      ReadSpaced(m[i]);
    }
  }

  lemma {:induction false} JoinNonEmpty(pieces: seq<string>, sep: string)
    requires |pieces| > 0 && forall k :: 0 <= k < |pieces| ==> |pieces[k]| > 0
    ensures |Join(pieces, sep)| > 0
    decreases |pieces|
  {
    if |pieces| > 1 {
      JoinNonEmpty(pieces[..|pieces| - 1], sep);
    }
  }

  /**
   * A rendered matrix is not readable: every line begins with `[`, on which
   * `istream >> int` fails at once, so each line yields an empty row.
   */
  lemma ReadRendered(m: seq<seq<int>>, sep: string)
    requires NoNewline(sep)
    ensures ReadRows(Render(m, sep)) == seq(|m|, _ => [])
  {
    LinesOfRendered(m, sep);
    var lines := Lines(Render(m, sep));
    forall k | 0 <= k < |lines| ensures LeadingInts(lines[k]) == [] {
      BracketedLine(m[k], sep);
      BracketFails(lines[k]);
    }
  }

  /** `getline` splits a rendered matrix back into its bracketed rows. */
  lemma LinesOfRendered(m: seq<seq<int>>, sep: string)
    requires NoNewline(sep)
    ensures Lines(Render(m, sep)) == seq(|m|, i requires 0 <= i < |m| => Bracketed(m[i], sep))
  {
    var rows := seq(|m|, i requires 0 <= i < |m| => Bracketed(m[i], sep));
    forall k | 0 <= k < |rows| ensures |rows[k]| > 0 && NoNewline(rows[k]) {
      BracketedLine(m[k], sep);
    }
    LinesOfJoin(rows);
  }

  /** A bracketed row is one non-empty line that starts with `[`. */
  lemma BracketedLine(row: seq<int>, sep: string)
    requires NoNewline(sep)
    ensures var b := Bracketed(row, sep); |b| > 0 && b[0] == '[' && NoNewline(b)
  {
    IntStringsNoNewline(row);
    JoinNoNewline(IntStrings(row), sep);
  }

  /** `istream >> int` fails on a line that starts with `[`. */
  lemma BracketFails(s: string)
    requires s != [] && s[0] == '['
    ensures Extract(s).None? && LeadingInts(s) == []
  {
    ExtractUnspaced(s);
    assert DigitRun(s) == 0;
    assert s[0..] == s;
  }
}
