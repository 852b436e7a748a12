/** Day 3: the engine schematic. The input is a grid of characters; a symbol is an ASCII
    punctuation mark other than '.', and a number is a maximal run of digits on one line.
    Part 1 adds up the numbers next to a symbol; part 2 adds up, over the '*' cells that
    touch exactly two numbers, the product of those two numbers. */
module Day3 {
  import opened Wrappers
  import opened Text

  // ---------------------------------------------------------------- symbols

  /** `char::is_ascii_punctuation`: the four blocks of ASCII punctuation. */
  predicate IsAsciiPunctuation(c: char) {
    ('!' <= c <= '/') || (':' <= c <= '@') || ('[' <= c <= '`') || ('{' <= c <= '~')
  }

  predicate IsSymbol(c: char) {
    c != '.' && IsAsciiPunctuation(c)
  }

  /** `symbols_map`: one row per line and one cell per character, a cell being set
      exactly when its character is a symbol. */
  function SymbolsMap(lines: seq<string>): (grid: seq<seq<bool>>)
    ensures |grid| == |lines|
    ensures forall y :: 0 <= y < |lines| ==> |grid[y]| == |lines[y]|
    ensures forall y, x :: 0 <= y < |lines| && 0 <= x < |lines[y]| ==>
      (grid[y][x] <==> IsSymbol(lines[y][x]))
  {
    seq(|lines|, y requires 0 <= y < |lines| =>
      seq(|lines[y]|, x requires 0 <= x < |lines[y]| => IsSymbol(lines[y][x])))
  }

  // ---------------------------------------------------------------- numbers

  /** A number found in the grid: its value, the column of its first digit, its line and
      its recorded length. */
  datatype Number = Number(value: nat, x: nat, y: nat, length: nat)

  /** The end of the digit run that starts at or runs through `i`. */
  function RunEnd(line: string, i: nat): (j: nat)
    requires i <= |line|
    ensures i <= j <= |line|
    ensures forall k :: i <= k < j ==> IsDigit(line[k])
    ensures j == |line| || !IsDigit(line[j])
    decreases |line| - i
  {
    if i == |line| || !IsDigit(line[i]) then i else RunEnd(line, i + 1)
  }

  /** Digits from `s` up to a non-digit or the end of the line end the run there. */
  lemma {:induction false} RunEndAt(line: string, s: nat, e: nat)
    requires s <= e <= |line|
    requires forall k :: s <= k < e ==> IsDigit(line[k])
    requires e == |line| || !IsDigit(line[e])
    ensures RunEnd(line, s) == e
    decreases e - s
  {
    if s < e {
      RunEndAt(line, s + 1, e);
    }
  }

  /** `s` is the first digit of a maximal run. */
  predicate RunStart(line: string, s: nat)
    requires s < |line|
  {
    IsDigit(line[s]) && (s == 0 || !IsDigit(line[s - 1]))
  }

  /** The number of the run that starts at `s`: its decimal value, and as length the
      count of its digits, one less when the run reaches the end of the line. */
  function RunNumber(line: string, y: nat, s: nat): (n: Number)
    requires s < |line| && IsDigit(line[s])
    ensures n.x == s && n.y == y
    ensures n.value == DecimalValue(line[s..RunEnd(line, s)])
    ensures n.length == if RunEnd(line, s) == |line| then RunEnd(line, s) - s - 1 else RunEnd(line, s) - s
  {
    var e := RunEnd(line, s);
    Number(DecimalValue(line[s..e]), s, y, if e == |line| then e - 1 - s else e - s)
  }

  /** The numbers of one line from column `i` on, left to right. */
  function LineNumbers(line: string, y: nat, i: nat): seq<Number>
    requires i <= |line|
    decreases |line| - i
  {
    if i == |line| then []
    else if !IsDigit(line[i]) then LineNumbers(line, y, i + 1)
    else
      var e := RunEnd(line, i);
      [RunNumber(line, y, i)] + if e == |line| then [] else LineNumbers(line, y, e + 1)
  }

  /** `n` is the number of the maximal run of `line` that starts at `n.x`. */
  predicate LineRun(line: string, y: nat, n: Number) {
    n.y == y && n.x < |line| && RunStart(line, n.x) && n == RunNumber(line, y, n.x)
  }

  /** Starting outside a run, every number of a line is the number of a maximal run that
      starts at or after the starting column. */
  lemma {:induction false} LineNumbersSound(line: string, y: nat, i: nat)
    requires i <= |line| && (i == 0 || i == |line| || !IsDigit(line[i - 1]))
    ensures forall k :: 0 <= k < |LineNumbers(line, y, i)| ==>
      i <= LineNumbers(line, y, i)[k].x && LineRun(line, y, LineNumbers(line, y, i)[k])
    decreases |line| - i
  {
    if i < |line| {
      if !IsDigit(line[i]) {
        LineNumbersSound(line, y, i + 1);
      } else {
        var e := RunEnd(line, i);
        if e < |line| {
          LineNumbersSound(line, y, e + 1);
        }
      }
    }
  }

  /** The numbers of a line come in increasing column order. */
  lemma {:induction false} LineNumbersOrdered(line: string, y: nat, i: nat)
    requires i <= |line| && (i == 0 || i == |line| || !IsDigit(line[i - 1]))
    ensures forall k1, k2 :: 0 <= k1 < k2 < |LineNumbers(line, y, i)| ==>
      LineNumbers(line, y, i)[k1].x < LineNumbers(line, y, i)[k2].x
    decreases |line| - i
  {
    if i < |line| {
      if !IsDigit(line[i]) {
        LineNumbersOrdered(line, y, i + 1);
      } else {
        var e := RunEnd(line, i);
        if e < |line| {
          LineNumbersOrdered(line, y, e + 1);
          LineNumbersSound(line, y, e + 1);
        }
      }
    }
  }

  /** Every maximal run at or after the starting column has its number. */
  lemma {:induction false} LineNumbersComplete(line: string, y: nat, i: nat, s: nat)
    requires i <= |line| && (i == 0 || i == |line| || !IsDigit(line[i - 1]))
    requires i <= s < |line| && RunStart(line, s)
    ensures exists k :: 0 <= k < |LineNumbers(line, y, i)| && LineNumbers(line, y, i)[k].x == s
    decreases |line| - i
  {
    var r := LineNumbers(line, y, i);
    if !IsDigit(line[i]) {
      LineNumbersComplete(line, y, i + 1, s);
      assert r == LineNumbers(line, y, i + 1);
    } else if s == i {
      assert r[0].x == s;
    } else {
      var e := RunEnd(line, i);
      LineNumbersComplete(line, y, e + 1, s);
      var k :| 0 <= k < |LineNumbers(line, y, e + 1)| && LineNumbers(line, y, e + 1)[k].x == s;
      assert r[k + 1].x == s;
    }
  }

  /** A run that reaches the end of the line is its last number, one digit short. */
  lemma RunAtEnd(line: string, y: nat, s: nat)
    requires s < |line| && forall k :: s <= k < |line| ==> IsDigit(line[k])
    ensures LineNumbers(line, y, s) == [Number(DecimalValue(line[s..]), s, y, |line| - 1 - s)]
  {
    RunEndAt(line, s, |line|);
    assert line[s..RunEnd(line, s)] == line[s..];
    assert LineNumbers(line, y, s) == [RunNumber(line, y, s)];
  }

  /** A run ended by a non-digit at `e` is followed by the numbers after `e`. */
  lemma RunBefore(line: string, y: nat, s: nat, e: nat)
    requires s < e < |line| && !IsDigit(line[e])
    requires forall k :: s <= k < e ==> IsDigit(line[k])
    ensures LineNumbers(line, y, s) ==
      [Number(DecimalValue(line[s..e]), s, y, e - s)] + LineNumbers(line, y, e + 1)
  {
    RunEndAt(line, s, e);
  }

  /** What the scan of a line knows before column `x`: `out` followed by the numbers from
      the pending run (or from `x` when none is pending) are the numbers of the line. */
  predicate ScanState(line: string, y: nat, x: nat, curNum: string, startX: nat, out: seq<Number>)
    requires x <= |line|
  {
    if curNum == "" then
      LineNumbers(line, y, 0) == out + LineNumbers(line, y, x) &&
      (x == 0 || x == |line| || !IsDigit(line[x - 1]))
    else
      startX < x < |line| && curNum == line[startX..x] &&
      (forall k :: startX <= k < x ==> IsDigit(line[k])) &&
      (startX == 0 || !IsDigit(line[startX - 1])) &&
      LineNumbers(line, y, 0) == out + LineNumbers(line, y, startX)
  }

  /** A digit after no pending run starts one (and emits it at once on the last column). */
  lemma ScanStart(line: string, y: nat, x: nat, startX: nat, out: seq<Number>)
    requires x < |line| && ScanState(line, y, x, "", startX, out) && IsDigit(line[x])
    ensures x == |line| - 1 ==>
      ScanState(line, y, x + 1, "", x, out + [Number(DecimalValue([line[x]]), x, y, 0)])
    ensures x < |line| - 1 ==> ScanState(line, y, x + 1, [line[x]], x, out)
  {
    if x == |line| - 1 {
      assert [line[x]] == line[x..];
      RunAtEnd(line, y, x);
    } else {
      assert [line[x]] == line[x..x + 1];
    }
  }

  /** A digit extends the pending run (and emits it on the last column). */
  lemma ScanExtend(line: string, y: nat, x: nat, curNum: string, startX: nat, out: seq<Number>)
    requires x < |line| && curNum != "" && ScanState(line, y, x, curNum, startX, out)
    requires IsDigit(line[x])
    ensures var run := curNum + [line[x]];
      x == |line| - 1 ==>
        ScanState(line, y, x + 1, "", startX, out + [Number(DecimalValue(run), startX, y, x - startX)])
    ensures x < |line| - 1 ==> ScanState(line, y, x + 1, curNum + [line[x]], startX, out)
  {
    assert curNum + [line[x]] == line[startX..x + 1];
    if x == |line| - 1 {
      assert line[startX..x + 1] == line[startX..];
      RunAtEnd(line, y, startX);
    }
  }

  /** A non-digit ends the pending run and emits it. */
  lemma ScanEnd(line: string, y: nat, x: nat, curNum: string, startX: nat, out: seq<Number>)
    requires x < |line| && curNum != "" && ScanState(line, y, x, curNum, startX, out)
    requires !IsDigit(line[x])
    ensures ScanState(line, y, x + 1, "", startX,
      out + [Number(DecimalValue(curNum), startX, y, x - startX)])
  {
    RunBefore(line, y, startX, x);
  }

  /** A non-digit with no pending run is skipped. */
  lemma ScanSkip(line: string, y: nat, x: nat, startX: nat, out: seq<Number>)
    requires x < |line| && ScanState(line, y, x, "", startX, out) && !IsDigit(line[x])
    ensures ScanState(line, y, x + 1, "", startX, out)
  {
    assert LineNumbers(line, y, x) == LineNumbers(line, y, x + 1);
  }

  /** The state after one more character: the pending run, where it starts, and the
      numbers emitted so far. */
  function ScanStep(line: string, y: nat, x: nat, curNum: string, startX: nat, out: seq<Number>)
    : (string, nat, seq<Number>)
    requires x < |line| && ScanState(line, y, x, curNum, startX, out)
  {
    var c := line[x];
    if curNum == "" && IsDigit(c) then
      if x == |line| - 1 then ("", x, out + [Number(DecimalValue(curNum + [c]), x, y, x - x)])
      else (curNum + [c], x, out)
    else if IsDigit(c) then
      if x == |line| - 1 then ("", startX, out + [Number(DecimalValue(curNum + [c]), startX, y, x - startX)])
      else (curNum + [c], startX, out)
    else if curNum != "" then ("", startX, out + [Number(DecimalValue(curNum), startX, y, x - startX)])
    else (curNum, startX, out)
  }

  /** One more character keeps the scan's state. */
  lemma ScanStepKeeps(line: string, y: nat, x: nat, curNum: string, startX: nat, out: seq<Number>)
    requires x < |line| && ScanState(line, y, x, curNum, startX, out)
    ensures var next := ScanStep(line, y, x, curNum, startX, out);
      ScanState(line, y, x + 1, next.0, next.1, next.2)
  {
    if curNum == "" && IsDigit(line[x]) {
      assert curNum + [line[x]] == [line[x]];
      ScanStart(line, y, x, startX, out);
    } else if IsDigit(line[x]) {
      ScanExtend(line, y, x, curNum, startX, out);
    } else if curNum != "" {
      ScanEnd(line, y, x, curNum, startX, out);
    } else {
      ScanSkip(line, y, x, startX, out);
    }
  }

  /** One character of the scan, the body of the closure `numbers` maps over a line. */
  method ScanChar(line: string, y: nat, x: nat, curNum: string, startX: nat, out: seq<Number>)
    returns (curNum': string, startX': nat, out': seq<Number>)
    requires x < |line| && ScanState(line, y, x, curNum, startX, out)
    ensures ScanState(line, y, x + 1, curNum', startX', out')
  {
    curNum', startX', out' := curNum, startX, out;
    var c := line[x];
    if curNum' == "" && IsDigit(c) {
      startX' := x;
      curNum' := curNum' + [c];
      if x == |line| - 1 {
        out' := out' + [Number(DecimalValue(curNum'), startX', y, x - startX')];
        curNum' := "";
      }
    } else if IsDigit(c) {
      curNum' := curNum' + [c];
      if x == |line| - 1 {
        out' := out' + [Number(DecimalValue(curNum'), startX', y, x - startX')];
        curNum' := "";
      }
    } else if curNum' != "" {
      out' := out' + [Number(DecimalValue(curNum'), startX', y, x - startX')];
      curNum' := "";
    }
    assert (curNum', startX', out') == ScanStep(line, y, x, curNum, startX, out);
    ScanStepKeeps(line, y, x, curNum, startX, out);
  }

  /** The scan of `numbers` over one line: `curNum` collects the digits of the run under
      way, which starts at `startX`; a run is emitted at the first non-digit after it, or
      at its last digit when that is the last character. */
  method ScanLine(line: string, y: nat) returns (out: seq<Number>)
    ensures out == LineNumbers(line, y, 0)
  {
    out := [];
    var curNum: string := "";
    var startX: nat := 0;
    for x := 0 to |line|
      invariant ScanState(line, y, x, curNum, startX, out)
    {
      curNum, startX, out := ScanChar(line, y, x, curNum, startX, out);
    }
    assert LineNumbers(line, y, |line|) == [];
  }

  /** The numbers of every line, line after line: the `flat_map` of `numbers`, with the
      line index as `y`. */
  function AllNumbers(lines: seq<string>): seq<Number> {
    if lines == [] then []
    else
      var n := |lines| - 1;
      AllNumbers(lines[..n]) + LineNumbers(lines[n], n, 0)
  }

  predicate RowMajorBefore(a: Number, b: Number) {
    a.y < b.y || (a.y == b.y && a.x < b.x)
  }

  /** `n` is the number of a maximal run of the grid. */
  predicate IsRunOf(lines: seq<string>, n: Number) {
    n.y < |lines| && LineRun(lines[n.y], n.y, n)
  }

  /** Every number `numbers` yields is the number of a maximal digit run of the grid:
      its value, its first column and its line. */
  lemma {:induction false} AllNumbersSound(lines: seq<string>)
    ensures forall k :: 0 <= k < |AllNumbers(lines)| ==> IsRunOf(lines, AllNumbers(lines)[k])
  {
    if lines != [] {
      var n := |lines| - 1;
      AllNumbersSound(lines[..n]);
      LineNumbersSound(lines[n], n, 0);
      var init, last := AllNumbers(lines[..n]), LineNumbers(lines[n], n, 0);
      assert AllNumbers(lines) == init + last;
      forall k | 0 <= k < |init| ensures IsRunOf(lines, init[k]) {
        assert IsRunOf(lines[..n], AllNumbers(lines[..n])[k]);
        assert lines[..n][init[k].y] == lines[init[k].y];
      }
      assert forall k :: 0 <= k < |last| ==> LineRun(lines[n], n, LineNumbers(lines[n], n, 0)[k]);
    }
  }

  /** `numbers` yields its numbers in row-major order. */
  lemma {:induction false} AllNumbersOrdered(lines: seq<string>)
    ensures forall k1, k2 :: 0 <= k1 < k2 < |AllNumbers(lines)| ==>
      RowMajorBefore(AllNumbers(lines)[k1], AllNumbers(lines)[k2])
  {
    if lines != [] {
      var n := |lines| - 1;
      AllNumbersOrdered(lines[..n]);
      AllNumbersSound(lines[..n]);
      LineNumbersSound(lines[n], n, 0);
      LineNumbersOrdered(lines[n], n, 0);
      var init, last := AllNumbers(lines[..n]), LineNumbers(lines[n], n, 0);
      assert AllNumbers(lines) == init + last;
      assert forall k :: 0 <= k < |init| ==> IsRunOf(lines[..n], AllNumbers(lines[..n])[k]);
      assert forall k :: 0 <= k < |last| ==> LineRun(lines[n], n, LineNumbers(lines[n], n, 0)[k]);
      assert forall k1, k2 :: 0 <= k1 < k2 < |last| ==>
        LineNumbers(lines[n], n, 0)[k1].x < LineNumbers(lines[n], n, 0)[k2].x;
    }
  }

  /** Some number of `r` starts at column `s` of line `y`. */
  predicate HasNumberAt(r: seq<Number>, y: nat, s: nat) {
    exists k :: 0 <= k < |r| && r[k].y == y && r[k].x == s
  }

  /** A number found in either part is found in the concatenation. */
  lemma HasNumberAtAppend(a: seq<Number>, b: seq<Number>, y: nat, s: nat)
    requires HasNumberAt(a, y, s) || HasNumberAt(b, y, s)
    ensures HasNumberAt(a + b, y, s)
  {
    if HasNumberAt(a, y, s) {
      var k :| 0 <= k < |a| && a[k].y == y && a[k].x == s;
      assert (a + b)[k] == a[k];
    } else {
      var k :| 0 <= k < |b| && b[k].y == y && b[k].x == s;
      assert (a + b)[|a| + k] == b[k];
    }
  }

  /** Every maximal digit run of the grid has its number among those `numbers` yields. */
  lemma {:induction false} AllNumbersComplete(lines: seq<string>, y: nat, s: nat)
    requires y < |lines| && s < |lines[y]| && RunStart(lines[y], s)
    ensures HasNumberAt(AllNumbers(lines), y, s)
  {
    var n := |lines| - 1;
    var init, last := AllNumbers(lines[..n]), LineNumbers(lines[n], n, 0);
    if y < n {
      assert lines[..n][y] == lines[y];
      AllNumbersComplete(lines[..n], y, s);
    } else {
      LineNumbersSound(lines[n], n, 0);
      LineNumbersComplete(lines[n], n, 0, s);
      var k :| 0 <= k < |last| && last[k].x == s;
      assert LineRun(lines[n], n, last[k]);
    }
    HasNumberAtAppend(init, last, y, s);
  }

  /** `numbers` over the lines of the input. */
  method ScanNumbers(lines: seq<string>) returns (nums: seq<Number>)
    ensures nums == AllNumbers(lines)
  {
    nums := [];
    for y := 0 to |lines|
      invariant nums == AllNumbers(lines[..y])
    {
      assert lines[..y + 1][..y] == lines[..y];
      var found := ScanLine(lines[y], y);
      nums := nums + found;
    }
    assert lines[..|lines|] == lines;
  }

  /** No number lies on a symbol: the cells of a run are digits. */
  lemma NumbersAreNotSymbols(lines: seq<string>, k: nat, c: nat)
    requires k < |AllNumbers(lines)|
    requires var n := AllNumbers(lines)[k];
      n.y < |lines| && n.x <= c < |lines[n.y]| && c < RunEnd(lines[n.y], n.x)
    ensures !SymbolsMap(lines)[AllNumbers(lines)[k].y][c]
  {
    AllNumbersSound(lines);
    assert IsRunOf(lines, AllNumbers(lines)[k]);
  }

  // ---------------------------------------------------------------- adjacency

  function SatSub1(v: nat): nat {
    if v == 0 then 0 else v - 1
  }

  function Min(a: nat, b: nat): nat {
    if a <= b then a else b
  }

  /** The rows of the box around a number, clamped to the grid. */
  function BoxTop(symbols: seq<seq<bool>>, num: Number): nat
    requires |symbols| > 0
  {
    Min(SatSub1(num.y), |symbols| - 1)
  }

  function BoxBottom(symbols: seq<seq<bool>>, num: Number): nat
    requires |symbols| > 0
  {
    Min(num.y + 1, |symbols| - 1)
  }

  /** The columns of the box in one row, clamped to that row. */
  function BoxLeft(row: seq<bool>, num: Number): nat
    requires |row| > 0
  {
    Min(SatSub1(num.x), |row| - 1)
  }

  function BoxRight(row: seq<bool>, num: Number): nat
    requires |row| > 0
  {
    Min(num.x + num.length, |row| - 1)
  }

  /** One row of the box: `None` for an empty row, where `len() - 1` underflows. */
  function RowHit(row: seq<bool>, num: Number): Option<bool> {
    if |row| == 0 then None
    else Some(exists c :: BoxLeft(row, num) <= c <= BoxRight(row, num) && row[c])
  }

  /** The rows of the box from `yy` down, top to bottom, stopping at the first hit. */
  function BoxFrom(symbols: seq<seq<bool>>, num: Number, yy: nat, bottom: nat): Option<bool>
    requires bottom < |symbols|
    decreases bottom + 1 - yy
  {
    if yy > bottom then Some(false)
    else
      match RowHit(symbols[yy], num)
      case None => None
      case Some(true) => Some(true)
      case Some(false) => BoxFrom(symbols, num, yy + 1, bottom)
  }

  /** `is_next_to_symbol`; `None` for an empty grid or when the scan reaches an empty row. */
  function NextToSymbol(symbols: seq<seq<bool>>, num: Number): (r: Option<bool>)
    ensures r.None? ==> (|symbols| == 0 ||
      exists z :: BoxTop(symbols, num) <= z <= BoxBottom(symbols, num) && |symbols[z]| == 0)
  {
    if |symbols| == 0 then None
    else
      BoxFromFails(symbols, num, BoxTop(symbols, num), BoxBottom(symbols, num));
      BoxFrom(symbols, num, BoxTop(symbols, num), BoxBottom(symbols, num))
  }

  /** A cell of the clamped box around `num`. */
  predicate InBox(symbols: seq<seq<bool>>, num: Number, yy: int, c: int)
    requires |symbols| > 0
  {
    BoxTop(symbols, num) <= yy <= BoxBottom(symbols, num) && |symbols[yy]| > 0 &&
    BoxLeft(symbols[yy], num) <= c <= BoxRight(symbols[yy], num)
  }

  lemma {:induction false} BoxFromSpec(symbols: seq<seq<bool>>, num: Number, yy: nat, bottom: nat)
    requires bottom < |symbols|
    requires forall z :: yy <= z <= bottom ==> |symbols[z]| > 0
    ensures BoxFrom(symbols, num, yy, bottom) ==
      Some(exists z, c :: yy <= z <= bottom && BoxLeft(symbols[z], num) <= c <= BoxRight(symbols[z], num) && symbols[z][c])
    decreases bottom + 1 - yy
  {
    if yy <= bottom {
      BoxFromSpec(symbols, num, yy + 1, bottom);
    }
  }

  /** When every row the box spans is non-empty, a number is next to a symbol exactly when
      some cell of its clamped box is set; the check can only fail on an empty grid or an
      empty row inside the box. */
  lemma NextToSymbolSpec(symbols: seq<seq<bool>>, num: Number)
    requires |symbols| > 0
    ensures (forall z :: BoxTop(symbols, num) <= z <= BoxBottom(symbols, num) ==> |symbols[z]| > 0) ==>
      NextToSymbol(symbols, num) == Some(exists z, c :: InBox(symbols, num, z, c) && symbols[z][c])
    ensures NextToSymbol(symbols, num).None? ==>
      exists z :: BoxTop(symbols, num) <= z <= BoxBottom(symbols, num) && |symbols[z]| == 0
  {
    var top, bottom := BoxTop(symbols, num), BoxBottom(symbols, num);
    if forall z :: top <= z <= bottom ==> |symbols[z]| > 0 {
      BoxFromSpec(symbols, num, top, bottom);
    } else {
      BoxFromFails(symbols, num, top, bottom);
    }
  }

  lemma {:induction false} BoxFromFails(symbols: seq<seq<bool>>, num: Number, yy: nat, bottom: nat)
    requires bottom < |symbols|
    ensures BoxFrom(symbols, num, yy, bottom).None? ==>
      exists z :: yy <= z <= bottom && |symbols[z]| == 0
    decreases bottom + 1 - yy
  {
    if yy <= bottom && |symbols[yy]| > 0 {
      BoxFromFails(symbols, num, yy + 1, bottom);
    }
  }

  /** `Number::is_next_to_symbol`: rows of the clamped box top to bottom, each row's clamped
      columns left to right, returning at the first set cell. */
  method IsNextToSymbol(num: Number, symbols: seq<seq<bool>>) returns (r: Option<bool>)
    ensures r == NextToSymbol(symbols, num)
  {
    if |symbols| == 0 {
      return None;
    }
    var bottom := BoxBottom(symbols, num);
    var yy := BoxTop(symbols, num);
    while yy <= bottom
      invariant yy <= bottom + 1
      invariant NextToSymbol(symbols, num) == BoxFrom(symbols, num, yy, bottom)
      decreases bottom + 1 - yy
    {
      var row := symbols[yy];
      if |row| == 0 {
        return None;
      }
      var right := BoxRight(row, num);
      var c := BoxLeft(row, num);
      while c <= right
        invariant BoxLeft(row, num) <= c <= right + 1
        invariant forall c' :: BoxLeft(row, num) <= c' < c ==> !row[c']
        decreases right + 1 - c
      {
        if row[c] {
          return Some(true);
        }
        c := c + 1;
      }
      yy := yy + 1;
    }
    r := Some(false);
  }

  // ---------------------------------------------------------------- part 1

  /** Part 1's sum over the numbers, in order, of the values of those next to a symbol;
      `None` as soon as one adjacency check fails. */
  function AdjacentSum(symbols: seq<seq<bool>>, nums: seq<Number>): (r: Option<int>)
    ensures r.Some? ==> 0 <= r.value <= ValueSum(nums)
  {
    if nums == [] then Some(0)
    else
      var n := |nums| - 1;
      var t :- AdjacentSum(symbols, nums[..n]);
      var adjacent :- NextToSymbol(symbols, nums[n]);
      Some(t + if adjacent then nums[n].value else 0)
  }

  /** The sum succeeds exactly when every adjacency check does, and is then at most the
      sum of all values. */
  lemma {:induction false} AdjacentSumSpec(symbols: seq<seq<bool>>, nums: seq<Number>)
    ensures AdjacentSum(symbols, nums).Some? <==>
      forall k :: 0 <= k < |nums| ==> NextToSymbol(symbols, nums[k]).Some?
    ensures AdjacentSum(symbols, nums).Some? ==> 0 <= AdjacentSum(symbols, nums).value <= ValueSum(nums)
  {
    if nums != [] {
      var n := |nums| - 1;
      AdjacentSumSpec(symbols, nums[..n]);
      assert forall k :: 0 <= k < n ==> nums[..n][k] == nums[k];
    }
  }

  function ValueSum(nums: seq<Number>): nat {
    if nums == [] then 0 else ValueSum(nums[..|nums| - 1]) + nums[|nums| - 1].value
  }

  /** A grid without an empty line never makes part 1 fail. */
  lemma NoEmptyLineNoPanic(lines: seq<string>)
    requires forall y :: 0 <= y < |lines| ==> |lines[y]| > 0
    ensures AdjacentSum(SymbolsMap(lines), AllNumbers(lines)).Some?
  {
    var symbols, nums := SymbolsMap(lines), AllNumbers(lines);
    AllNumbersSound(lines);
    forall k | 0 <= k < |nums| ensures NextToSymbol(symbols, nums[k]).Some? {
      assert IsRunOf(lines, AllNumbers(lines)[k]);
      NextToSymbolSpec(symbols, nums[k]);
    }
    AdjacentSumSpec(symbols, nums);
  }

  /** One turn of part 1's `filter`/`sum`: the value of number `k` is added when it is next
      to a symbol. */
  method AddIfAdjacent(symbols: seq<seq<bool>>, nums: seq<Number>, k: nat, total: int) returns (r: Option<int>)
    requires k < |nums| && AdjacentSum(symbols, nums[..k]) == Some(total)
    ensures r == AdjacentSum(symbols, nums[..k + 1])
  {
    assert nums[..k + 1][..k] == nums[..k];
    var adjacent := IsNextToSymbol(nums[k], symbols);
    if adjacent.None? {
      return None;
    }
    r := Some(total + if adjacent.value then nums[k].value else 0);
  }

  lemma {:induction false} AdjacentSumPrefixFails(symbols: seq<seq<bool>>, nums: seq<Number>, k: nat)
    requires k <= |nums| && AdjacentSum(symbols, nums[..k]).None?
    ensures AdjacentSum(symbols, nums).None?
  {
    if k == |nums| {
      assert nums[..k] == nums;
    } else {
      var n := |nums| - 1;
      assert nums[..n][..k] == nums[..k];
      AdjacentSumPrefixFails(symbols, nums[..n], k);
    }
  }

  /** `part1`: the values of the numbers next to a symbol, added up. */
  method Part1(input: string) returns (r: Option<int>)
    ensures r == AdjacentSum(SymbolsMap(Lines(input)), AllNumbers(Lines(input)))
  {
    var lines := Lines(input);
    var symbols := SymbolsMap(lines);
    var nums := ScanNumbers(lines);
    var total := 0;
    for k := 0 to |nums|
      invariant AdjacentSum(symbols, nums[..k]) == Some(total)
    {
      var next := AddIfAdjacent(symbols, nums, k, total);
      if next.None? {
        AdjacentSumPrefixFails(symbols, nums, k + 1);
        return None;
      }
      total := next.value;
    }
    assert nums[..|nums|] == nums;
    r := Some(total);
  }

  // ---------------------------------------------------------------- gears

  /** The '*' cells of one line from column `i` on, left to right, as `(x, y)`. */
  function RowGears(line: string, y: nat, i: nat): (r: seq<(nat, nat)>)
    requires i <= |line|
    ensures forall k :: 0 <= k < |r| ==> r[k].1 == y && i <= r[k].0 < |line| && line[r[k].0] == '*'
    decreases |line| - i
  {
    if i == |line| then []
    else (if line[i] == '*' then [(i, y)] else []) + RowGears(line, y, i + 1)
  }

  /** Each '*' of the line from column `i` on is among the gears of the line. */
  lemma {:induction false} RowGearsComplete(line: string, y: nat, i: nat)
    requires i <= |line|
    ensures forall x :: i <= x < |line| && line[x] == '*' ==> (x, y) in RowGears(line, y, i)
    decreases |line| - i
  {
    if i < |line| {
      RowGearsComplete(line, y, i + 1);
      var head := if line[i] == '*' then [(i, y)] else [];
      assert RowGears(line, y, i) == head + RowGears(line, y, i + 1);
    }
  }

  /** The gears of a line come in increasing column order. */
  lemma {:induction false} RowGearsAscending(line: string, y: nat, i: nat)
    requires i <= |line|
    ensures forall k1, k2 :: 0 <= k1 < k2 < |RowGears(line, y, i)| ==>
      RowGears(line, y, i)[k1].0 < RowGears(line, y, i)[k2].0
    decreases |line| - i
  {
    if i < |line| {
      RowGearsAscending(line, y, i + 1);
      var rest := RowGears(line, y, i + 1);
      var r := RowGears(line, y, i);
      if line[i] == '*' {
        assert r == [(i, y)] + rest;
        forall k1, k2 | 0 <= k1 < k2 < |r| ensures r[k1].0 < r[k2].0 {
          assert r[k2] == rest[k2 - 1];
          if k1 > 0 {
            assert r[k1] == rest[k1 - 1];
          }
        }
      } else {
        assert r == rest;
      }
    }
  }

  /** Each '*' of the line from column `i` on is among the gears of the line, which come
      in increasing column order. */
  lemma RowGearsSpec(line: string, y: nat, i: nat)
    requires i <= |line|
    ensures forall x :: i <= x < |line| && line[x] == '*' ==> (x, y) in RowGears(line, y, i)
    ensures forall k1, k2 :: 0 <= k1 < k2 < |RowGears(line, y, i)| ==>
      RowGears(line, y, i)[k1].0 < RowGears(line, y, i)[k2].0
  {
    RowGearsComplete(line, y, i);
    RowGearsAscending(line, y, i);
  }

  /** `gears`: the '*' cells of the grid, line after line. */
  function Gears(lines: seq<string>): (r: seq<(nat, nat)>)
    ensures forall k :: 0 <= k < |r| ==>
      r[k].1 < |lines| && r[k].0 < |lines[r[k].1]| && lines[r[k].1][r[k].0] == '*'
  {
    if lines == [] then []
    else
      var n := |lines| - 1;
      assert forall y :: 0 <= y < n ==> lines[..n][y] == lines[y];
      Gears(lines[..n]) + RowGears(lines[n], n, 0)
  }

  /** `gears` yields exactly the positions of the '*' characters, in row-major order. */
  lemma {:induction false} GearsSpec(lines: seq<string>)
    ensures forall g :: g in Gears(lines) ==> g.1 < |lines| && g.0 < |lines[g.1]| && lines[g.1][g.0] == '*'
    ensures forall y, x :: 0 <= y < |lines| && 0 <= x < |lines[y]| && lines[y][x] == '*' ==> (x, y) in Gears(lines)
    ensures forall k1, k2 :: 0 <= k1 < k2 < |Gears(lines)| ==>
      Gears(lines)[k1].1 < Gears(lines)[k2].1 ||
      (Gears(lines)[k1].1 == Gears(lines)[k2].1 && Gears(lines)[k1].0 < Gears(lines)[k2].0)
  {
    if lines != [] {
      var n := |lines| - 1;
      GearsSpec(lines[..n]);
      RowGearsSpec(lines[n], n, 0);
      assert Gears(lines) == Gears(lines[..n]) + RowGears(lines[n], n, 0);
      assert forall y :: 0 <= y < n ==> lines[..n][y] == lines[y];
      assert forall g :: g in Gears(lines[..n]) ==> g.1 < n;
    }
  }

  /** Every gear is a symbol cell. */
  lemma GearsAreSymbols(lines: seq<string>)
    ensures forall g :: g in Gears(lines) ==>
      g.1 < |lines| && g.0 < |lines[g.1]| && SymbolsMap(lines)[g.1][g.0]
  {
    GearsSpec(lines);
  }

  /** A number touches the gear at `(gx, gy)` when one of the columns `[x, x + length)` lies
      in `[gx - 1, gx + 1]` and its line in `[gy - 1, gy + 1]`, both lower ends saturating
      at 0. */
  predicate Touches(num: Number, g: (nat, nat)) {
    num.length > 0 && num.x <= g.0 + 1 && SatSub1(g.0) < num.x + num.length &&
    SatSub1(g.1) <= num.y <= g.1 + 1
  }

  /** Column `c` belongs to the number and lies in the gear's column range. */
  predicate ColIn(num: Number, g: (nat, nat), c: int) {
    num.x <= c < num.x + num.length && SatSub1(g.0) <= c <= g.0 + 1
  }

  /** The overlap test above is exactly the column search of `gear_ratio`: a number touches
      the gear iff its line is in range and some column of it lies in the gear's column
      range. */
  lemma TouchesColumns(num: Number, g: (nat, nat))
    ensures Touches(num, g) <==>
      SatSub1(g.1) <= num.y <= g.1 + 1 && exists c :: ColIn(num, g, c)
  {
    if Touches(num, g) {
      var c := if num.x < SatSub1(g.0) then SatSub1(g.0) else num.x;
      assert ColIn(num, g, c);
    }
  }

  /** The indices of the numbers touching `g`, in order. */
  function TouchingIndices(nums: seq<Number>, g: (nat, nat)): (r: seq<nat>)
    ensures forall k :: 0 <= k < |r| ==> r[k] < |nums| && Touches(nums[r[k]], g)
    ensures forall k :: 0 <= k < |nums| && Touches(nums[k], g) ==> k in r
    ensures forall k1, k2 :: 0 <= k1 < k2 < |r| ==> r[k1] < r[k2]
  {
    if nums == [] then []
    else
      var n := |nums| - 1;
      TouchingIndices(nums[..n], g) + if Touches(nums[n], g) then [n] else []
  }

  /** `gear_ratio`: the product of the two numbers touching the gear, `None` unless
      exactly two touch it. */
  function GearRatio(g: (nat, nat), nums: seq<Number>): (r: Option<int>)
    ensures r.Some? ==> exists i, j :: ExactlyTwo(nums, g, i, j) && r.value == nums[i].value * nums[j].value
  {
    var ids := TouchingIndices(nums, g);
    if |ids| == 2 then
      assert ExactlyTwo(nums, g, ids[0], ids[1]);
      Some(nums[ids[0]].value * nums[ids[1]].value)
    else None
  }

  /** Numbers `i` and `j` are the only two touching `g`. */
  predicate ExactlyTwo(nums: seq<Number>, g: (nat, nat), i: int, j: int) {
    0 <= i < j < |nums| && Touches(nums[i], g) && Touches(nums[j], g) &&
    forall k :: 0 <= k < |nums| && Touches(nums[k], g) ==> k == i || k == j
  }

  /** A gear has a ratio exactly when two numbers, and no others, touch it; the ratio is the
      product of their values. */
  lemma GearRatioSpec(g: (nat, nat), nums: seq<Number>)
    ensures GearRatio(g, nums).Some? <==> exists i, j :: ExactlyTwo(nums, g, i, j)
    ensures forall i, j :: ExactlyTwo(nums, g, i, j) ==>
      GearRatio(g, nums) == Some(nums[i].value * nums[j].value)
  {
    var ids := TouchingIndices(nums, g);
    if |ids| == 2 {
      assert ExactlyTwo(nums, g, ids[0], ids[1]);
    }
    forall i, j | ExactlyTwo(nums, g, i, j)
      ensures GearRatio(g, nums) == Some(nums[i].value * nums[j].value)
    {
      assert i in ids && j in ids;
      AtMostTwo(ids, i, j);
    }
  }

  /** An increasing sequence holding `i < j` and only values among them is `[i, j]`. */
  lemma AtMostTwo(ids: seq<nat>, i: nat, j: nat)
    requires i < j && i in ids && j in ids
    requires forall k :: 0 <= k < |ids| ==> ids[k] == i || ids[k] == j
    requires forall k1, k2 :: 0 <= k1 < k2 < |ids| ==> ids[k1] < ids[k2]
    ensures ids == [i, j]
  {
    var a :| 0 <= a < |ids| && ids[a] == i;
    var b :| 0 <= b < |ids| && ids[b] == j;
    forall k | 0 <= k < |ids| ensures (ids[k] == i && k == a) || (ids[k] == j && k == b) {
      assert ids[k] == ids[a] || ids[k] == ids[b];
    }
    assert a < b;
    assert ids[0] == i && 0 == a;
    assert ids[1] == j && 1 == b;
    assert ids[|ids| - 1] == j && |ids| - 1 == b;
  }

  // ---------------------------------------------------------------- the last column

  /** A number with its length the full count of its digits, as the scan records it for
      runs ended by a non-digit; a run that reaches the end of the line is recorded one
      digit short, so that its last digit falls outside the columns `gear_ratio` tests. */
  function FullLength(lines: seq<string>, n: Number): (m: Number)
    ensures m.value == n.value && m.x == n.x && m.y == n.y
    ensures IsRunOf(lines, n) ==> m.length == RunEnd(lines[n.y], n.x) - n.x
  {
    if n.y < |lines| && n.x < |lines[n.y]| then n.(length := RunEnd(lines[n.y], n.x) - n.x) else n
  }

  function FullLengths(lines: seq<string>, nums: seq<Number>): seq<Number> {
    seq(|nums|, k requires 0 <= k < |nums| => FullLength(lines, nums[k]))
  }

  /** Digit `c` of the run that starts at `n.x` lies next to the gear `g`, or on it. */
  predicate DigitNear(lines: seq<string>, n: Number, g: (nat, nat), c: int)
    requires IsRunOf(lines, n)
  {
    n.x <= c < RunEnd(lines[n.y], n.x) && SatSub1(g.0) <= c <= g.0 + 1 &&
    SatSub1(g.1) <= n.y <= g.1 + 1
  }

  /** With full lengths, a number touches a gear exactly when one of its digits is one of
      the eight cells around the gear. */
  lemma FullLengthTouches(lines: seq<string>, n: Number, g: (nat, nat))
    requires IsRunOf(lines, n)
    ensures Touches(FullLength(lines, n), g) <==> exists c :: DigitNear(lines, n, g, c)
  {
    var e := RunEnd(lines[n.y], n.x);
    if Touches(FullLength(lines, n), g) {
      var c := if n.x < SatSub1(g.0) then SatSub1(g.0) else n.x;
      assert DigitNear(lines, n, g, c);
    }
  }

  /** The numbers of "2*5": 2 ended by '*' with its full length 1, and 5 at the end of the
      line with length 0. */
  lemma NumbersOfExample()
    ensures AllNumbers(["2*5"]) == [Number(2, 0, 0, 1), Number(5, 2, 0, 0)]
  {
    var line := "2*5";
    RunEndAt(line, 0, 1);
    RunEndAt(line, 2, 3);
    assert line[0..1] == "2" && line[2..] == "5";
    RunBefore(line, 0, 0, 1);
    RunAtEnd(line, 0, 2);
    assert ["2*5"][..0] == [];
  }

  /** The one gear of "2*5". */
  lemma GearsOfExample()
    ensures Gears(["2*5"]) == [(1, 0)]
  {
    assert ["2*5"][..0] == [];
    assert RowGears("2*5", 0, 3) == [];
  }

  /** With full lengths, 5 at the end of "2*5" has length 1 like 2. */
  lemma FullLengthsOfExample()
    ensures FullLengths(["2*5"], AllNumbers(["2*5"])) == [Number(2, 0, 0, 1), Number(5, 2, 0, 1)]
  {
    NumbersOfExample();
    RunEndAt("2*5", 0, 1);
    RunEndAt("2*5", 2, 3);
  }

  /** Of two numbers, a gear has a ratio when it touches both. */
  lemma GearRatioOfTwo(a: Number, b: Number, g: (nat, nat))
    ensures GearRatio(g, [a, b]) == if Touches(a, g) && Touches(b, g) then Some(a.value * b.value) else None
  {
    assert [a, b][..1] == [a];
    TouchingOfOne(a, g);
    assert TouchingIndices([a, b], g) == TouchingIndices([a], g) + if Touches(b, g) then [1] else [];
  }

  /** Of one number, those touching `g`. */
  lemma TouchingOfOne(a: Number, g: (nat, nat))
    ensures TouchingIndices([a], g) == if Touches(a, g) then [0] else []
  {
    assert [a][..0] == [];
  }

  /** The sum over the one gear of "2*5". */
  lemma RatioSumOfExample(nums: seq<Number>)
    ensures RatioSum(Gears(["2*5"]), nums) == GearRatio((1, 0), nums).GetOr(0)
  {
    GearsOfExample();
    assert [(1, 0)][..0] == [];
  }

  /** As written, the single digit at the end of "2*5" is recorded with length 0 and
      touches no gear, so the gear between 2 and 5 has no ratio and part 2 yields 0; with
      full lengths it yields 2 * 5. */
  lemma LastColumnCounterexample()
    ensures RatioSum(Gears(["2*5"]), AllNumbers(["2*5"])) == 0
    ensures RatioSum(Gears(["2*5"]), FullLengths(["2*5"], AllNumbers(["2*5"]))) == 10
  {
    var two, five, fullFive := Number(2, 0, 0, 1), Number(5, 2, 0, 0), Number(5, 2, 0, 1);
    NumbersOfExample();
    FullLengthsOfExample();
    assert !Touches(five, (1, 0)) && Touches(fullFive, (1, 0)) && Touches(two, (1, 0));
    GearRatioOfTwo(two, five, (1, 0));
    GearRatioOfTwo(two, fullFive, (1, 0));
    RatioSumOfExample([two, five]);
    RatioSumOfExample([two, fullFive]);
  }

  // ---------------------------------------------------------------- part 2

  /** The sum of the ratios of the gears that have one. */
  function RatioSum(gears: seq<(nat, nat)>, nums: seq<Number>): int {
    if gears == [] then 0
    else
      var n := |gears| - 1;
      RatioSum(gears[..n], nums) + GearRatio(gears[n], nums).GetOr(0)
  }

  /** `part2` as written: the ratios of all gears touching exactly two numbers, added up,
      with the lengths the scan records. */
  method Part2AsWritten(input: string) returns (r: int)
    ensures r == RatioSum(Gears(Lines(input)), AllNumbers(Lines(input)))
  {
    var lines := Lines(input);
    var nums := ScanNumbers(lines);
    r := RatioSum(Gears(lines), nums);
  }

  /** `part2` with every number's length the count of its digits. */
  method Part2(input: string) returns (r: int)
    ensures r == RatioSum(Gears(Lines(input)), FullLengths(Lines(input), AllNumbers(Lines(input))))
  {
    var lines := Lines(input);
    var nums := ScanNumbers(lines);
    r := RatioSum(Gears(lines), FullLengths(lines, nums));
  }
}
