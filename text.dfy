/** The pieces of Rust's `str` API the solvers rely on, over ASCII text:
    `lines`, `split` on a string pattern, `split_whitespace` and integer `parse`. */
module Text {
  import opened Wrappers

  predicate IsDigit(c: char) {
    '0' <= c <= '9'
  }

  function DigitValue(c: char): (d: nat)
    requires IsDigit(c)
    ensures d < 10
  {
    c as int - '0' as int
  }

  predicate AllDigits(s: string) {
    forall i :: 0 <= i < |s| ==> IsDigit(s[i])
  }

  /** `char::is_whitespace` restricted to ASCII: space, and tab through carriage return. */
  predicate IsWhitespace(c: char) {
    c == ' ' || '\t' <= c <= '\r'
  }

  /** The number a string of decimal digits denotes (most significant digit first). */
  function DecimalValue(s: string): nat
    requires AllDigits(s)
  {
    if s == [] then 0 else DecimalValue(s[..|s| - 1]) * 10 + DigitValue(s[|s| - 1])
  }

  /** `str::parse` for an unsigned type: an optional '+', then at least one digit, nothing else. */
  function ParseNat(s: string): Option<nat> {
    if |s| > 1 && s[0] == '+' && AllDigits(s[1..]) then Some(DecimalValue(s[1..]))
    else if |s| > 0 && AllDigits(s) then Some(DecimalValue(s))
    else None
  }

  /** Which strings parse as unsigned numbers, and to what. */
  lemma ParseNatSpec(s: string)
    ensures ParseNat(s).Some? <==>
      (|s| > 0 && AllDigits(s)) || (|s| > 1 && s[0] == '+' && AllDigits(s[1..]))
    ensures ParseNat(s).Some? && s[0] != '+' ==> ParseNat(s).value == DecimalValue(s)
    ensures ParseNat(s).Some? && s[0] == '+' ==> ParseNat(s).value == DecimalValue(s[1..])
  {
  }

  /** `str::parse` for a signed type: an optional '+' or '-', then at least one digit. */
  function ParseInt(s: string): Option<int> {
    if |s| > 1 && s[0] == '-' && AllDigits(s[1..]) then Some(-(DecimalValue(s[1..]) as int))
    else match ParseNat(s)
      case Some(n) => Some(n)
      case None => None
  }

  /** Which strings parse as signed numbers, and what a leading '-' does. */
  lemma ParseIntSpec(s: string)
    ensures ParseInt(s).Some? <==>
      (|s| > 0 && AllDigits(s)) || (|s| > 1 && (s[0] == '+' || s[0] == '-') && AllDigits(s[1..]))
    ensures ParseInt(s).Some? && |s| > 1 && s[0] == '-' ==> ParseInt(s).value == -(DecimalValue(s[1..]) as int)
    ensures ParseInt(s).Some? && s[0] != '-' ==> ParseInt(s) == ParseNat(s)
  {
    if |s| > 1 && s[0] == '-' {
      assert !IsDigit(s[0]);
    }
  }

  /** True when `sep` occurs in `s` starting at index `i`. */
  predicate OccursAt(s: string, sep: string, i: nat) {
    i + |sep| <= |s| && s[i..i + |sep|] == sep
  }

  predicate Contains(s: string, sep: string) {
    exists i: nat | i <= |s| :: OccursAt(s, sep, i)
  }

  /** The leftmost occurrence of `sep` in `s` at or after `from`. */
  function IndexOf(s: string, sep: string, from: nat): (r: Option<nat>)
    requires from <= |s|
    ensures r.Some? ==> from <= r.value && OccursAt(s, sep, r.value)
    ensures forall j: nat :: from <= j && (r.None? || j < r.value) ==> !OccursAt(s, sep, j)
    decreases |s| - from
  {
    if from + |sep| > |s| then None
    else if s[from..from + |sep|] == sep then Some(from)
    else IndexOf(s, sep, from + 1)
  }

  /** `str::split` with a string pattern: cut at the leftmost non-overlapping occurrences. */
  function SplitOn(s: string, sep: string): (r: seq<string>)
    requires |sep| > 0
    ensures |r| >= 1
    ensures forall k :: 0 <= k < |r| ==> !Contains(r[k], sep)
    decreases |s|
  {
    match IndexOf(s, sep, 0)
    case None => [s]
    case Some(i) =>
      var head := s[..i];
      assert !Contains(head, sep) by {
        forall j: nat | OccursAt(head, sep, j) ensures false {
          assert head[j..j + |sep|] == s[j..j + |sep|];
          assert OccursAt(s, sep, j);
        }
      }
      [head] + SplitOn(s[i + |sep|..], sep)
  }

  /** The inverse of `SplitOn`: the pieces glued back together with `sep`. */
  function Join(parts: seq<string>, sep: string): string
    requires |parts| >= 1
  {
    if |parts| == 1 then parts[0] else parts[0] + sep + Join(parts[1..], sep)
  }

  lemma {:induction false} JoinSplitOn(s: string, sep: string)
    requires |sep| > 0
    ensures Join(SplitOn(s, sep), sep) == s
    decreases |s|
  {
    match IndexOf(s, sep, 0)
    case None =>
    case Some(i) =>
      var rest := s[i + |sep|..];
      var parts := SplitOn(rest, sep);
      JoinSplitOn(rest, sep);
      assert SplitOn(s, sep) == [s[..i]] + parts;
      assert ([s[..i]] + parts)[1..] == parts;
      assert Join([s[..i]] + parts, sep) == s[..i] + sep + rest;
      assert s[i..i + |sep|] == sep;
      assert s == s[..i] + s[i..i + |sep|] + rest;
  }

  /** Piece `n` of a split, as `.nth(n)` (or `.skip(n).next()`) gives it. */
  function Nth(parts: seq<string>, n: nat): (r: Option<string>)
    ensures r.Some? <==> n < |parts|
    ensures r.Some? ==> r.value == parts[n]
  {
    if n < |parts| then Some(parts[n]) else None
  }

  /** A line that ended in "\r\n" loses its carriage return. */
  function StripCR(line: string): (r: string)
    ensures r == line || r + "\r" == line
  {
    if |line| > 0 && line[|line| - 1] == '\r' then line[..|line| - 1] else line
  }

  /** Dropping a carriage return adds no separator. */
  lemma StripCRKeepsOut(line: string, sep: string)
    requires !Contains(line, sep)
    ensures !Contains(StripCR(line), sep)
  {
    var r := StripCR(line);
    forall j: nat | OccursAt(r, sep, j) ensures false {
      assert r == line[..|r|];
      assert r[j..j + |sep|] == line[j..j + |sep|];
      assert OccursAt(line, sep, j);
    }
  }

  /** `str::lines`: cut at every '\n', drop the '\r' of a "\r\n" ending (a lone '\r' is
      kept), and a final line terminator does not start an extra empty line. */
  function Lines(s: string): (r: seq<string>)
    ensures forall k :: 0 <= k < |r| ==> !Contains(r[k], "\n")
  {
    var parts := SplitOn(s, "\n");
    var n := |parts| - 1;
    var body := seq(n, k requires 0 <= k < n => StripCR(parts[k]));
    assert forall k :: 0 <= k < n ==> !Contains(body[k], "\n") by {
      forall k | 0 <= k < n ensures !Contains(body[k], "\n") {
        StripCRKeepsOut(parts[k], "\n");
      }
    }
    if parts[n] == "" then body else body + [parts[n]]
  }

  /** A "\r\n" ending loses its carriage return, a lone '\r' before the end does not, and
      the final terminator adds no line. */
  lemma LinesCRLF()
    ensures Lines("ab\r\nc\r\n") == ["ab", "c"]
    ensures Lines("ab\r") == ["ab\r"]
  {
    var s := "ab\r\nc\r\n";
    assert s[3..4] == "\n";
    assert s[2..3] != "\n" && s[1..2] != "\n" && s[0..1] != "\n";
    assert IndexOf(s, "\n", 3) == Some(3);
    assert IndexOf(s, "\n", 2) == Some(3);
    assert IndexOf(s, "\n", 1) == Some(3);
    assert IndexOf(s, "\n", 0) == Some(3);
    var t := s[4..];
    assert t == "c\r\n";
    assert t[2..3] == "\n" && t[1..2] != "\n" && t[0..1] != "\n";
    assert IndexOf(t, "\n", 2) == Some(2);
    assert IndexOf(t, "\n", 1) == Some(2);
    assert IndexOf(t, "\n", 0) == Some(2);
    assert t[3..] == "" && t[..2] == "c\r" && s[..3] == "ab\r";
    assert SplitOn("", "\n") == [""];
    assert SplitOn(t, "\n") == ["c\r"] + [""];
    assert SplitOn(s, "\n") == ["ab\r"] + ["c\r", ""];
    assert StripCR("ab\r") == "ab" && StripCR("c\r") == "c";
    var u := "ab\r";
    assert u[2..3] != "\n" && u[1..2] != "\n" && u[0..1] != "\n";
    assert IndexOf(u, "\n", 2) == None;
    assert IndexOf(u, "\n", 1) == None;
    assert IndexOf(u, "\n", 0) == None;
  }

  /** Length of the run of non-whitespace characters at the start of `s`. */
  function TokenLength(s: string): (n: nat)
    ensures n <= |s|
    ensures forall i :: 0 <= i < n ==> !IsWhitespace(s[i])
    ensures n == |s| || IsWhitespace(s[n])
  {
    if s == [] || IsWhitespace(s[0]) then 0 else 1 + TokenLength(s[1..])
  }

  /** `str::split_whitespace`: the maximal runs of non-whitespace characters, in order. */
  function SplitWhitespace(s: string): (r: seq<string>)
    ensures forall k :: 0 <= k < |r| ==> |r[k]| > 0
    ensures forall k, i :: 0 <= k < |r| && 0 <= i < |r[k]| ==> !IsWhitespace(r[k][i])
    decreases |s|
  {
    if s == [] then []
    else if IsWhitespace(s[0]) then SplitWhitespace(s[1..])
    else
      var n := TokenLength(s);
      [s[..n]] + SplitWhitespace(s[n..])
  }

  /** Parses every element, failing when one of them fails. */
  function ParseAllNat(tokens: seq<string>): (r: Option<seq<nat>>)
    ensures r.Some? ==> |r.value| == |tokens|
    ensures r.Some? <==> forall k :: 0 <= k < |tokens| ==> ParseNat(tokens[k]).Some?
    ensures r.Some? ==> forall k :: 0 <= k < |tokens| ==> r.value[k] == ParseNat(tokens[k]).value
  {
    if tokens == [] then Some([])
    else match (ParseNat(tokens[0]), ParseAllNat(tokens[1..]))
      case (Some(x), Some(xs)) => Some([x] + xs)
      case _ => None
  }

  function ParseAllInt(tokens: seq<string>): (r: Option<seq<int>>)
    ensures r.Some? ==> |r.value| == |tokens|
    ensures r.Some? <==> forall k :: 0 <= k < |tokens| ==> ParseInt(tokens[k]).Some?
    ensures r.Some? ==> forall k :: 0 <= k < |tokens| ==> r.value[k] == ParseInt(tokens[k]).value
  {
    if tokens == [] then Some([])
    else match (ParseInt(tokens[0]), ParseAllInt(tokens[1..]))
      case (Some(x), Some(xs)) => Some([x] + xs)
      case _ => None
  }

  function Sum(xs: seq<int>): int {
    if xs == [] then 0 else xs[0] + Sum(xs[1..])
  }

  function Product(xs: seq<int>): int {
    if xs == [] then 1 else xs[0] * Product(xs[1..])
  }

  lemma {:induction false} SumAppend(xs: seq<int>, ys: seq<int>)
    ensures Sum(xs + ys) == Sum(xs) + Sum(ys)
  {
    if xs != [] {
      assert (xs + ys)[1..] == xs[1..] + ys;
      SumAppend(xs[1..], ys);
    } else {
      assert xs + ys == ys;
    }
  }

  /** The running total of a loop over lines that adds `score(line, position)` for each
      line in turn, positions counted from 1; `None` at the first line whose score panics. */
  function SumLines(lines: seq<string>, score: (string, nat) -> Option<int>): Option<int> {
    if lines == [] then Some(0)
    else
      var n := |lines| - 1;
      var t :- SumLines(lines[..n], score);
      var x :- score(lines[n], n + 1);
      Some(t + x)
  }

  /** One more turn of the loop: the next line's score is added, or the loop panics. */
  lemma SumLinesSnoc(lines: seq<string>, score: (string, nat) -> Option<int>, idx: nat)
    requires idx < |lines|
    ensures SumLines(lines[..idx + 1], score) ==
      var t := SumLines(lines[..idx], score);
      var x := score(lines[idx], idx + 1);
      if t.Some? && x.Some? then Some(t.value + x.value) else None
  {
    assert lines[..idx + 1][..idx] == lines[..idx];
  }

  /** One more turn of the loop from a running total `total`, with `x` the next line's score. */
  lemma SumLinesStep(lines: seq<string>, score: (string, nat) -> Option<int>, idx: nat, total: int, x: Option<int>)
    requires idx < |lines| && SumLines(lines[..idx], score) == Some(total)
    requires x == score(lines[idx], idx + 1)
    ensures SumLines(lines[..idx + 1], score) == if x.Some? then Some(total + x.value) else None
  {
    SumLinesSnoc(lines, score, idx);
  }

  /** The loop finishes exactly when no line's score panics. */
  lemma {:induction false} SumLinesSome(lines: seq<string>, score: (string, nat) -> Option<int>)
    ensures SumLines(lines, score).Some? <==>
      forall k :: 0 <= k < |lines| ==> score(lines[k], k + 1).Some?
  {
    if lines != [] {
      var n := |lines| - 1;
      SumLinesSome(lines[..n], score);
      assert forall k :: 0 <= k < n ==> lines[..n][k] == lines[k];
    }
  }

  /** Once the loop panics on a prefix of the lines, it panics on all of them. */
  lemma SumLinesPrefixFails(lines: seq<string>, score: (string, nat) -> Option<int>, k: nat)
    requires k <= |lines| && SumLines(lines[..k], score).None?
    ensures SumLines(lines, score).None?
  {
    SumLinesSome(lines[..k], score);
    SumLinesSome(lines, score);
    var j :| 0 <= j < k && score(lines[..k][j], j + 1).None?;
    assert lines[..k][j] == lines[j];
  }

  /** Every item parsed by `f`, in order, as a `collect` of `unwrap`s does it; `None` when
      some item does not parse. */
  function ParseEach<S, T>(items: seq<S>, f: S -> Option<T>): (r: Option<seq<T>>)
    ensures r.Some? ==> |r.value| == |items|
  {
    if items == [] then Some([])
    else
      var n := |items| - 1;
      var init :- ParseEach(items[..n], f);
      var last :- f(items[n]);
      Some(init + [last])
  }

  /** The items parse exactly when each of them does, and each gives its own value. */
  lemma {:induction false} ParseEachSpec<S, T>(items: seq<S>, f: S -> Option<T>)
    ensures ParseEach(items, f).Some? <==> forall k :: 0 <= k < |items| ==> f(items[k]).Some?
    ensures ParseEach(items, f).Some? ==>
      forall k :: 0 <= k < |items| ==> ParseEach(items, f).value[k] == f(items[k]).value
  {
    if items != [] {
      var n := |items| - 1;
      ParseEachSpec(items[..n], f);
      assert forall k :: 0 <= k < n ==> items[..n][k] == items[k];
    }
  }

  /** One more item parsed: the values grow by its value, or parsing fails. */
  lemma ParseEachSnoc<S, T>(items: seq<S>, f: S -> Option<T>, k: nat)
    requires k < |items|
    ensures ParseEach(items[..k + 1], f) ==
      var init := ParseEach(items[..k], f);
      var last := f(items[k]);
      if init.Some? && last.Some? then Some(init.value + [last.value]) else None
  {
    var prefix := items[..k + 1];
    assert prefix[..k] == items[..k];
    assert prefix[k] == items[k];
  }

  /** The same step for a slice `items[start..pos + 1]`. */
  lemma ParseEachSliceSnoc<S, T>(items: seq<S>, f: S -> Option<T>, start: nat, pos: nat)
    requires start <= pos < |items|
    ensures ParseEach(items[start..pos + 1], f) ==
      var init := ParseEach(items[start..pos], f);
      var last := f(items[pos]);
      if init.Some? && last.Some? then Some(init.value + [last.value]) else None
  {
    var block := items[start..pos + 1];
    ParseEachSnoc(block, f, pos - start);
    assert block[..pos - start] == items[start..pos];
    assert block[..pos - start + 1] == block;
  }
}
