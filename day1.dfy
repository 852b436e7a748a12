/** Day 1: calibration values. Each line contributes ten times its first digit plus its
    last digit; in part 2 a spelled-out digit word ("zero" .. "nine") counts as a digit too,
    and two words may share letters ("oneight" ends in "eight"). */
module Day1 {
  import opened Wrappers
  import opened Text

  /** `NUMS`: the digit words, each at the index of its value. */
  const Words: seq<string> :=
    ["zero", "one", "two", "three", "four", "five", "six", "seven", "eight", "nine"]

  function NumFrom(s: string, k: nat): (r: Option<nat>)
    requires k <= 10
    ensures r.Some? ==> k <= r.value < 10
    decreases 10 - k
  {
    if k == 10 then None
    else if Words[k] <= s then Some(k)
    else NumFrom(s, k + 1)
  }

  /** `num`: the value of the digit word `s` starts with, trying the words in order;
      `None` when `s` starts with no digit word. */
  function Num(s: string): (r: Option<nat>)
    ensures r.Some? ==> r.value < 10
  {
    NumFrom(s, 0)
  }

  lemma {:induction false} NumFromSpec(s: string, k: nat)
    requires k <= 10
    ensures NumFrom(s, k).Some? <==> exists j :: k <= j < 10 && Words[j] <= s
    ensures NumFrom(s, k).Some? ==> Words[NumFrom(s, k).value] <= s
    decreases 10 - k
  {
    if k < 10 && !(Words[k] <= s) {
      NumFromSpec(s, k + 1);
    }
  }

  /** `num` succeeds exactly when `s` starts with a digit word, and answers that word's value. */
  lemma NumSpec(s: string)
    ensures Num(s).Some? <==> exists k :: 0 <= k < 10 && Words[k] <= s
    ensures Num(s).Some? ==> Words[Num(s).value] <= s
  {
    NumFromSpec(s, 0);
  }

  /** Each digit word, whatever follows it, reads as its own value: no word is a
      prefix of another, so the order in which the words are tried does not matter. */
  lemma NumWord(k: nat, rest: string)
    requires k < 10
    ensures Num(Words[k] + rest) == Some(k)
  {
    var s := Words[k] + rest;
    assert Words[k] <= s;
    NumFromSpec(s, 0);
    forall j | 0 <= j < k ensures !(Words[j] <= s) {
      assert Words[j][1] != s[1] || Words[j][0] != s[0] || Words[j][2] != s[2];
    }
  }

  // ---------------------------------------------------------------- marks in a line

  /** A position that counts: a digit, or in part 2 also the start of a digit word. */
  predicate IsMark(line: string, i: nat, words: bool)
    requires i < |line|
  {
    IsDigit(line[i]) || (words && Num(line[i..]).Some?)
  }

  /** The value a mark stands for: the word's value when a word starts there, else the digit. */
  function MarkValue(line: string, i: nat, words: bool): (v: nat)
    requires i < |line| && IsMark(line, i, words)
    ensures v < 10
  {
    if words && Num(line[i..]).Some? then Num(line[i..]).value else DigitValue(line[i])
  }

  /** The leftmost mark at or after `i`. */
  function FirstFrom(line: string, words: bool, i: nat): (r: Option<nat>)
    requires i <= |line|
    ensures r.Some? ==> i <= r.value < |line| && IsMark(line, r.value, words)
    ensures forall k :: i <= k < |line| && (r.None? || k < r.value) ==> !IsMark(line, k, words)
    decreases |line| - i
  {
    if i == |line| then None
    else if IsMark(line, i, words) then Some(i)
    else FirstFrom(line, words, i + 1)
  }

  /** The rightmost mark before `i`. */
  function LastBefore(line: string, words: bool, i: nat): (r: Option<nat>)
    requires i <= |line|
    ensures r.Some? ==> r.value < i && IsMark(line, r.value, words)
    ensures forall k :: 0 <= k < i && (r.None? || r.value < k) ==> !IsMark(line, k, words)
  {
    if i == 0 then None
    else if IsMark(line, i - 1, words) then Some(i - 1)
    else LastBefore(line, words, i - 1)
  }

  /** The value of one line: ten times its first mark plus its last mark; `None` for a
      line without a mark, where the scan runs off the end of the line. */
  function LineSpec(line: string, words: bool): (r: Option<nat>)
    ensures r.Some? ==> r.value <= 99
  {
    var first := FirstFrom(line, words, 0);
    var last := LastBefore(line, words, |line|);
    if first.None? || last.None? then None
    else Some(10 * MarkValue(line, first.value, words) + MarkValue(line, last.value, words))
  }

  /** A line has a value exactly when it has a mark; the first and the last mark are
      then the leftmost and the rightmost, and the value is built from them. */
  lemma LineSpecMeaning(line: string, words: bool)
    ensures LineSpec(line, words).Some? <==> exists k :: 0 <= k < |line| && IsMark(line, k, words)
    ensures LineSpec(line, words).Some? ==>
      exists i, j :: 0 <= i <= j < |line| && IsMark(line, i, words) && IsMark(line, j, words) &&
        (forall k :: 0 <= k < i ==> !IsMark(line, k, words)) &&
        (forall k :: j < k < |line| ==> !IsMark(line, k, words)) &&
        LineSpec(line, words).value == 10 * MarkValue(line, i, words) + MarkValue(line, j, words)
  {
    var first := FirstFrom(line, words, 0);
    var last := LastBefore(line, words, |line|);
    if first.Some? {
      assert last.Some?;
    }
  }

  /** The forward `while` scan: from the start of the line to its first mark; `None`
      where the scan would index past the end of the line. */
  method ScanForward(line: string, words: bool) returns (r: Option<nat>)
    ensures r == FirstFrom(line, words, 0)
  {
    var i: nat := 0;
    while i < |line| && !IsMark(line, i, words)
      invariant i <= |line|
      invariant FirstFrom(line, words, 0) == FirstFrom(line, words, i)
    {
      i := i + 1;
    }
    if i == |line| {
      return None;
    }
    r := Some(i);
  }

  /** The backward `while` scan: from the end of the line to its last mark, which it
      reaches no later than the first mark. */
  method ScanBackward(line: string, words: bool, first: nat) returns (r: nat)
    requires first < |line| && IsMark(line, first, words)
    ensures LastBefore(line, words, |line|) == Some(r)
  {
    r := |line| - 1;
    while !IsMark(line, r, words)
      invariant first <= r < |line|
      invariant LastBefore(line, words, |line|) == LastBefore(line, words, r + 1)
      decreases r
    {
      r := r - 1;
    }
  }

  /** One line of either part: ten times the value at the first mark plus the value at
      the last mark. */
  method LineValue(line: string, words: bool) returns (r: Option<nat>)
    ensures r == LineSpec(line, words)
  {
    var first := ScanForward(line, words);
    if first.None? {
      return None;
    }
    var value := MarkValue(line, first.value, words) * 10;
    var last := ScanBackward(line, words, first.value);
    value := value + MarkValue(line, last, words);
    r := Some(value);
  }

  // ---------------------------------------------------------------- both parts

  /** The value of a line, as a function of the line alone. */
  function Marks(words: bool): string -> Option<nat> {
    (line: string) => LineSpec(line, words)
  }

  /** The values of all lines, or `None` when one of them has no mark. */
  function LineValues(lines: seq<string>, words: bool): (r: Option<seq<nat>>)
    ensures r.Some? ==> |r.value| == |lines|
    ensures r.Some? ==> forall k :: 0 <= k < |lines| ==> r.value[k] <= 99
  {
    ParseEachSpec(lines, Marks(words));
    ParseEach(lines, Marks(words))
  }

  /** A text has a total exactly when every line has a mark, and the values are the
      lines' values in order. */
  lemma LineValuesSpec(lines: seq<string>, words: bool)
    ensures LineValues(lines, words).Some? <==>
      forall k :: 0 <= k < |lines| ==> LineSpec(lines[k], words).Some?
    ensures LineValues(lines, words).Some? ==>
      forall k :: 0 <= k < |lines| ==> LineValues(lines, words).value[k] == LineSpec(lines[k], words).value
  {
    ParseEachSpec(lines, Marks(words));
  }

  /** The sum over the lines; a sum of line values is at most 99 per line. */
  function Total(lines: seq<string>, words: bool): (r: Option<int>)
    ensures r.Some? <==> LineValues(lines, words).Some?
    ensures r.Some? ==> 0 <= r.value <= 99 * |lines|
  {
    var values :- LineValues(lines, words);
    SumBounds(values);
    Some(Sum(values))
  }

  lemma {:induction false} SumBounds(xs: seq<int>)
    requires forall k :: 0 <= k < |xs| ==> 0 <= xs[k] <= 99
    ensures 0 <= Sum(xs) <= 99 * |xs|
  {
    if xs != [] {
      SumBounds(xs[1..]);
    }
  }

  method SumLines(s: string, words: bool) returns (r: Option<int>)
    ensures r == Total(Lines(s), words)
  {
    var lines := Lines(s);
    var values: seq<nat> := [];
    for k := 0 to |lines|
      invariant LineValues(lines[..k], words) == Some(values)
    {
      var v := LineValue(lines[k], words);
      if v.None? {
        LineValuesSpec(lines, words);
        return None;
      }
      ParseEachSnoc(lines, Marks(words), k);
      values := values + [v.value];
    }
    assert lines[..|lines|] == lines;
    r := Some(Sum(values));
  }

  /** `calibration_value`: part 1, digits only. */
  method CalibrationValue(s: string) returns (r: Option<int>)
    ensures r == Total(Lines(s), false)
  {
    r := SumLines(s, false);
  }

  /** `part2`: digits and digit words. */
  method Part2(s: string) returns (r: Option<int>)
    ensures r == Total(Lines(s), true)
  {
    r := SumLines(s, true);
  }

  /** Every digit word has at least three letters and starts with one of "zotfsen". */
  lemma WordShapes()
    ensures forall j :: 0 <= j < 10 ==> |Words[j]| >= 3 && Words[j][0] in "zotfsen"
  {
  }

  lemma NotAWord(s: string)
    requires |s| < 3 || s[0] !in "zotfsen"
    ensures Num(s) == None
  {
    WordShapes();
    NumFromSpec(s, 0);
    forall j | 0 <= j < 10 ensures !(Words[j] <= s) {
      if |s| >= 3 {
        assert Words[j][0] != s[0];
      }
    }
  }

  /** The first mark of "oneight" in part 2 is the "one" at column 0. */
  lemma OneightFirst()
    ensures FirstFrom("oneight", true, 0) == Some(0) && MarkValue("oneight", 0, true) == 1
  {
    var line := "oneight";
    NumWord(1, "ight");
    assert line[0..] == Words[1] + "ight";
  }

  /** The last mark of "oneight" in part 2 is the "eight" at column 2. */
  lemma OneightLast()
    ensures LastBefore("oneight", true, 7) == Some(2) && MarkValue("oneight", 2, true) == 8
  {
    var line := "oneight";
    NumWord(8, "");
    assert line[2..] == Words[8] + "";
    NotAWord(line[3..]);
    NotAWord(line[4..]);
    NotAWord(line[5..]);
    NotAWord(line[6..]);
    assert LastBefore(line, true, 3) == Some(2);
  }

  /** In part 2 a line made of two overlapping words reads both of them: the last mark of
      "oneight" is the "eight" that shares its 'e' with "one". */
  lemma OverlappingWords()
    ensures LineSpec("oneight", true) == Some(18)
  {
    OneightFirst();
    OneightLast();
  }
}
