/** Day 2: the cube game. Each line is "Game N: " followed by sets separated by "; ",
    each set being draws "COUNT COLOUR" separated by ", ". Part 1 adds up the positions of
    the games whose every draw fits the cubes available; part 2 adds up, per game, the
    product of the largest count seen of each colour. */
module Day2 {
  import opened Wrappers
  import opened Text

  datatype Colour = Red | Green | Blue

  datatype Draw = Draw(count: nat, colour: Colour)

  /** Slot of a colour in the `available` array: red, green, blue. */
  function Slot(c: Colour): (k: nat)
    ensures k < 3
  {
    match c
    case Red => 0
    case Green => 1
    case Blue => 2
  }

  function ColourOf(s: string): (r: Option<Colour>)
    ensures r == Some(Red) <==> s == "red"
    ensures r == Some(Green) <==> s == "green"
    ensures r == Some(Blue) <==> s == "blue"
  {
    if s == "red" then Some(Red)
    else if s == "green" then Some(Green)
    else if s == "blue" then Some(Blue)
    else None
  }

  // ---------------------------------------------------------------- split

  function Flatten(xss: seq<seq<string>>): (r: seq<string>)
    ensures |xss| == 0 ==> r == []
  {
    if xss == [] then [] else xss[0] + Flatten(xss[1..])
  }

  /** `split` for one line: the text after ": ", cut into sets at "; " and into draws at
      ", ", the draws of all sets in order; `None` when the line has no ": ". */
  function RawDraws(line: string): (r: Option<seq<string>>)
    ensures r.Some? <==> |SplitOn(line, ": ")| >= 2
  {
    var field :- Nth(SplitOn(line, ": "), 1);
    var sets := SplitOn(field, "; ");
    Some(Flatten(seq(|sets|, i requires 0 <= i < |sets| => SplitOn(sets[i], ", "))))
  }

  /** One draw: `splitn(2, ' ')`, the count parsed as a `u32`, the rest a colour name;
      `None` when there is no space, the count does not parse or the colour is unknown. */
  function ParseDraw(part: string): Option<Draw> {
    match IndexOf(part, " ", 0)
    case None => None
    case Some(i) =>
      var n :- ParseNat(part[..i]);
      var c :- ColourOf(part[i + 1..]);
      Some(Draw(n, c))
  }

  lemma SpaceOccurs(part: string)
    ensures forall j: nat :: OccursAt(part, " ", j) ==> j < |part| && part[j] == ' '
  {
    forall j: nat | OccursAt(part, " ", j) ensures j < |part| && part[j] == ' ' {
      assert part[j..j + 1][0] == part[j];
    }
  }

  /** A draw without a space does not parse. */
  lemma ParseDrawNoSpace(part: string)
    requires forall j :: 0 <= j < |part| ==> part[j] != ' '
    ensures ParseDraw(part) == None
  {
    SpaceOccurs(part);
  }

  /** At its first space a draw splits into the count before it and the colour after it;
      it parses exactly when both halves do. */
  lemma ParseDrawAt(part: string, i: nat)
    requires i < |part| && part[i] == ' '
    requires forall j :: 0 <= j < i ==> part[j] != ' '
    ensures ParseDraw(part) ==
      if ParseNat(part[..i]).Some? && ColourOf(part[i + 1..]).Some?
      then Some(Draw(ParseNat(part[..i]).value, ColourOf(part[i + 1..]).value))
      else None
  {
    assert part[i..i + 1] == " ";
    assert OccursAt(part, " ", i);
    SpaceOccurs(part);
  }

  /** The converse: a draw that parses has a first space, with its count before it and its
      colour after it. */
  lemma ParseDrawShape(part: string)
    requires ParseDraw(part).Some?
    ensures exists i ::
      && 0 <= i < |part| && part[i] == ' '
      && (forall j :: 0 <= j < i ==> part[j] != ' ')
      && ParseNat(part[..i]) == Some(ParseDraw(part).value.count)
      && ColourOf(part[i + 1..]) == Some(ParseDraw(part).value.colour)
  {
    var i := IndexOf(part, " ", 0).value;
    SpaceOccurs(part);
    assert part[i] == ' ';
    forall j | 0 <= j < i ensures part[j] != ' ' {
      assert !OccursAt(part, " ", j);
      assert part[j..j + 1] == [part[j]];
    }
  }

  // ---------------------------------------------------------------- part 1

  predicate Fits(d: Draw, available: seq<nat>)
    requires |available| == 3
  {
    d.count <= available[Slot(d.colour)]
  }

  /** The check of one game in part 1: draws are parsed one after the other and the game
      is rejected at the first draw that does not fit; draws after it are never looked at. */
  function GameCheck(draws: seq<string>, available: seq<nat>): (r: Option<bool>)
    requires |available| == 3
    ensures r == Some(false) ==>
      exists k :: 0 <= k < |draws| && ParseDraw(draws[k]).Some? && !Fits(ParseDraw(draws[k]).value, available)
    ensures r.None? ==> exists k :: 0 <= k < |draws| && ParseDraw(draws[k]).None?
  {
    if draws == [] then Some(true)
    else
      assert forall k :: 1 <= k < |draws| ==> draws[1..][k - 1] == draws[k];
      var d :- ParseDraw(draws[0]);
      if Fits(d, available) then GameCheck(draws[1..], available) else Some(false)
  }

  /** A game passes exactly when every draw parses and fits. */
  lemma {:induction false} GameCheckPasses(draws: seq<string>, available: seq<nat>)
    requires |available| == 3
    ensures GameCheck(draws, available) == Some(true) <==>
      forall k :: 0 <= k < |draws| ==>
        ParseDraw(draws[k]).Some? && Fits(ParseDraw(draws[k]).value, available)
  {
    if draws != [] {
      GameCheckPasses(draws[1..], available);
      assert forall k :: 1 <= k < |draws| ==> draws[1..][k - 1] == draws[k];
    }
  }

  /** A draw that does not fit ends the check: whatever comes after it, even text that
      would not parse, is never read. */
  lemma {:induction false} GameCheckStops(ok: seq<string>, bad: string, rest: seq<string>, available: seq<nat>)
    requires |available| == 3
    requires forall k :: 0 <= k < |ok| ==>
      ParseDraw(ok[k]).Some? && Fits(ParseDraw(ok[k]).value, available)
    requires ParseDraw(bad).Some? && !Fits(ParseDraw(bad).value, available)
    ensures GameCheck(ok + [bad] + rest, available) == Some(false)
  {
    if ok != [] {
      assert (ok + [bad] + rest)[1..] == ok[1..] + [bad] + rest;
      GameCheckStops(ok[1..], bad, rest, available);
    } else {
      assert (ok + [bad] + rest)[1..] == rest;
    }
  }

  /** The draw loops of part 1 for one game, with the early `continue 'uwu`. */
  method CheckGame(draws: seq<string>, available: seq<nat>) returns (valid: Option<bool>)
    requires |available| == 3
    ensures valid == GameCheck(draws, available)
  {
    var k := 0;
    while k < |draws|
      invariant k <= |draws|
      invariant GameCheck(draws, available) == GameCheck(draws[k..], available)
    {
      assert draws[k..][1..] == draws[k + 1..];
      var d := ParseDraw(draws[k]);
      if d.None? {
        return None;
      }
      if !Fits(d.value, available) {
        return Some(false);
      }
      k := k + 1;
    }
    valid := Some(true);
  }

  function GameValid(line: string, available: seq<nat>): Option<bool>
    requires |available| == 3
  {
    var draws :- RawDraws(line);
    GameCheck(draws, available)
  }

  /** One line of part 1: its draws, checked by the draw loops. */
  method CheckLine(line: string, available: seq<nat>) returns (valid: Option<bool>)
    requires |available| == 3
    ensures valid == GameValid(line, available)
  {
    var draws := RawDraws(line);
    if draws.None? {
      return None;
    }
    valid := CheckGame(draws.value, available);
  }

  /** What line `pos` adds to part 1's total: its position when its game passes. */
  function GameScore(line: string, available: seq<nat>, pos: nat): Option<int>
    requires |available| == 3
  {
    var ok :- GameValid(line, available);
    Some(if ok then pos else 0)
  }

  /** Part 1's total over the lines: each passing game adds its 1-based line position
      (not the number written after "Game"). */
  function Part1Total(lines: seq<string>, available: seq<nat>): Option<int>
    requires |available| == 3
  {
    SumLines(lines, (line: string, pos: nat) => GameScore(line, available, pos))
  }

  /** 1 + 2 + ... + n. */
  function Triangle(n: nat): nat {
    if n == 0 then 0 else Triangle(n - 1) + n
  }

  lemma {:induction false} TriangleFormula(n: nat)
    ensures 2 * Triangle(n) == n * (n + 1)
  {
    if n > 0 {
      TriangleFormula(n - 1);
    }
  }

  /** A line adds its position when its game passes, 0 when it fails. */
  lemma GameScoreValues(line: string, available: seq<nat>, pos: nat)
    requires |available| == 3
    ensures GameScore(line, available, pos).Some? <==> GameValid(line, available).Some?
    ensures GameValid(line, available) == Some(true) ==> GameScore(line, available, pos) == Some(pos)
    ensures GameValid(line, available) == Some(false) ==> GameScore(line, available, pos) == Some(0)
  {
  }

  /** A loop over lines that adds, for each line, either 0 or its position totals at most
      1 + 2 + ... + n, and reaches it exactly when every line adds its position. */
  lemma {:induction false} PositionSum(lines: seq<string>, score: (string, nat) -> Option<int>)
    requires forall k :: 0 <= k < |lines| ==>
      score(lines[k], k + 1).None? || score(lines[k], k + 1) == Some(0) || score(lines[k], k + 1) == Some(k + 1)
    ensures SumLines(lines, score).Some? ==>
      0 <= SumLines(lines, score).value <= Triangle(|lines|) &&
      (SumLines(lines, score).value == Triangle(|lines|) <==>
        forall k :: 0 <= k < |lines| ==> score(lines[k], k + 1) == Some(k + 1))
  {
    if lines != [] {
      var n := |lines| - 1;
      assert forall k :: 0 <= k < n ==> lines[..n][k] == lines[k];
      PositionSum(lines[..n], score);
    }
  }

  /** The total is at most 1 + 2 + ... + n, and reaches it exactly when every game passes. */
  lemma Part1Bounds(lines: seq<string>, available: seq<nat>)
    requires |available| == 3
    ensures Part1Total(lines, available).Some? ==>
      0 <= Part1Total(lines, available).value <= Triangle(|lines|) &&
      (Part1Total(lines, available).value == Triangle(|lines|) <==>
        forall k :: 0 <= k < |lines| ==> GameValid(lines[k], available) == Some(true))
  {
    var score := (line: string, pos: nat) => GameScore(line, available, pos);
    forall k | 0 <= k < |lines|
      ensures score(lines[k], k + 1).None? || score(lines[k], k + 1) == Some(0) || score(lines[k], k + 1) == Some(k + 1)
      ensures score(lines[k], k + 1) == Some(k + 1) <==> GameValid(lines[k], available) == Some(true)
    {
      GameScoreValues(lines[k], available, k + 1);
    }
    PositionSum(lines, score);
  }

  /** `part1`: over the lines, in order, with the running `total`. */
  method Part1(input: string, available: seq<nat>) returns (r: Option<int>)
    requires |available| == 3
    ensures r == Part1Total(Lines(input), available)
  {
    r := SumValidGames(Lines(input), available);
  }

  method SumValidGames(lines: seq<string>, available: seq<nat>) returns (r: Option<int>)
    requires |available| == 3
    ensures r == Part1Total(lines, available)
  {
    var total := 0;
    for idx := 0 to |lines|
      invariant Part1Total(lines[..idx], available) == Some(total)
    {
      var next := AddGame(lines, available, idx, total);
      if next.None? {
        SumLinesPrefixFails(lines, (line: string, pos: nat) => GameScore(line, available, pos), idx + 1);
        return None;
      }
      total := next.value;
    }
    assert lines[..|lines|] == lines;
    r := Some(total);
  }

  /** The body of part 1's loop for the line at position `pos`: the position when the
      game passes, 0 when it does not. */
  method ScoreLine(line: string, available: seq<nat>, pos: nat) returns (r: Option<int>)
    requires |available| == 3
    ensures r == GameScore(line, available, pos)
  {
    var valid := CheckLine(line, available);
    if valid.None? {
      return None;
    }
    r := Some(if valid.value then pos else 0);
  }

  /** One turn of part 1's loop: the position of line `idx` is added when its game passes. */
  method AddGame(lines: seq<string>, available: seq<nat>, idx: nat, total: int) returns (r: Option<int>)
    requires |available| == 3 && idx < |lines|
    requires Part1Total(lines[..idx], available) == Some(total)
    ensures r == Part1Total(lines[..idx + 1], available)
  {
    var score := ScoreLine(lines[idx], available, idx + 1);
    SumLinesStep(lines, (line: string, pos: nat) => GameScore(line, available, pos), idx, total, score);
    if score.None? {
      return None;
    }
    r := Some(total + score.value);
  }

  /** A game that cannot be checked makes the whole of part 1 fail. */
  lemma Part1Fails(lines: seq<string>, available: seq<nat>, idx: nat)
    requires |available| == 3 && idx < |lines|
    requires GameValid(lines[idx], available).None?
    ensures Part1Total(lines, available).None?
  {
    SumLinesSome(lines, (line: string, pos: nat) => GameScore(line, available, pos));
  }

  // ---------------------------------------------------------------- part 2

  /** Every draw of a game parsed, or `None` at the first one that does not parse. */
  function ParseDraws(draws: seq<string>): (r: Option<seq<Draw>>)
    ensures r.Some? ==> |r.value| == |draws|
  {
    if draws == [] then Some([])
    else
      var n := |draws| - 1;
      var init :- ParseDraws(draws[..n]);
      var d :- ParseDraw(draws[n]);
      Some(init + [d])
  }

  lemma {:induction false} ParseDrawsSpec(draws: seq<string>)
    ensures ParseDraws(draws).Some? <==> forall k :: 0 <= k < |draws| ==> ParseDraw(draws[k]).Some?
    ensures ParseDraws(draws).Some? ==>
      forall k :: 0 <= k < |draws| ==> ParseDraws(draws).value[k] == ParseDraw(draws[k]).value
  {
    if draws != [] {
      var n := |draws| - 1;
      ParseDrawsSpec(draws[..n]);
      assert forall k :: 0 <= k < n ==> draws[..n][k] == draws[k];
    }
  }

  /** The largest count of colour `c` among the draws, 0 when `c` is never drawn. */
  function MaxOf(ds: seq<Draw>, c: Colour): nat {
    if ds == [] then 0
    else
      var n := |ds| - 1;
      var m := MaxOf(ds[..n], c);
      if ds[n].colour == c && ds[n].count > m then ds[n].count else m
  }

  /** The maximum bounds every count of its colour and is one of them, or 0 when the
      colour is absent. */
  lemma {:induction false} MaxOfSpec(ds: seq<Draw>, c: Colour)
    ensures forall k :: 0 <= k < |ds| && ds[k].colour == c ==> ds[k].count <= MaxOf(ds, c)
    ensures (forall k :: 0 <= k < |ds| ==> ds[k].colour != c) ==> MaxOf(ds, c) == 0
    ensures (exists k :: 0 <= k < |ds| && ds[k].colour == c) ==>
      exists k :: 0 <= k < |ds| && ds[k].colour == c && ds[k].count == MaxOf(ds, c)
  {
    if ds != [] {
      var n := |ds| - 1;
      MaxOfSpec(ds[..n], c);
      assert forall k :: 0 <= k < n ==> ds[..n][k] == ds[k];
      if ds[n].colour == c && ds[n].count >= MaxOf(ds[..n], c) {
        assert ds[n].count == MaxOf(ds, c);
      }
    }
  }

  datatype Maxima = Maxima(red: nat, green: nat, blue: nat)

  function GameMaxima(draws: seq<string>): Option<Maxima> {
    var ds :- ParseDraws(draws);
    Some(Maxima(MaxOf(ds, Red), MaxOf(ds, Green), MaxOf(ds, Blue)))
  }

  /** One more draw parsed: the parsed draws grow by it, or parsing fails. */
  lemma ParseDrawsSnoc(draws: seq<string>, k: nat)
    requires k < |draws|
    ensures ParseDraws(draws[..k + 1]) ==
      var init := ParseDraws(draws[..k]);
      var d := ParseDraw(draws[k]);
      if init.Some? && d.Some? then Some(init.value + [d.value]) else None
  {
    var prefix := draws[..k + 1];
    assert prefix[..k] == draws[..k];
    assert prefix[k] == draws[k];
  }

  /** Once a prefix of the draws fails to parse, so do all of them. */
  lemma ParseDrawsPrefixFails(draws: seq<string>, k: nat)
    requires k <= |draws| && ParseDraws(draws[..k]).None?
    ensures ParseDraws(draws).None?
  {
    ParseDrawsSpec(draws[..k]);
    ParseDrawsSpec(draws);
    var j :| 0 <= j < k && ParseDraw(draws[..k][j]).None?;
    assert draws[..k][j] == draws[j];
  }

  /** The maximum of one colour after one more draw. */
  lemma MaxOfSnoc(ds: seq<Draw>, d: Draw, c: Colour)
    ensures MaxOf(ds + [d], c) == if d.colour == c && d.count > MaxOf(ds, c) then d.count else MaxOf(ds, c)
  {
    assert (ds + [d])[..|ds|] == ds;
  }

  /** The draw loops of part 2 for one game: `max_red`, `max_green`, `max_blue` raised
      draw by draw. */
  method FindMaxima(draws: seq<string>) returns (r: Option<Maxima>)
    ensures r == GameMaxima(draws)
  {
    var maxRed, maxGreen, maxBlue := 0, 0, 0;
    ghost var ds: seq<Draw> := [];
    for k := 0 to |draws|
      invariant ParseDraws(draws[..k]) == Some(ds)
      invariant maxRed == MaxOf(ds, Red) && maxGreen == MaxOf(ds, Green) && maxBlue == MaxOf(ds, Blue)
    {
      ParseDrawsSnoc(draws, k);
      var d := ParseDraw(draws[k]);
      if d.None? {
        ParseDrawsPrefixFails(draws, k + 1);
        return None;
      }
      var Draw(count, colour) := d.value;
      match colour {
        case Red => maxRed := if maxRed < count then count else maxRed;
        case Green => maxGreen := if maxGreen < count then count else maxGreen;
        case Blue => maxBlue := if maxBlue < count then count else maxBlue;
      }
      MaxOfSnoc(ds, d.value, Red);
      MaxOfSnoc(ds, d.value, Green);
      MaxOfSnoc(ds, d.value, Blue);
      ds := ds + [d.value];
    }
    assert draws[..|draws|] == draws;
    r := Some(Maxima(maxRed, maxGreen, maxBlue));
  }

  /** `a * b` by repeated addition, so that proofs about the totals need no nonlinear
      arithmetic; `MulIsProduct` ties it to `*`. */
  function Mul(a: int, b: nat): int {
    if b == 0 then 0 else Mul(a, b - 1) + a
  }

  lemma {:induction false} MulIsProduct(a: int, b: nat)
    ensures Mul(a, b) == a * b
  {
    if b > 0 {
      MulIsProduct(a, b - 1);
    }
  }

  /** The power of a game: the product of its three maxima. */
  function Power(line: string): Option<int> {
    var draws :- RawDraws(line);
    var m :- GameMaxima(draws);
    Some(Mul(Mul(m.red, m.green), m.blue))
  }

  /** One line of part 2: the product of the three maxima. */
  method LinePower(line: string) returns (r: Option<int>)
    ensures r == Power(line)
  {
    var draws := RawDraws(line);
    if draws.None? {
      return None;
    }
    var m := FindMaxima(draws.value);
    if m.None? {
      return None;
    }
    MulIsProduct(m.value.red, m.value.green);
    MulIsProduct(m.value.red * m.value.green, m.value.blue);
    r := Some(m.value.red * m.value.green * m.value.blue);
  }

  /** What a line adds to part 2's total, whatever its position. */
  function PowerScore(line: string, pos: nat): Option<int> {
    Power(line)
  }

  /** Part 2's total: the power of every game added up. */
  function Part2Total(lines: seq<string>): Option<int> {
    SumLines(lines, PowerScore)
  }

  /** A game whose draws cannot be read makes the whole of part 2 fail. */
  lemma Part2Fails(lines: seq<string>, idx: nat)
    requires idx < |lines| && Power(lines[idx]).None?
    ensures Part2Total(lines).None?
  {
    SumLinesSome(lines, PowerScore);
  }

  /** One turn of part 2's loop: the power of line `idx` is added. */
  method AddPower(lines: seq<string>, idx: nat, total: int) returns (r: Option<int>)
    requires idx < |lines| && Part2Total(lines[..idx]) == Some(total)
    ensures r == Part2Total(lines[..idx + 1])
  {
    var p := LinePower(lines[idx]);
    SumLinesStep(lines, PowerScore, idx, total, p);
    if p.None? {
      return None;
    }
    r := Some(total + p.value);
  }

  /** `part2`: over the lines, adding `max_red * max_green * max_blue` per game. */
  method Part2(input: string) returns (r: Option<int>)
    ensures r == Part2Total(Lines(input))
  {
    var lines := Lines(input);
    var total := 0;
    for idx := 0 to |lines|
      invariant Part2Total(lines[..idx]) == Some(total)
    {
      var next := AddPower(lines, idx, total);
      if next.None? {
        SumLinesPrefixFails(lines, PowerScore, idx + 1);
        return None;
      }
      total := next.value;
    }
    assert lines[..|lines|] == lines;
    r := Some(total);
  }

  /** The power of a game whose draws all parse is the product of the three maxima. */
  lemma PowerSpec(line: string)
    requires RawDraws(line).Some? && ParseDraws(RawDraws(line).value).Some?
    ensures var ds := ParseDraws(RawDraws(line).value).value;
      Power(line) == Some(MaxOf(ds, Red) * MaxOf(ds, Green) * MaxOf(ds, Blue))
  {
    var ds := ParseDraws(RawDraws(line).value).value;
    var r, g, b := MaxOf(ds, Red), MaxOf(ds, Green), MaxOf(ds, Blue);
    MulIsProduct(r, g);
    MulIsProduct(r * g, b);
  }

  lemma {:induction false} MulZero(b: nat)
    ensures Mul(0, b) == 0
  {
    if b > 0 {
      MulZero(b - 1);
    }
  }

  /** A colour that never appears in a game makes its power 0. */
  lemma PowerAbsent(line: string, c: Colour)
    requires RawDraws(line).Some? && ParseDraws(RawDraws(line).value).Some?
    requires var ds := ParseDraws(RawDraws(line).value).value;
      forall k :: 0 <= k < |ds| ==> ds[k].colour != c
    ensures Power(line) == Some(0)
  {
    var ds := ParseDraws(RawDraws(line).value).value;
    MaxOfSpec(ds, c);
    var r, g, b := MaxOf(ds, Red), MaxOf(ds, Green), MaxOf(ds, Blue);
    assert Power(line) == Some(Mul(Mul(r, g), b));
    match c
    case Red => MulZero(g); MulZero(b);
    case Green => MulZero(b);
    case Blue =>
  }
}
