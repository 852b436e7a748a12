/** Day 4: scratchcards. A line is "Card N: " followed by the winning numbers, " | " and the
    numbers held; a card's matches are the numbers in both lists, each counted once. Part 1
    adds up the card scores; part 2 counts the cards held once every card has won copies of
    the cards after it. */
module Day4 {
  import opened Wrappers
  import opened Text

  // ---------------------------------------------------------------- parse_numbers

  /** `space0`: the number of spaces and tabs at the start of `s`. */
  function Spaces(s: string): (n: nat)
    ensures n <= |s|
    ensures forall i :: 0 <= i < n ==> s[i] == ' ' || s[i] == '\t'
    ensures n == |s| || (s[n] != ' ' && s[n] != '\t')
  {
    if s == [] || (s[0] != ' ' && s[0] != '\t') then 0 else 1 + Spaces(s[1..])
  }

  /** The number of decimal digits at the start of `s`, the text nom's `u32` consumes. */
  function Digits(s: string): (n: nat)
    ensures n <= |s|
    ensures forall i :: 0 <= i < n ==> IsDigit(s[i])
    ensures n == |s| || !IsDigit(s[n])
  {
    if s == [] || !IsDigit(s[0]) then 0 else 1 + Digits(s[1..])
  }

  /** `many1(delimited(space0, u32, space0))` without the at-least-one check: numbers
      separated by spaces and tabs, up to the first place where no number follows; the
      text from there on is left unread. */
  function NumbersFrom(s: string): seq<nat>
    decreases |s|
  {
    var t := s[Spaces(s)..];
    var d := Digits(t);
    if d == 0 then [] else [DecimalValue(t[..d])] + NumbersFrom(t[d..])
  }

  /** `parse_numbers(..).unwrap().1`: `None` when not even one number parses. */
  function ParseNumbers(s: string): (r: Option<seq<nat>>)
    ensures r.Some? ==> |r.value| > 0
  {
    var xs := NumbersFrom(s);
    if xs == [] then None else Some(xs)
  }

  function DecimalValues(tokens: seq<string>): seq<nat>
    requires forall k :: 0 <= k < |tokens| ==> AllDigits(tokens[k])
  {
    if tokens == [] then [] else [DecimalValue(tokens[0])] + DecimalValues(tokens[1..])
  }

  predicate SpaceOrDigit(c: char) {
    c == ' ' || IsDigit(c)
  }

  /** On text made of spaces and digits that starts with a digit, the grammar and
      `split_whitespace` both take the leading run of digits first. */
  lemma TokenStep(s: string)
    requires forall i :: 0 <= i < |s| ==> SpaceOrDigit(s[i])
    requires s != [] && s[0] != ' '
    ensures var n := TokenLength(s);
      && 0 < n && AllDigits(s[..n])
      && NumbersFrom(s) == [DecimalValue(s[..n])] + NumbersFrom(s[n..])
      && SplitWhitespace(s) == [s[..n]] + SplitWhitespace(s[n..])
  {
    var n := TokenLength(s);
    assert forall i :: 0 <= i < n ==> !IsWhitespace(s[i]) && SpaceOrDigit(s[i]);
    DigitsOfToken(s, n);
    assert s[Spaces(s)..] == s;
  }

  /** On text made of spaces and digits only, the grammar reads exactly the
      space-separated tokens, each as its decimal value. */
  lemma {:induction false} NumbersAreTokens(s: string)
    requires forall i :: 0 <= i < |s| ==> SpaceOrDigit(s[i])
    ensures forall k :: 0 <= k < |SplitWhitespace(s)| ==> AllDigits(SplitWhitespace(s)[k])
    ensures NumbersFrom(s) == DecimalValues(SplitWhitespace(s))
    decreases |s|
  {
    if s == [] {
    } else if s[0] == ' ' {
      NumbersAreTokens(s[1..]);
      assert s[Spaces(s)..] == s[1..][Spaces(s[1..])..];
    } else {
      var n := TokenLength(s);
      TokenStep(s);
      NumbersAreTokens(s[n..]);
      var rest := SplitWhitespace(s[n..]);
      assert ([s[..n]] + rest)[1..] == rest;
    }
  }

  lemma {:induction false} DigitsOfToken(s: string, n: nat)
    requires n <= |s| && (forall i :: 0 <= i < n ==> IsDigit(s[i]))
    requires n == |s| || !IsDigit(s[n])
    ensures Digits(s) == n
  {
    if n > 0 {
      DigitsOfToken(s[1..], n - 1);
    }
  }

  // ---------------------------------------------------------------- cards

  /** A card: the set of winning numbers and the set of numbers held. */
  datatype Card = Card(winning: set<nat>, have: set<nat>)

  function SetOf(xs: seq<nat>): set<nat> {
    set x | x in xs
  }

  /** The card of one line: the text after ": ", split at " | "; only the first two halves
      are read. `None` where the program panics: no ": ", no " | ", or a half without a
      number. */
  function ParseCard(line: string): (r: Option<Card>)
    ensures r.Some? ==> (|SplitOn(line, ": ")| >= 2 && |SplitOn(SplitOn(line, ": ")[1], " | ")| >= 2)
    ensures r.Some? ==> |r.value.winning| > 0 && |r.value.have| > 0
  {
    var field :- Nth(SplitOn(line, ": "), 1);
    var halves := SplitOn(field, " | ");
    var winning :- ParseNumbers(halves[0]);
    var second :- Nth(halves, 1);
    var have :- ParseNumbers(second);
    assert winning[0] in SetOf(winning) && have[0] in SetOf(have);
    Some(Card(SetOf(winning), SetOf(have)))
  }

  /** The number of matches: the size of the intersection. */
  function Matches(card: Card): (m: nat)
    ensures m <= |card.winning| && m <= |card.have|
  {
    assert |card.winning| == |card.winning - card.have| + |card.winning * card.have|;
    assert |card.have| == |card.have - card.winning| + |card.have * card.winning|;
    |card.winning * card.have|
  }

  /** A number written twice among the winning numbers counts once. */
  lemma DuplicatesCountOnce(winning: seq<nat>, have: seq<nat>, x: nat)
    requires x in winning
    ensures Matches(Card(SetOf(winning + [x]), SetOf(have))) == Matches(Card(SetOf(winning), SetOf(have)))
  {
    assert SetOf(winning + [x]) == SetOf(winning);
  }

  // ---------------------------------------------------------------- part 1

  /** The step of part 1's `fold` over the matches. */
  function Doubling(acc: nat): nat {
    if acc == 0 then 1 else acc * 2
  }

  /** The `fold` over `m` matches, starting from 0. */
  function FoldScore(m: nat): (s: nat)
    ensures s >= m && (s == 0 <==> m == 0)
  {
    if m == 0 then 0 else Doubling(FoldScore(m - 1))
  }

  function Pow2(k: nat): nat {
    if k == 0 then 1 else 2 * Pow2(k - 1)
  }

  /** A card scores 0 without a match and 2^(m-1) with m matches. */
  lemma {:induction false} FoldScoreSpec(m: nat)
    ensures FoldScore(m) == if m == 0 then 0 else Pow2(m - 1)
  {
    if m > 1 {
      FoldScoreSpec(m - 1);
    }
  }

  function CardScore(line: string): Option<nat> {
    var card :- ParseCard(line);
    Some(FoldScore(Matches(card)))
  }

  /** `part1`: the sum of the card scores; `None` when a card does not parse. */
  function Part1Total(lines: seq<string>): Option<int> {
    if lines == [] then Some(0)
    else
      var n := |lines| - 1;
      var t :- Part1Total(lines[..n]);
      var score :- CardScore(lines[n]);
      Some(t + score)
  }

  function Part1(input: string): (r: Option<int>)
    ensures r.Some? <==> ParseCards(Lines(input)).Some?
    ensures r.Some? ==> r.value >= WinningCards(Lines(input))
  {
    Part1Parses(Lines(input));
    Part1AtLeastWinners(Lines(input));
    Part1Total(Lines(input))
  }

  /** Part 1 succeeds exactly when every card parses, that is exactly when part 2's
      `collect` of the cards does. */
  lemma {:induction false} Part1Parses(lines: seq<string>)
    ensures Part1Total(lines).Some? <==> ParseCards(lines).Some?
  {
    if lines != [] {
      Part1Parses(lines[..|lines| - 1]);
    }
  }

  /** The number of cards with at least one match. */
  function WinningCards(lines: seq<string>): nat {
    if lines == [] then 0
    else
      var n := |lines| - 1;
      var card := ParseCard(lines[n]);
      WinningCards(lines[..n]) + if card.Some? && Matches(card.value) > 0 then 1 else 0
  }

  /** Every card with a match scores at least 1, so the total is at least the number of
      winning cards. */
  lemma {:induction false} Part1AtLeastWinners(lines: seq<string>)
    ensures Part1Total(lines).Some? ==> Part1Total(lines).value >= WinningCards(lines)
  {
    if lines != [] {
      var n := |lines| - 1;
      Part1AtLeastWinners(lines[..n]);
      var card := ParseCard(lines[n]);
      if card.Some? {
        var m := Matches(card.value);
        FoldScoreSpec(m);
        PowPositive(if m == 0 then 0 else m - 1);
      }
    }
  }

  lemma {:induction false} PowPositive(k: nat)
    ensures Pow2(k) >= 1
  {
    if k > 0 {
      PowPositive(k - 1);
    }
  }

  // ---------------------------------------------------------------- part 2

  /** All cards, or `None` when one line does not parse (`collect` runs every `map`). */
  function ParseCards(lines: seq<string>): (r: Option<seq<Card>>)
    ensures r.Some? ==> |r.value| == |lines|
    ensures r.Some? ==> forall k :: 0 <= k < |lines| ==> ParseCard(lines[k]) == Some(r.value[k])
  {
    ParseEachSpec(lines, ParseCard);
    ParseEach(lines, ParseCard)
  }

  /** The copies card `id` wins, directly and through the copies it wins: its matches plus
      what each of the next `m` cards wins; `None` when one of them lies past the last card. */
  function Won(cards: seq<Card>, id: nat): (r: Option<nat>)
    ensures r.Some? ==> id < |cards| && r.value >= Matches(cards[id])
    decreases |cards| - id, 1
  {
    if id >= |cards| then None
    else
      var m := Matches(cards[id]);
      var more :- WonSum(cards, id, 1, m);
      Some(m + more)
  }

  /** What cards `id + i` to `id + m` win together. */
  function WonSum(cards: seq<Card>, id: nat, i: nat, m: nat): Option<nat>
    requires id < |cards|
    decreases |cards| - id, 0, m + 1 - i
  {
    if i == 0 || i > m then Some(0)
    else
      var w :- Won(cards, id + i);
      var rest :- WonSum(cards, id, i + 1, m);
      Some(w + rest)
  }

  /** The recursion of `part2_helper` stays within the cards exactly when no card from `id` on
      wins past the last card; then it always has a result. */
  lemma {:induction false} WonDefined(cards: seq<Card>, id: nat)
    requires id < |cards|
    requires forall k :: id <= k < |cards| ==> k + Matches(cards[k]) < |cards|
    ensures Won(cards, id).Some?
    decreases |cards| - id, 1
  {
    WonSumDefined(cards, id, 1, Matches(cards[id]));
  }

  lemma {:induction false} WonSumDefined(cards: seq<Card>, id: nat, i: nat, m: nat)
    requires id < |cards| && id + m < |cards|
    requires forall k :: id < k < |cards| ==> k + Matches(cards[k]) < |cards|
    ensures WonSum(cards, id, i, m).Some?
    decreases |cards| - id, 0, m + 1 - i
  {
    if i != 0 && i <= m {
      WonDefined(cards, id + i);
      WonSumDefined(cards, id, i + 1, m);
    }
  }

  /** A card with a match that is the last card sends the recursion past the end. */
  lemma LastCardWinsPastEnd(cards: seq<Card>)
    requires |cards| > 0 && Matches(cards[|cards| - 1]) > 0
    ensures Won(cards, |cards| - 1).None?
  {
    assert Won(cards, |cards|).None?;
  }

  /** Every non-zero cache entry holds what its card wins. A zero entry says nothing:
      a card that wins nothing is recomputed each time. */
  predicate CacheOk(cards: seq<Card>, cache: array<nat>)
    reads cache
  {
    cache.Length == |cards| &&
    forall k :: 0 <= k < cache.Length && cache[k] != 0 ==> Won(cards, k) == Some(cache[k])
  }

  /** `part2_helper`: a cached non-zero entry is returned as it is; otherwise the matches,
      plus what each of the next `m` cards wins (with `m` fixed before the loop), is
      stored in `cache[id]` and returned. Only entries at `id` and after are written. */
  method Part2Helper(cards: seq<Card>, id: nat, cache: array<nat>) returns (r: Option<nat>)
    requires CacheOk(cards, cache)
    modifies cache
    ensures CacheOk(cards, cache)
    ensures r == Won(cards, id)
    ensures r.Some? ==> id < cache.Length && cache[id] == r.value
    ensures forall k :: 0 <= k < id && k < cache.Length ==> cache[k] == old(cache[k])
    decreases |cards| - id
  {
    if id >= cache.Length {
      return None;
    }
    if cache[id] != 0 {
      return Some(cache[id]);
    }
    var m := Matches(cards[id]);
    var count := m;
    for i := 1 to m + 1
      invariant CacheOk(cards, cache)
      invariant count >= m
      invariant WonSum(cards, id, 1, m) == AddTo(count - m, WonSum(cards, id, i, m))
      invariant forall k :: 0 <= k <= id ==> cache[k] == old(cache[k])
    {
      var w := Part2Helper(cards, id + i, cache);
      if w.None? {
        return None;
      }
      count := count + w.value;
    }
    cache[id] := count;
    r := Some(count);
  }

  function AddTo(a: nat, o: Option<nat>): Option<nat> {
    match o
    case None => None
    case Some(v) => Some(a + v)
  }

  /** The cards held once the first `n` cards have been played: each card itself plus the
      copies it wins. */
  function CardsHeld(cards: seq<Card>, n: nat): Option<nat>
    requires n <= |cards|
  {
    if n == 0 then Some(0)
    else
      var t :- CardsHeld(cards, n - 1);
      var w :- Won(cards, n - 1);
      Some(t + w + 1)
  }

  /** Every card is held at least once. */
  lemma {:induction false} CardsHeldAtLeast(cards: seq<Card>, n: nat)
    requires n <= |cards|
    ensures CardsHeld(cards, n).Some? ==> CardsHeld(cards, n).value >= n
  {
    if n > 0 {
      CardsHeldAtLeast(cards, n - 1);
    }
  }

  function Part2Spec(input: string): Option<nat> {
    var cards :- ParseCards(Lines(input));
    CardsHeld(cards, |cards|)
  }

  /** `part2`: every card once plus what it wins, added up over the cards, with one cache
      shared by all calls. */
  method Part2(input: string) returns (r: Option<nat>)
    ensures r == Part2Spec(input)
  {
    var parsed := ParseCards(Lines(input));
    if parsed.None? {
      return None;
    }
    r := CountCards(parsed.value);
  }

  /** The loop of `part2` over the parsed cards. */
  method CountCards(cards: seq<Card>) returns (r: Option<nat>)
    ensures r == CardsHeld(cards, |cards|)
  {
    var count := 0;
    var cache := new nat[|cards|](_ => 0);
    for i := 0 to |cards|
      invariant CacheOk(cards, cache)
      invariant CardsHeld(cards, i) == Some(count)
    {
      var w := Part2Helper(cards, i, cache);
      if w.None? {
        CardsHeldFails(cards, i, |cards|);
        return None;
      }
      count := count + w.value + 1;
    }
    r := Some(count);
  }

  lemma {:induction false} CardsHeldFails(cards: seq<Card>, i: nat, n: nat)
    requires i < n <= |cards| && Won(cards, i).None?
    ensures CardsHeld(cards, n).None?
  {
    if i < n - 1 {
      CardsHeldFails(cards, i, n - 1);
    }
  }
}
