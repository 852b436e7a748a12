/** Day 6: boat races. A race lasts `time` milliseconds; holding the button for `h` of them
    makes the boat travel `h * (time - h)`, and a hold wins when that beats the record
    `distance`. Part 1 multiplies, over the races, the number of winning holds; part 2
    reads the digits of each line as one race and counts its winning holds. */
module Day6 {
  import opened Wrappers
  import opened Text

  // ---------------------------------------------------------------- time_n_distance

  /** The tokens after the first ':' of a line; `None` when the line has no ':'. */
  function Fields(line: string): Option<seq<string>> {
    var field :- Nth(SplitOn(line, ":"), 1);
    Some(SplitWhitespace(field))
  }

  /** `zip` of the two lazily parsed token lists: a time is parsed before its distance, and
      the pairing stops as soon as one side runs out, so a time with no distance is still
      parsed and a distance with no time is not. */
  function ZipParse(times: seq<string>, distances: seq<string>): (r: Option<seq<(nat, nat)>>)
    decreases |times|
  {
    if times == [] then Some([])
    else
      var t :- ParseNat(times[0]);
      if distances == [] then Some([])
      else
        var d :- ParseNat(distances[0]);
        var rest :- ZipParse(times[1..], distances[1..]);
        Some([(t, d)] + rest)
  }

  function MinNat(a: nat, b: nat): nat {
    if a <= b then a else b
  }

  /** The races pair the numbers of the two lines position by position, as many as the
      shorter line has. */
  lemma {:induction false} ZipParseSpec(times: seq<string>, distances: seq<string>)
    ensures var r := ZipParse(times, distances);
      r.Some? ==> (|r.value| == MinNat(|times|, |distances|) &&
        forall k :: 0 <= k < |r.value| ==>
          ParseNat(times[k]) == Some(r.value[k].0) && ParseNat(distances[k]) == Some(r.value[k].1))
    ensures ((forall k :: 0 <= k < |times| ==> ParseNat(times[k]).Some?) &&
             (forall k :: 0 <= k < |distances| ==> ParseNat(distances[k]).Some?)) ==>
      ZipParse(times, distances).Some?
    decreases |times|
  {
    if times != [] && distances != [] {
      ZipParseSpec(times[1..], distances[1..]);
    }
  }

  /** The laziness of `zip`: a malformed distance after the last time is never parsed,
      while a malformed time after the last distance is. */
  lemma ZipLaziness()
    ensures ZipParse(["7"], ["9", "x"]) == Some([(7, 9)])
    ensures ZipParse(["7", "x"], ["9"]) == None
  {
    assert ParseNat("7") == Some(7) by {
      assert DecimalValue("7") == 7;
    }
    assert ParseNat("9") == Some(9) by {
      assert DecimalValue("9") == 9;
    }
    assert !IsDigit("x"[0]);
    assert ParseNat("x") == None;
    assert ["7", "x"][1..] == ["x"];
    assert ["9"][1..] == [];
    assert ["7"][1..] == [];
    assert ZipParse([], ["9", "x"][1..]) == Some([]);
    var pair: (nat, nat) := (7, 9);
    assert [pair] + [] == [pair];
    assert ZipParse(["7"], ["9", "x"]) == Some([pair] + []);
    assert ZipParse(["x"], []) == None;
  }

  /** `time_n_distance`: `None` where the program panics (fewer than two lines, a line
      without ':', or a number that does not parse among those read). */
  function TimeNDistance(input: string): Option<seq<(nat, nat)>> {
    var lines := Lines(input);
    if |lines| == 0 then None
    else
      var times :- Fields(lines[0]);
      if |lines| == 1 then None
      else
        var distances :- Fields(lines[1]);
        ZipParse(times, distances)
  }

  /** The races come from the first two lines: succeeding means both have a ':', and
      then the races pair their numbers position by position, as many as the shorter line
      has; they succeed whenever every number on both lines parses. */
  lemma TimeNDistanceSpec(input: string)
    ensures var lines, r := Lines(input), TimeNDistance(input);
      r.Some? ==> (|lines| >= 2 && Fields(lines[0]).Some? && Fields(lines[1]).Some? &&
        var times, distances := Fields(lines[0]).value, Fields(lines[1]).value;
        |r.value| == MinNat(|times|, |distances|) &&
        forall k :: 0 <= k < |r.value| ==>
          ParseNat(times[k]) == Some(r.value[k].0) && ParseNat(distances[k]) == Some(r.value[k].1))
    ensures var lines := Lines(input);
      (|lines| >= 2 && Fields(lines[0]).Some? && Fields(lines[1]).Some? &&
       (forall k :: 0 <= k < |Fields(lines[0]).value| ==> ParseNat(Fields(lines[0]).value[k]).Some?) &&
       (forall k :: 0 <= k < |Fields(lines[1]).value| ==> ParseNat(Fields(lines[1]).value[k]).Some?)) ==>
      TimeNDistance(input).Some?
  {
    var lines := Lines(input);
    if |lines| >= 2 && Fields(lines[0]).Some? && Fields(lines[1]).Some? {
      ZipParseSpec(Fields(lines[0]).value, Fields(lines[1]).value);
    }
  }

  // ---------------------------------------------------------------- winning holds

  /** The distance covered when holding for `h`. */
  function Travel(time: nat, h: nat): int
    requires h <= time
  {
    h * (time - h)
  }

  predicate Beats(time: nat, distance: nat, h: nat)
    requires h <= time
  {
    Travel(time, h) > distance
  }

  /** The number of winning holds in `[lo, hi)`. */
  function CountBeats(time: nat, distance: nat, lo: nat, hi: nat): nat
    requires hi <= time + 1
    decreases hi - lo
  {
    if lo >= hi then 0
    else (if Beats(time, distance, lo) then 1 else 0) + CountBeats(time, distance, lo + 1, hi)
  }

  /** The number of winning holds of a race, `0 <= h <= time`. */
  function Ways(time: nat, distance: nat): nat {
    CountBeats(time, distance, 0, time + 1)
  }

  /** Holding longer travels further up to half the race. */
  lemma TravelMonotone(time: nat, a: nat, b: nat)
    requires a <= b && a + b <= time
    ensures Travel(time, a) <= Travel(time, b)
  {
    assert Travel(time, b) - Travel(time, a) == (b - a) * (time - a - b);
    MulNonNegative(b - a, time - a - b);
  }

  lemma MulNonNegative(x: int, y: int)
    requires x >= 0 && y >= 0
    ensures x * y >= 0
  {
  }

  /** Holding for `h` or for `time - h` travels the same distance. */
  lemma TravelSymmetric(time: nat, h: nat)
    requires h <= time
    ensures Travel(time, h) == Travel(time, time - h)
  {
  }

  lemma {:induction false} CountSplit(time: nat, distance: nat, lo: nat, mid: nat, hi: nat)
    requires lo <= mid <= hi <= time + 1
    ensures CountBeats(time, distance, lo, hi) ==
      CountBeats(time, distance, lo, mid) + CountBeats(time, distance, mid, hi)
    decreases mid - lo
  {
    if lo < mid {
      CountSplit(time, distance, lo + 1, mid, hi);
    }
  }

  lemma {:induction false} CountNone(time: nat, distance: nat, lo: nat, hi: nat)
    requires hi <= time + 1
    requires forall h: nat :: lo <= h < hi ==> !Beats(time, distance, h)
    ensures CountBeats(time, distance, lo, hi) == 0
    decreases hi - lo
  {
    if lo < hi {
      CountNone(time, distance, lo + 1, hi);
    }
  }

  lemma {:induction false} CountAll(time: nat, distance: nat, lo: nat, hi: nat)
    requires lo <= hi <= time + 1
    requires forall h: nat :: lo <= h < hi ==> Beats(time, distance, h)
    ensures CountBeats(time, distance, lo, hi) == hi - lo
    decreases hi - lo
  {
    if lo < hi {
      CountAll(time, distance, lo + 1, hi);
    }
  }

  /** The winning holds lie strictly between `c` and `time - c` when `c` is a losing hold
      at or below half the race and every hold above it up to half the race wins: there
      are `time - 2c - 1` of them. */
  lemma WaysFormula(time: nat, distance: nat, c: nat)
    requires c <= time / 2 && c < time - c && !Beats(time, distance, c)
    requires forall h: nat :: c < h <= time / 2 ==> Beats(time, distance, h)
    ensures Ways(time, distance) == time - 2 * c - 1
  {
    forall h | 0 <= h <= c ensures !Beats(time, distance, h) {
      TravelMonotone(time, h, c);
    }
    forall h | c < h < time - c ensures Beats(time, distance, h) {
      if h > time / 2 {
        TravelSymmetric(time, h);
        assert Beats(time, distance, time - h);
      }
    }
    forall h | time - c <= h <= time ensures !Beats(time, distance, h) {
      TravelSymmetric(time, h);
      TravelMonotone(time, time - h, c);
    }
    CountSplit(time, distance, 0, c + 1, time + 1);
    CountSplit(time, distance, c + 1, time - c, time + 1);
    CountNone(time, distance, 0, c + 1);
    CountAll(time, distance, c + 1, time - c);
    CountNone(time, distance, time - c, time + 1);
  }

  /** A race has a winning hold exactly when holding for half of it wins. */
  lemma WaysPositive(time: nat, distance: nat)
    ensures Ways(time, distance) > 0 <==> Beats(time, distance, time / 2)
  {
    var half := time / 2;
    if Beats(time, distance, half) {
      CountSplit(time, distance, 0, half, time + 1);
      CountSplit(time, distance, half, half + 1, time + 1);
    } else {
      forall h | 0 <= h <= time ensures !Beats(time, distance, h) {
        if h <= half {
          TravelMonotone(time, h, half);
        } else {
          TravelSymmetric(time, h);
          TravelMonotone(time, time - h, half);
        }
      }
      CountNone(time, distance, 0, time + 1);
    }
  }

  // ---------------------------------------------------------------- part 1

  /** `(lo..hi).len()`. */
  function RangeLen(lo: nat, hi: nat): nat {
    if hi > lo then hi - lo else 0
  }

  /** What part 1 makes of one race: the number of winning holds; without one, 0 for an
      odd `time` and a panic (the final `- 1` underflowing) for an even one. */
  function RaceSpec(time: nat, distance: nat): (r: Option<nat>)
    ensures r.Some? ==> r.value == Ways(time, distance)
    ensures r.None? <==> time % 2 == 0 && !Beats(time, distance, time / 2)
  {
    WaysPositive(time, distance);
    var w := Ways(time, distance);
    if w > 0 then Some(w) else if time % 2 == 1 then Some(0) else None
  }

  /** The loop of part 1 for one race: from half the race down to the first losing hold,
      then `(check..time - check).len() - 1`. */
  method RaceWays(time: nat, distance: nat) returns (r: Option<nat>)
    ensures r == RaceSpec(time, distance)
  {
    var check: nat := time / 2;
    while check * (time - check) > distance
      invariant check <= time / 2
      invariant forall h: nat :: check < h <= time / 2 ==> Beats(time, distance, h)
      decreases check
    {
      check := check - 1;
    }
    WaysPositive(time, distance);
    if check < time / 2 {
      WaysFormula(time, distance, check);
    }
    var len := RangeLen(check, time - check);
    if len == 0 {
      return None;
    }
    r := Some(len - 1);
  }

  /** The product of the races' results, `None` for no race (`reduce(..).unwrap()`) or as
      soon as one race fails. */
  function RacesProduct(races: seq<(nat, nat)>): Option<nat>
    requires |races| > 0
  {
    if |races| == 1 then RaceSpec(races[0].0, races[0].1)
    else
      var n := |races| - 1;
      var p :- RacesProduct(races[..n]);
      var w :- RaceSpec(races[n].0, races[n].1);
      Some(p * w)
  }

  function Part1Spec(input: string): Option<nat> {
    var races :- TimeNDistance(input);
    if races == [] then None else RacesProduct(races)
  }

  /** When every race can be won, part 1 is the product of the numbers of winning holds. */
  lemma {:induction false} RacesProductWays(races: seq<(nat, nat)>)
    requires |races| > 0
    requires forall k :: 0 <= k < |races| ==> Ways(races[k].0, races[k].1) > 0
    ensures RacesProduct(races) == Some(ProductOfWays(races))
  {
    if |races| > 1 {
      var n := |races| - 1;
      assert forall k :: 0 <= k < n ==> races[..n][k] == races[k];
      RacesProductWays(races[..n]);
    }
  }

  function ProductOfWays(races: seq<(nat, nat)>): nat {
    if races == [] then 1
    else
      var n := |races| - 1;
      ProductOfWays(races[..n]) * Ways(races[n].0, races[n].1)
  }

  /** `part1`. */
  method Part1(input: string) returns (r: Option<nat>)
    ensures r == Part1Spec(input)
  {
    var parsed := TimeNDistance(input);
    if parsed.None? || parsed.value == [] {
      return None;
    }
    var races := parsed.value;
    var product := 0;
    for k := 0 to |races|
      invariant k > 0 ==> RacesProduct(races[..k]) == Some(product)
    {
      assert races[..k + 1][..k] == races[..k];
      var w := RaceWays(races[k].0, races[k].1);
      if w.None? {
        RacesProductFails(races, k + 1);
        return None;
      }
      product := if k == 0 then w.value else product * w.value;
    }
    assert races[..|races|] == races;
    r := Some(product);
  }

  lemma {:induction false} RacesProductFails(races: seq<(nat, nat)>, k: nat)
    requires 0 < k <= |races| && RacesProduct(races[..k]).None?
    ensures RacesProduct(races).None?
  {
    if k < |races| {
      var n := |races| - 1;
      assert races[..n][..k] == races[..k];
      RacesProductFails(races[..n], k);
    } else {
      assert races[..k] == races;
    }
  }

  // ---------------------------------------------------------------- part 2

  /** `chars().filter(|&c| c != ' ')`. */
  function RemoveSpaces(s: string): (r: string)
    ensures forall i :: 0 <= i < |r| ==> r[i] != ' '
  {
    if s == [] then [] else (if s[0] == ' ' then [] else [s[0]]) + RemoveSpaces(s[1..])
  }

  /** The halving loop: from `c`, halve while the hold wins. */
  function Halve(time: nat, distance: nat, c: nat): (r: nat)
    requires c <= time
    ensures r <= c && !Beats(time, distance, r)
    decreases c
  {
    if c * (time - c) > distance then Halve(time, distance, c / 2) else c
  }

  /** The counting-up loop as written, `while check * (time - check) < distance`: it stops at
      the first hold that travels at least the record, a tie included; `None` once the hold
      passes the end of the race (`time - check` underflows). */
  function ScanUpAsWritten(time: nat, distance: nat, c: nat): Option<nat>
    decreases time + 1 - c
  {
    if c > time then None
    else if c * (time - c) < distance then ScanUpAsWritten(time, distance, c + 1)
    else Some(c)
  }

  /** The counting-up loop with `<=`: it stops at the first hold that beats the record. */
  function ScanUp(time: nat, distance: nat, c: nat): Option<nat>
    decreases time + 1 - c
  {
    if c > time then None
    else if c * (time - c) <= distance then ScanUp(time, distance, c + 1)
    else Some(c)
  }

  /** After the scan: `check -= 1` and `(check..time - check).len() - 1`. */
  function Finish(time: nat, c: nat): Option<nat>
    requires c <= time
  {
    if c == 0 then None
    else
      var len := RangeLen(c - 1, time - (c - 1));
      if len == 0 then None else Some(len - 1)
  }

  /** Part 2 for one race, as written. */
  function Part2AsWritten(time: nat, distance: nat): Option<nat> {
    var c :- ScanUpAsWritten(time, distance, Halve(time, distance, time / 2));
    if c > time then None else Finish(time, c)
  }

  /** Part 2 for one race with the intended `<=`. */
  function Part2Race(time: nat, distance: nat): Option<nat> {
    var c :- ScanUp(time, distance, Halve(time, distance, time / 2));
    if c > time then None else Finish(time, c)
  }

  /** As written, a hold that exactly ties the record ends the scan too early: for a race
      of 4 with a record of 3 the only winning hold is 2, yet the answer is 3. */
  lemma TieCounterexample()
    ensures Ways(4, 3) == 1
    ensures Part2AsWritten(4, 3) == Some(3)
  {
    assert Beats(4, 3, 2) && !Beats(4, 3, 1) && !Beats(4, 3, 3) && !Beats(4, 3, 0) && !Beats(4, 3, 4);
    assert CountBeats(4, 3, 0, 5) == 1;
    assert Halve(4, 3, 2) == Halve(4, 3, 1) == 1;
    assert ScanUpAsWritten(4, 3, 1) == Some(1);
  }

  /** The scan with `<=` from a losing hold at or below half the race stops at the first
      winning hold, which is at most half the race when that hold wins. */
  lemma {:induction false} ScanUpSpec(time: nat, distance: nat, c: nat)
    requires c <= time / 2 && Beats(time, distance, time / 2)
    ensures ScanUp(time, distance, c).Some?
    ensures var s := ScanUp(time, distance, c).value;
      c <= s <= time / 2 && Beats(time, distance, s) &&
      forall h: nat :: c <= h < s ==> !Beats(time, distance, h)
    decreases time / 2 - c
  {
    if !Beats(time, distance, c) {
      ScanUpSpec(time, distance, c + 1);
    }
  }

  /** With `<=` the answer is the number of winning holds whenever the race can be won. */
  lemma Part2RaceCorrect(time: nat, distance: nat)
    requires Ways(time, distance) > 0
    ensures Part2Race(time, distance) == Some(Ways(time, distance))
  {
    WaysPositive(time, distance);
    var c0 := Halve(time, distance, time / 2);
    ScanUpSpec(time, distance, c0);
    var s := ScanUp(time, distance, c0).value;
    assert s > c0;
    var c := s - 1;
    assert !Beats(time, distance, c);
    forall h | c < h <= time / 2 ensures Beats(time, distance, h) {
      TravelMonotone(time, s, h);
    }
    WaysFormula(time, distance, c);
  }

  /** The loops of part 2 as written. */
  method SearchAsWritten(time: nat, distance: nat) returns (r: Option<nat>)
    ensures r == Part2AsWritten(time, distance)
  {
    var check: nat := time / 2;
    while check * (time - check) > distance
      invariant check <= time / 2
      invariant Halve(time, distance, check) == Halve(time, distance, time / 2)
      decreases check
    {
      check := check / 2;
    }
    while true
      invariant ScanUpAsWritten(time, distance, check) == ScanUpAsWritten(time, distance, Halve(time, distance, time / 2))
      decreases time + 1 - check
    {
      if check > time {
        return None;
      }
      if check * (time - check) >= distance {
        break;
      }
      check := check + 1;
    }
    r := Finish(time, check);
  }

  /** The loops of part 2 with the intended `<=`. */
  method Search(time: nat, distance: nat) returns (r: Option<nat>)
    ensures r == Part2Race(time, distance)
  {
    var check: nat := time / 2;
    while check * (time - check) > distance
      invariant check <= time / 2
      invariant Halve(time, distance, check) == Halve(time, distance, time / 2)
      decreases check
    {
      check := check / 2;
    }
    while true
      invariant ScanUp(time, distance, check) == ScanUp(time, distance, Halve(time, distance, time / 2))
      decreases time + 1 - check
    {
      if check > time {
        return None;
      }
      if check * (time - check) > distance {
        break;
      }
      check := check + 1;
    }
    r := Finish(time, check);
  }

  function Part2Spec(input: string): Option<nat> {
    var races :- TimeNDistance(RemoveSpaces(input));
    if races == [] then None else Part2Race(races[0].0, races[0].1)
  }

  /** `part2`: the digits of each line, spaces removed, read as one race. */
  method Part2(input: string) returns (r: Option<nat>)
    ensures r == Part2Spec(input)
  {
    var races := TimeNDistance(RemoveSpaces(input));
    if races.None? || races.value == [] {
      return None;
    }
    r := Search(races.value[0].0, races.value[0].1);
  }
}
