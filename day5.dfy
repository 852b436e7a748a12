/** Day 5: the seed almanac. The input is a line of seed numbers followed by seven
    mapping tables; part 1 pushes every seed number through the tables one value at a
    time, part 2 reads the seed numbers as ranges and pushes whole ranges through. */
module Day5 {
  import opened Wrappers
  import opened Text
  import opened Day5Stage

  // ---------------------------------------------------------------- one table line

  /** A table line "dest src len": the rule `src..src+len` with offset `dest - src`.
      Tokens after the third are never looked at. `None` when a token is missing or is not
      an integer, and when `len <= 0`, since `RangeMap::insert` refuses an empty range. */
  function ParseRule(line: string): (r: Option<Rule>)
    ensures r.Some? ==> NonEmpty(r.value.src)
  {
    var t := SplitWhitespace(line);
    if |t| < 3 then None
    else
      var dest :- ParseInt(t[0]);
      var src :- ParseInt(t[1]);
      var len :- ParseInt(t[2]);
      if len <= 0 then None else Some(Rule(Range(src, src + len), dest - src))
  }

  /** A line parses exactly when its first three tokens are integers and the third is
      positive; the rule covers `[src, src + len)` and moves it to start at `dest`. */
  lemma ParseRuleSpec(line: string)
    ensures var t := SplitWhitespace(line);
      ParseRule(line).Some? <==> (|t| >= 3 && ParseInt(t[0]).Some? && ParseInt(t[1]).Some? &&
                                  ParseInt(t[2]).Some? && ParseInt(t[2]).value > 0)
    ensures var t := SplitWhitespace(line);
      var r := ParseRule(line);
      r.Some? ==>
        && r.value.src.start == ParseInt(t[1]).value
        && r.value.src.end - r.value.src.start == ParseInt(t[2]).value
        && r.value.src.start + r.value.offset == ParseInt(t[0]).value
  {
  }

  // ---------------------------------------------------------------- one table

  /** Every line parsed as a rule, failing at the first line that does not parse. */
  function ParseRules(lines: seq<string>): (r: Option<seq<Rule>>)
    ensures r.Some? ==> |r.value| == |lines| && AllRulesNonEmpty(r.value)
  {
    ParseEachSpec(lines, ParseRule);
    ParseEach(lines, ParseRule)
  }

  /** The lines parse exactly when each of them does, and each gives its own rule. */
  lemma ParseRulesSpec(lines: seq<string>)
    ensures ParseRules(lines).Some? <==> forall k :: 0 <= k < |lines| ==> ParseRule(lines[k]).Some?
    ensures ParseRules(lines).Some? ==>
      forall k :: 0 <= k < |lines| ==> ParseRules(lines).value[k] == ParseRule(lines[k]).value
  {
    ParseEachSpec(lines, ParseRule);
  }

  predicate AllRulesNonEmpty(rules: seq<Rule>) {
    forall k :: 0 <= k < |rules| ==> NonEmpty(rules[k].src)
  }

  /** The table the lines build: each rule inserted in turn into an initially empty map. */
  function BuildStage(rules: seq<Rule>): (r: seq<Rule>)
    requires AllRulesNonEmpty(rules)
    ensures Valid(r)
  {
    if rules == [] then []
    else Insert(BuildStage(rules[..|rules| - 1]), rules[|rules| - 1])
  }

  /** The offset of the last rule of the list that covers `v`, if any. */
  function LastHit(rules: seq<Rule>, v: int): Option<int> {
    if rules == [] then None
    else
      var n := |rules| - 1;
      if In(v, rules[n].src) then Some(rules[n].offset) else LastHit(rules[..n], v)
  }

  /** `LastHit` finds a line covering `v` exactly when there is one, and it is the
      last such line. */
  lemma {:induction false} LastHitSpec(rules: seq<Rule>, v: int)
    ensures LastHit(rules, v).Some? <==> exists k :: 0 <= k < |rules| && In(v, rules[k].src)
    ensures LastHit(rules, v).Some? ==>
      exists k :: 0 <= k < |rules| && In(v, rules[k].src) &&
        rules[k].offset == LastHit(rules, v).value &&
        forall j :: k < j < |rules| ==> !In(v, rules[j].src)
  {
    if rules != [] {
      var n := |rules| - 1;
      var init := rules[..n];
      LastHitSpec(init, v);
      assert forall k :: 0 <= k < n ==> init[k] == rules[k];
      if In(v, rules[n].src) {
        assert 0 <= n < |rules| && In(v, rules[n].src);
      }
    }
  }

  /** A table built from its lines answers a lookup with the offset of the last line whose
      range holds the value; a value no line covers has no offset. */
  lemma {:induction false} BuildStageGet(rules: seq<Rule>, v: int)
    requires AllRulesNonEmpty(rules)
    ensures Get(BuildStage(rules), v) == LastHit(rules, v)
  {
    if rules != [] {
      var n := |rules| - 1;
      BuildStageGet(rules[..n], v);
      InsertGet(BuildStage(rules[..n]), rules[n], v);
    }
  }

  // ---------------------------------------------------------------- all seven tables

  /** Where a `lines.next()` that discards a line leaves the reader. */
  function Next(lines: seq<string>, pos: nat): (r: nat)
    requires pos <= |lines|
    ensures r <= |lines| && pos <= r <= pos + 1
    ensures r == pos <==> pos == |lines|
  {
    if pos < |lines| then pos + 1 else pos
  }

  /** The first blank line at or after `pos` (or the end of the lines). */
  function BlockEnd(lines: seq<string>, pos: nat): (r: nat)
    requires pos <= |lines|
    ensures pos <= r <= |lines|
    ensures r < |lines| ==> lines[r] == ""
    ensures forall k :: pos <= k < r ==> lines[k] != ""
    decreases |lines| - pos
  {
    if pos == |lines| || lines[pos] == "" then pos else BlockEnd(lines, pos + 1)
  }

  /** The table whose rule lines start at `start`: every line up to the next blank line
      (or the end of the input) parsed and inserted in turn. */
  function Table(lines: seq<string>, start: nat): (r: Option<seq<Rule>>)
    requires start <= |lines|
    ensures r.Some? ==> Valid(r.value)
  {
    var rules :- ParseRules(lines[start..BlockEnd(lines, start)]);
    Some(BuildStage(rules))
  }

  /** `count` tables read from `pos` on: each one skips a header line, then takes its
      rule lines, then the blank line that ends it. */
  function ReadTables(lines: seq<string>, pos: nat, count: nat): (r: Option<seq<seq<Rule>>>)
    requires pos <= |lines|
    ensures r.Some? ==> |r.value| == count && AllValid(r.value)
    decreases count
  {
    if count == 0 then Some([])
    else
      var start := Next(lines, pos);
      var stage :- Table(lines, start);
      var more :- ReadTables(lines, Next(lines, BlockEnd(lines, start)), count - 1);
      Some([stage] + more)
  }

  /** The tables that follow the seed line: a blank line, then seven tables. */
  function Tables(lines: seq<string>): (r: Option<seq<seq<Rule>>>)
    ensures r.Some? ==> |r.value| == 7 && AllValid(r.value)
  {
    ReadTables(lines, Next(lines, 0), 7)
  }

  function Prepend(tables: seq<seq<Rule>>, rest: Option<seq<seq<Rule>>>): Option<seq<seq<Rule>>> {
    match rest
    case None => None
    case Some(more) => Some(tables + more)
  }

  lemma ParseRulesSnoc(lines: seq<string>, start: nat, pos: nat)
    requires start <= pos < |lines|
    ensures ParseRules(lines[start..pos + 1]) ==
      if ParseRule(lines[pos]).Some? && ParseRules(lines[start..pos]).Some?
      then Some(ParseRules(lines[start..pos]).value + [ParseRule(lines[pos]).value])
      else None
  {
    ParseEachSliceSnoc(lines, ParseRule, start, pos);
  }

  lemma BuildStageSnoc(rules: seq<Rule>, rule: Rule)
    requires AllRulesNonEmpty(rules) && NonEmpty(rule.src)
    ensures AllRulesNonEmpty(rules + [rule])
    ensures BuildStage(rules + [rule]) == Insert(BuildStage(rules), rule)
  {
    assert (rules + [rule])[..|rules|] == rules;
  }

  /** Once the rule lines up to `pos` fail to parse, so does the table. */
  lemma TableFails(lines: seq<string>, start: nat, pos: nat)
    requires start <= |lines| && start <= pos <= BlockEnd(lines, start)
    requires ParseRules(lines[start..pos]).None?
    ensures Table(lines, start).None?
  {
    var block := lines[start..BlockEnd(lines, start)];
    ParseRulesSpec(lines[start..pos]);
    ParseRulesSpec(block);
    var j :| 0 <= j < pos - start && ParseRule(lines[start..pos][j]).None?;
    assert block[j] == lines[start..pos][j];
  }

  /** The rest of the `while let` from line `pos`, with `built` the table so far. */
  function TableFrom(lines: seq<string>, pos: nat, built: seq<Rule>): Option<seq<Rule>>
    requires pos <= |lines| && Valid(built)
    decreases |lines| - pos
  {
    if pos == |lines| || lines[pos] == "" then Some(built)
    else
      var rule :- ParseRule(lines[pos]);
      TableFrom(lines, pos + 1, Insert(built, rule))
  }

  /** One turn of the `while let`: a rule line is parsed and inserted, or the read fails. */
  lemma TableFromStep(lines: seq<string>, pos: nat, built: seq<Rule>)
    requires pos < |lines| && lines[pos] != "" && Valid(built)
    ensures TableFrom(lines, pos, built) ==
      if ParseRule(lines[pos]).None? then None
      else TableFrom(lines, pos + 1, Insert(built, ParseRule(lines[pos]).value))
  {
  }

  /** At the blank line (or the end of the input) the table read so far is the table. */
  lemma TableAtEnd(lines: seq<string>, start: nat, rules: seq<Rule>)
    requires start <= |lines|
    requires ParseRules(lines[start..BlockEnd(lines, start)]) == Some(rules)
    ensures TableFrom(lines, BlockEnd(lines, start), BuildStage(rules)) == Table(lines, start)
  {
  }

  /** A rule line that does not parse ends the read in failure, and the table fails too. */
  lemma TableBadLine(lines: seq<string>, start: nat, pos: nat, built: seq<Rule>)
    requires start <= |lines| && start <= pos < BlockEnd(lines, start) && Valid(built)
    requires ParseRule(lines[pos]).None?
    ensures TableFrom(lines, pos, built) == None && Table(lines, start).None?
  {
    TableFromStep(lines, pos, built);
    ParseRulesSpec(lines[start..pos + 1]);
    assert lines[start..pos + 1][pos - start] == lines[pos];
    TableFails(lines, start, pos + 1);
  }

  /** Reading the rest of the table from any point reaches the table its lines build. */
  lemma {:induction false} TableFromTable(lines: seq<string>, start: nat, pos: nat, rules: seq<Rule>)
    requires start <= |lines| && start <= pos <= BlockEnd(lines, start)
    requires ParseRules(lines[start..pos]) == Some(rules)
    ensures TableFrom(lines, pos, BuildStage(rules)) == Table(lines, start)
    decreases |lines| - pos
  {
    if pos == BlockEnd(lines, start) {
      TableAtEnd(lines, start, rules);
    } else if ParseRule(lines[pos]).None? {
      TableBadLine(lines, start, pos, BuildStage(rules));
    } else {
      var rule := ParseRule(lines[pos]).value;
      ParseRulesSnoc(lines, start, pos);
      TableFromStep(lines, pos, BuildStage(rules));
      BuildStageSnoc(rules, rule);
      TableFromTable(lines, start, pos + 1, rules + [rule]);
    }
  }

  /** The `while let` started on an empty map reads exactly the table. */
  lemma TableReads(lines: seq<string>, start: nat)
    requires start <= |lines|
    ensures TableFrom(lines, start, []) == Table(lines, start)
  {
    assert lines[start..start] == [];
    TableFromTable(lines, start, start, []);
  }

  /** The `while let` of `ranges`: reads rule lines until a blank line or the end of the
      input, inserting each rule into a fresh table. */
  method ReadTable(lines: seq<string>, start: nat) returns (stage: Option<seq<Rule>>, pos: nat)
    requires start <= |lines|
    ensures pos == BlockEnd(lines, start)
    ensures stage == Table(lines, start)
  {
    TableReads(lines, start);
    pos := start;
    var built: seq<Rule> := [];
    while pos < |lines| && lines[pos] != ""
      invariant start <= pos <= |lines| && Valid(built)
      invariant BlockEnd(lines, start) == BlockEnd(lines, pos)
      invariant TableFrom(lines, pos, built) == TableFrom(lines, start, [])
      decreases |lines| - pos
    {
      var rule := ParseRule(lines[pos]);
      TableFromStep(lines, pos, built);
      if rule.None? {
        return None, BlockEnd(lines, start);
      }
      built := Insert(built, rule.value);
      pos := pos + 1;
    }
    stage := Some(built);
  }

  lemma ReadTablesStep(lines: seq<string>, pos: nat, count: nat)
    requires pos <= |lines| && count > 0
    ensures var start := Next(lines, pos);
      ReadTables(lines, pos, count) ==
        if Table(lines, start).None? then None
        else Prepend([Table(lines, start).value],
                     ReadTables(lines, Next(lines, BlockEnd(lines, start)), count - 1))
  {
  }

  lemma PrependNothing(rest: Option<seq<seq<Rule>>>)
    ensures Prepend([], rest) == rest
  {
    if rest.Some? {
      assert [] + rest.value == rest.value;
    }
  }

  lemma PrependPrepend(tables: seq<seq<Rule>>, stage: seq<Rule>, rest: Option<seq<seq<Rule>>>)
    ensures Prepend(tables, Prepend([stage], rest)) == Prepend(tables + [stage], rest)
  {
    if rest.Some? {
      assert tables + ([stage] + rest.value) == (tables + [stage]) + rest.value;
    }
  }

  /** `ranges`: seven times, skip the header line, read one table, skip the blank line;
      `None` where the program panics on a malformed line. */
  method Ranges(lines: seq<string>) returns (r: Option<seq<seq<Rule>>>)
    ensures r == Tables(lines)
  {
    var pos: nat := Next(lines, 0);
    var tables: seq<seq<Rule>> := [];
    PrependNothing(ReadTables(lines, pos, 7));
    for k := 0 to 7
      invariant pos <= |lines|
      invariant Tables(lines) == Prepend(tables, ReadTables(lines, pos, 7 - k))
    {
      ReadTablesStep(lines, pos, 7 - k);
      var stage;
      stage, pos := ReadTable(lines, Next(lines, pos));
      if stage.None? {
        return None;
      }
      PrependPrepend(tables, stage.value, ReadTables(lines, Next(lines, pos), 7 - k - 1));
      tables := tables + [stage.value];
      pos := Next(lines, pos);
    }
    assert ReadTables(lines, pos, 0) == Some([]);
    assert tables + [] == tables;
    r := Some(tables);
  }

  // ---------------------------------------------------------------- seeds

  /** The numbers after "seeds: " on the first line. */
  function SeedNumbers(line: string): (r: Option<seq<int>>)
    ensures r.Some? ==> Nth(SplitOn(line, ": "), 1).Some?
    ensures r.Some? ==> |r.value| == |SplitWhitespace(Nth(SplitOn(line, ": "), 1).value)|
    ensures r.Some? ==> var tokens := SplitWhitespace(Nth(SplitOn(line, ": "), 1).value);
      forall k :: 0 <= k < |tokens| ==> ParseInt(tokens[k]) == Some(r.value[k])
  {
    var field :- Nth(SplitOn(line, ": "), 1);
    ParseAllInt(SplitWhitespace(field))
  }

  /** Part 2 reads the numbers two at a time as `start, length`; an odd last number is dropped. */
  function Pairs(nums: seq<int>): (r: seq<Range>)
    ensures |r| == |nums| / 2
    ensures forall k :: 0 <= k < |r| ==>
      r[k].start == nums[2 * k] && r[k].end - r[k].start == nums[2 * k + 1]
  {
    if |nums| < 2 then [] else [Range(nums[0], nums[0] + nums[1])] + Pairs(nums[2..])
  }

  // ---------------------------------------------------------------- part 1

  function MapAll(stage: seq<Rule>, vals: seq<int>): (r: seq<int>)
    ensures |r| == |vals|
    ensures forall k :: 0 <= k < |vals| ==> r[k] == MapValue(stage, vals[k])
  {
    seq(|vals|, k requires 0 <= k < |vals| => MapValue(stage, vals[k]))
  }

  /** The fold of part 1: the whole list of values goes through the first table, then the
      next, and so on. */
  function ApplyStages(stages: seq<seq<Rule>>, vals: seq<int>): seq<int> {
    if stages == [] then vals else ApplyStages(stages[1..], MapAll(stages[0], vals))
  }

  lemma {:induction false} ScalarPipelineFirst(stages: seq<seq<Rule>>, v: int)
    requires stages != []
    ensures ScalarPipeline(stages, v) == ScalarPipeline(stages[1..], MapValue(stages[0], v))
    decreases |stages|
  {
    var n := |stages| - 1;
    if n > 0 {
      ScalarPipelineFirst(stages[..n], v);
      assert stages[..n][1..] == stages[1..][..n - 1];
      assert stages[..n][0] == stages[0];
    } else {
      assert stages[..0] == [] && stages[1..] == [];
    }
  }

  /** The fold keeps one value per seed, and value `k` is seed `k` taken through every
      table in order. */
  lemma {:induction false} ApplyStagesPointwise(stages: seq<seq<Rule>>, vals: seq<int>)
    ensures |ApplyStages(stages, vals)| == |vals|
    ensures forall k :: 0 <= k < |vals| ==>
      ApplyStages(stages, vals)[k] == ScalarPipeline(stages, vals[k])
    decreases |stages|
  {
    if stages != [] {
      ApplyStagesPointwise(stages[1..], MapAll(stages[0], vals));
      forall k | 0 <= k < |vals|
        ensures ApplyStages(stages, vals)[k] == ScalarPipeline(stages, vals[k])
      {
        ScalarPipelineFirst(stages, vals[k]);
      }
    }
  }

  function Min(xs: seq<int>): (r: Option<int>)
    ensures r.Some? <==> |xs| > 0
    ensures r.Some? ==> r.value in xs && forall k :: 0 <= k < |xs| ==> r.value <= xs[k]
  {
    if xs == [] then None
    else match Min(xs[1..])
      case None => Some(xs[0])
      case Some(m) =>
        assert m in xs;
        Some(if xs[0] <= m then xs[0] else m)
  }

  /** `part1`: the least location over the seed numbers; `None` where the program panics
      (a malformed line, or no seed numbers at all). */
  function Part1(input: string): (r: Option<int>)
    ensures var lines := Lines(input);
      r.Some? ==> (lines != [] && SeedNumbers(lines[0]).Some? && Tables(lines[1..]).Some? &&
        |SeedNumbers(lines[0]).value| > 0)
  {
    var lines := Lines(input);
    if lines == [] then None
    else
      var seeds :- SeedNumbers(lines[0]);
      var stages :- Tables(lines[1..]);
      ApplyStagesPointwise(stages, seeds);
      Min(ApplyStages(stages, seeds))
  }

  /** Part 1 answers the least value, over the seeds, of the seed taken through the tables. */
  lemma Part1Spec(input: string)
    ensures var lines := Lines(input);
      Part1(input).Some? <==>
        lines != [] && SeedNumbers(lines[0]).Some? && Tables(lines[1..]).Some? &&
        |SeedNumbers(lines[0]).value| > 0
    ensures var lines := Lines(input);
      Part1(input).Some? ==>
        var seeds := SeedNumbers(lines[0]).value;
        var stages := Tables(lines[1..]).value;
        && (exists k :: 0 <= k < |seeds| && Part1(input).value == ScalarPipeline(stages, seeds[k]))
        && (forall k :: 0 <= k < |seeds| ==> Part1(input).value <= ScalarPipeline(stages, seeds[k]))
  {
    var lines := Lines(input);
    if lines != [] && SeedNumbers(lines[0]).Some? && Tables(lines[1..]).Some? {
      var seeds := SeedNumbers(lines[0]).value;
      var stages := Tables(lines[1..]).value;
      ApplyStagesPointwise(stages, seeds);
      var fin := ApplyStages(stages, seeds);
      if |seeds| > 0 {
        var m := Min(fin).value;
        var i :| 0 <= i < |fin| && fin[i] == m;
        assert m == ScalarPipeline(stages, seeds[i]);
      }
    }
  }

  // ---------------------------------------------------------------- part 2

  /** What part 2 computes, as a function: the seed ranges through every table in range
      mode, then the least start. */
  function Part2Answer(input: string): (r: Option<int>)
    ensures var lines := Lines(input);
      r.Some? ==> (lines != [] && SeedNumbers(lines[0]).Some? && Tables(lines[1..]).Some? &&
        |SeedNumbers(lines[0]).value| >= 2)
  {
    var lines := Lines(input);
    if lines == [] then None
    else
      var nums :- SeedNumbers(lines[0]);
      var stages :- Tables(lines[1..]);
      PipelineOfNothing(stages);
      MinStart(RangePipeline(stages, Pairs(nums)))
  }

  /** `part2`: the table-by-table loop that replaces the current list of ranges with the
      overlap pieces followed by the gaps. */
  method Part2(input: string) returns (r: Option<int>)
    ensures r == Part2Answer(input)
  {
    var lines := Lines(input);
    if lines == [] {
      return None;
    }
    var nums := SeedNumbers(lines[0]);
    if nums.None? {
      return None;
    }
    var seeds := Pairs(nums.value);
    var tables := Ranges(lines[1..]);
    if tables.None? {
      return None;
    }
    var stages := tables.value;
    var last := seeds;
    for k := 0 to |stages|
      invariant last == RangePipeline(stages[..k], seeds)
    {
      assert stages[..k + 1][..k] == stages[..k];
      last := StageStep(stages[k], last);
    }
    assert stages[..|stages|] == stages;
    r := MinStart(last);
  }

  /** When every seed range is non-empty, part 2 answers the least location over every
      seed value of every range, which is what running part 1's per-value mapping over all
      of those values would give. */
  lemma Part2Spec(input: string)
    requires var lines := Lines(input);
      lines != [] && SeedNumbers(lines[0]).Some? && Tables(lines[1..]).Some?
    requires var seeds := Pairs(SeedNumbers(Lines(input)[0]).value);
      |seeds| > 0 && AllNonEmpty(seeds)
    ensures var lines := Lines(input);
      var seeds := Pairs(SeedNumbers(lines[0]).value);
      var stages := Tables(lines[1..]).value;
      && Part2Answer(input).Some?
      && (exists v :: InSome(v, seeds) && ScalarPipeline(stages, v) == Part2Answer(input).value)
      && (forall v :: InSome(v, seeds) ==> Part2Answer(input).value <= ScalarPipeline(stages, v))
  {
    var lines := Lines(input);
    var seeds := Pairs(SeedNumbers(lines[0]).value);
    var stages := Tables(lines[1..]).value;
    RangeModeIsScalarMinimum(stages, seeds);
  }

  /** For any seed line, empty or reversed ranges included: part 2's answer is at most the
      location of every seed value, and it is such a location unless it is the start of an
      empty piece, which only an empty or reversed seed range leaves behind. */
  lemma Part2Bound(input: string)
    requires var lines := Lines(input);
      lines != [] && SeedNumbers(lines[0]).Some? && Tables(lines[1..]).Some?
    ensures var lines := Lines(input);
      var seeds := Pairs(SeedNumbers(lines[0]).value);
      var stages := Tables(lines[1..]).value;
      && (forall v :: InSome(v, seeds) ==>
            Part2Answer(input).Some? && Part2Answer(input).value <= ScalarPipeline(stages, v))
      && (Part2Answer(input).Some? ==>
            (exists v :: InSome(v, seeds) && ScalarPipeline(stages, v) == Part2Answer(input).value) ||
            (!AllNonEmpty(seeds) &&
              exists p :: p in RangePipeline(stages, seeds) && !NonEmpty(p) && p.start == Part2Answer(input).value))
  {
    var lines := Lines(input);
    RangeModeBound(Tables(lines[1..]).value, Pairs(SeedNumbers(lines[0]).value));
  }
}
